/** What a run can do to the values of variables: relations between memories that every action,
    test and call respects are respected by every run. */
module StatementMemory {
  import opened Options
  import opened Variables
  import opened Statements

  type Relation = (Memory, Memory) -> bool

  ghost predicate Preorder(rel: Relation) {
    (forall m :: rel(m, m)) && forall m, n, o :: rel(m, n) && rel(n, o) ==> rel(m, o)
  }

  /** Actions, tests and calls respect the relation. */
  ghost predicate Respects(w: World, rel: Relation) {
    && Preorder(rel)
    && (forall m, a :: rel(m, ApplyAll(m, w.act(a, View(m)).1)))
    && (forall m, t :: rel(m, ApplyAll(m, w.test(t, View(m)).1)))
    && forall m, fn, end :: rel(EnterCall(m, w.shared(fn)), end) ==> rel(m, LeaveCall(m, w.shared(fn), end))
  }

  lemma StepRelates(w: World, rel: Relation, a: Option<nat>, st: State)
    requires Respects(w, rel)
    ensures rel(st.mem, Perform(w, a, st).1.mem) && rel(st.mem, Check(w, a, st).1.mem)
  {
  }

  lemma {:induction false} FindCaseRelates(w: World, rel: Relation, cases: seq<CaseBlock>, i: nat, default: Option<nat>,
      st: State)
    requires Respects(w, rel) && i <= |cases| && (default.Some? ==> default.value < |cases|)
    ensures rel(st.mem, FindCase(w, cases, i, default, st).2.mem)
    decreases |cases| - i
  {
    if i < |cases| {
      if cases[i].test.None? {
        FindCaseRelates(w, rel, cases, i + 1, Some(i), st);
      } else {
        StepRelates(w, rel, cases[i].test, st);
        FindCaseRelates(w, rel, cases, i + 1, default, Check(w, cases[i].test, st).1);
      }
    }
  }

  /** A run of any statement, however it ends, respects the relation. */
  lemma {:induction false} ExecRelates(w: World, rel: Relation, f: nat, s: Stmt, st: State)
    requires Respects(w, rel)
    ensures rel(st.mem, Exec(w, f, s, st).1.mem)
    decreases f, s
  {
    match s
    case Skip =>
    case Act(a) => StepRelates(w, rel, Some(a), st);
    case Seq(a, b) =>
      ExecRelates(w, rel, f, a, st);
      ExecRelates(w, rel, f, b, Exec(w, f, a, st).1);
    case If(t, yes, no) =>
      var st1 := Check(w, Some(t), st).1;
      StepRelates(w, rel, Some(t), st);
      ExecRelates(w, rel, f, yes, st1);
      ExecRelates(w, rel, f, no, st1);
    case Loop(_, start, _, _, _) =>
      StepRelates(w, rel, start, st);
      LoopRelates(w, rel, f, s, Perform(w, start, st).1);
    case DoWhile(_, _) => DoRelates(w, rel, f, s, st);
    case Switch(_, _) => SwitchRelates(w, rel, f, s, st);
    case Try(_, _, _, _) => TryRelates(w, rel, f, s, st);
    case Break(_, _) =>
    case Continue(_, _) =>
    case Return(_, _) =>
    case Call(fn) =>
      if fn in w.bodies && f > 0 {
        ExecRelates(w, rel, f - 1, w.bodies[fn], Enter(w, fn, st));
      }
  }

  lemma {:induction false} LoopRelates(w: World, rel: Relation, f: nat, s: Stmt, st: State)
    requires Respects(w, rel) && s.Loop?
    ensures rel(st.mem, ExecLoop(w, f, s, st).1.mem)
    decreases f, s, 0
  {
    var (t, st1) := Check(w, s.cond, st);
    StepRelates(w, rel, s.cond, st);
    if t == Holds(true) && f > 0 {
      ExecRelates(w, rel, f - 1, s.body, st1);
      var (c, st2) := Exec(w, f - 1, s.body, st1);
      var (v, st3) := AfterLoopBody(s.kind, c, st2);
      if v.Again? {
        StepRelates(w, rel, s.each, st3);
        LoopRelates(w, rel, f - 1, s, Perform(w, s.each, st3).1);
      }
    }
  }

  lemma {:induction false} DoRelates(w: World, rel: Relation, f: nat, s: Stmt, st: State)
    requires Respects(w, rel) && s.DoWhile?
    ensures rel(st.mem, ExecDo(w, f, s, st).1.mem)
    decreases f, s, 0
  {
    if f > 0 {
      ExecRelates(w, rel, f - 1, s.body, st);
      var (c, st1) := Exec(w, f - 1, s.body, st);
      var (v, st2) := AfterLoopBody(WhileLoop, c, st1);
      if v.Again? {
        StepRelates(w, rel, Some(s.until), st2);
        DoRelates(w, rel, f - 1, s, Check(w, Some(s.until), st2).1);
      }
    }
  }

  lemma {:induction false} SwitchRelates(w: World, rel: Relation, f: nat, s: Stmt, st: State)
    requires Respects(w, rel) && s.Switch?
    ensures rel(st.mem, Exec(w, f, s, st).1.mem)
    decreases f, s, 1
  {
    var (c, st1) := Perform(w, Some(s.subject), st);
    StepRelates(w, rel, Some(s.subject), st);
    if c.Done? {
      var (c', start, st2) := FindCase(w, s.cases, 0, None, st1);
      FindCaseRelates(w, rel, s.cases, 0, None, st1);
      if c'.Done? && start.Some? {
        CasesRelate(w, rel, f, s, start.value, st2);
      }
    }
  }

  lemma {:induction false} CasesRelate(w: World, rel: Relation, f: nat, s: Stmt, i: nat, st: State)
    requires Respects(w, rel) && s.Switch? && i <= |s.cases|
    ensures rel(st.mem, ExecCases(w, f, s, i, st).1.mem)
    decreases f, s, 0, |s.cases| - i
  {
    if i < |s.cases| {
      ExecRelates(w, rel, f, s.cases[i].code, st);
      var (c, st1) := Exec(w, f, s.cases[i].code, st);
      var (v, st2) := AfterCase(c, st1);
      if v.Again? { CasesRelate(w, rel, f, s, i + 1, st2); }
    }
  }

  lemma {:induction false} TryRelates(w: World, rel: Relation, f: nat, s: Stmt, st: State)
    requires Respects(w, rel) && s.Try?
    ensures rel(st.mem, Exec(w, f, s, st).1.mem)
    decreases f, s, 0
  {
    var st0 := if s.fin.Some? then Log(st, Entered(s.id)) else st;
    ExecRelates(w, rel, f, s.body, st0);
    var (c, st1) := Exec(w, f, s.body, st0);
    var i := if c.Raise? && c.err.sig.Thrown? && !c.err.wrapped then FirstMatch(w, s.catches, c.err.sig.exn)
      else |s.catches|;
    if i < |s.catches| {
      ExecRelates(w, rel, f, s.catches[i].body, st1);
    }
    var st2 := if i < |s.catches| then Exec(w, f, s.catches[i].body, st1).1 else st1;
    if s.fin.Some? {
      ExecRelates(w, rel, f, s.fin.value, Log(st2, Finally(s.id)));
    }
  }

  // ----- old values change by recorded writes only -----

  ghost predicate GrowsSound(m: Memory, n: Memory) {
    Grows(m, n) && (InHeap(m) ==> InHeap(n))
  }

  /** Over any run, a value changes only by writes to it that are on record, and names lead to
      values throughout. */
  lemma RunGrows(w: World, f: nat, s: Stmt, st: State)
    ensures Grows(st.mem, Exec(w, f, s, st).1.mem) && (InHeap(st.mem) ==> InHeap(Exec(w, f, s, st).1.mem))
  {
    EveryWorldGrows(w);
    ExecRelates(w, (m, n) => GrowsSound(m, n), f, s, st);
  }

  lemma EveryWorldGrows(w: World)
    ensures Respects(w, (m, n) => GrowsSound(m, n))
  {
    forall m ensures GrowsSound(m, m) {
      GrowsAlone(m, m);
    }
    forall m, n, o | GrowsSound(m, n) && GrowsSound(n, o) ensures GrowsSound(m, o) {
      GrowsTransitive(m, n, o);
    }
    forall m, a ensures GrowsSound(m, ApplyAll(m, w.act(a, View(m)).1)) {
      ApplyAllGrows(m, w.act(a, View(m)).1);
    }
    forall m, t ensures GrowsSound(m, ApplyAll(m, w.test(t, View(m)).1)) {
      ApplyAllGrows(m, w.test(t, View(m)).1);
    }
    forall m, fn, end | GrowsSound(EnterCall(m, w.shared(fn)), end)
      ensures GrowsSound(m, LeaveCall(m, w.shared(fn), end)) {
      CallGrows(m, w.shared(fn), end);
    }
  }
}
