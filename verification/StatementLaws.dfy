/** Laws of statement execution that hold for every program and every run. */
module StatementLaws {
  import opened Options
  import opened Statements

  // ----- fuel only bounds the length of a run -----

  lemma {:induction false} MoreFuel(w: World, f: nat, g: nat, s: Stmt, st: State)
    requires f <= g && !Exec(w, f, s, st).0.OutOfFuel?
    ensures Exec(w, g, s, st) == Exec(w, f, s, st)
    decreases f, s
  {
    match s
    case Skip =>
    case Act(_) =>
    case Seq(a, b) =>
      MoreFuel(w, f, g, a, st);
      var (c, st1) := Exec(w, f, a, st);
      if c.Done? { MoreFuel(w, f, g, b, st1); }
    case If(t, yes, no) =>
      var (r, st1) := Check(w, Some(t), st);
      if r.Holds? {
        if r.b { MoreFuel(w, f, g, yes, st1); } else { MoreFuel(w, f, g, no, st1); }
      }
    case Loop(_, start, _, _, _) =>
      var (c, st1) := Perform(w, start, st);
      if c.Done? { MoreFuelLoop(w, f, g, s, st1); }
    case DoWhile(_, _) => MoreFuelDo(w, f, g, s, st);
    case Switch(subject, cases) =>
      var (c, st1) := Perform(w, Some(subject), st);
      if c.Done? {
        var (c', start, st2) := FindCase(w, cases, 0, None, st1);
        if c'.Done? && start.Some? { MoreFuelCases(w, f, g, s, start.value, st2); }
      }
    case Try(_, _, _, _) => MoreFuelTry(w, f, g, s, st);
    case Break(_, _) =>
    case Continue(_, _) =>
    case Return(_, _) =>
    case Call(fn) =>
      if fn in w.bodies { MoreFuel(w, f - 1, g - 1, w.bodies[fn], Enter(w, fn, st)); }
  }

  lemma {:induction false} MoreFuelTry(w: World, f: nat, g: nat, s: Stmt, st: State)
    requires s.Try? && f <= g && !Exec(w, f, s, st).0.OutOfFuel?
    ensures Exec(w, g, s, st) == Exec(w, f, s, st)
    decreases f, s, 0
  {
    var st0 := if s.fin.Some? then Log(st, Entered(s.id)) else st;
    MoreFuel(w, f, g, s.body, st0);
    var (c, st1) := Exec(w, f, s.body, st0);
    if c.Raise? && c.err.sig.Thrown? && !c.err.wrapped {
      var i := FirstMatch(w, s.catches, c.err.sig.exn);
      if i < |s.catches| { MoreFuel(w, f, g, s.catches[i].body, st1); }
      var st2 := if i < |s.catches| then Exec(w, f, s.catches[i].body, st1).1 else st1;
      if s.fin.Some? { MoreFuel(w, f, g, s.fin.value, Log(st2, Finally(s.id))); }
    } else if !(c.Raise? && c.err.sig.Exiting? && !c.err.wrapped) && s.fin.Some? {
      MoreFuel(w, f, g, s.fin.value, Log(st1, Finally(s.id)));
    }
  }

  lemma {:induction false} MoreFuelLoop(w: World, f: nat, g: nat, s: Stmt, st: State)
    requires s.Loop? && f <= g && !ExecLoop(w, f, s, st).0.OutOfFuel?
    ensures ExecLoop(w, g, s, st) == ExecLoop(w, f, s, st)
    decreases f, s, 0
  {
    var (t, st1) := Check(w, s.cond, st);
    if t == Holds(true) {
      MoreFuel(w, f - 1, g - 1, s.body, st1);
      var (c, st2) := Exec(w, f - 1, s.body, st1);
      var (v, st3) := AfterLoopBody(s.kind, c, st2);
      if v.Again? {
        var (c', st4) := Perform(w, s.each, st3);
        if !(c'.Raise? && !s.kind.ForeachLoop?) { MoreFuelLoop(w, f - 1, g - 1, s, st4); }
      }
    }
  }

  lemma {:induction false} MoreFuelDo(w: World, f: nat, g: nat, s: Stmt, st: State)
    requires s.DoWhile? && f <= g && !ExecDo(w, f, s, st).0.OutOfFuel?
    ensures ExecDo(w, g, s, st) == ExecDo(w, f, s, st)
    decreases f, s, 0
  {
    MoreFuel(w, f - 1, g - 1, s.body, st);
    var (c, st1) := Exec(w, f - 1, s.body, st);
    var (v, st2) := AfterLoopBody(WhileLoop, c, st1);
    if v.Again? {
      var (t, st3) := Check(w, Some(s.until), st2);
      if t == Holds(true) { MoreFuelDo(w, f - 1, g - 1, s, st3); }
    }
  }

  lemma {:induction false} MoreFuelCases(w: World, f: nat, g: nat, s: Stmt, i: nat, st: State)
    requires s.Switch? && i <= |s.cases| && f <= g && !ExecCases(w, f, s, i, st).0.OutOfFuel?
    ensures ExecCases(w, g, s, i, st) == ExecCases(w, f, s, i, st)
    decreases f, s, |s.cases| - i
  {
    if i < |s.cases| {
      MoreFuel(w, f, g, s.cases[i].code, st);
      var (c, st1) := Exec(w, f, s.cases[i].code, st);
      var (v, st2) := AfterCase(c, st1);
      if v.Again? { MoreFuelCases(w, f, g, s, i + 1, st2); }
    }
  }

  // ----- for (; c; ) b  is  if (c) do b while (c) -----

  /** The two statements have the same effects and the same completion, whatever the body does:
      breaks and continues of any level, returns, throws, exits, and running out of fuel. */
  lemma ForIsGuardedDoWhile(w: World, f: nat, c: nat, b: Stmt, st: State)
    ensures Exec(w, f, Loop(ForLoop, None, Some(c), None, b), st) == Exec(w, f, If(c, DoWhile(b, c), Skip), st)
  {
    GuardedLoop(w, f, ForLoop, c, b, st);
  }

  /** The same for `while (c) b`. */
  lemma WhileIsGuardedDoWhile(w: World, f: nat, c: nat, b: Stmt, st: State)
    ensures Exec(w, f, Loop(WhileLoop, None, Some(c), None, b), st) == Exec(w, f, If(c, DoWhile(b, c), Skip), st)
  {
    GuardedLoop(w, f, WhileLoop, c, b, st);
  }

  lemma {:induction false} GuardedLoop(w: World, f: nat, kind: LoopKind, c: nat, b: Stmt, st: State)
    requires !kind.ForeachLoop?
    ensures ExecLoop(w, f, Loop(kind, None, Some(c), None, b), st) == Exec(w, f, If(c, DoWhile(b, c), Skip), st)
    decreases f
  {
    var loop, again := Loop(kind, None, Some(c), None, b), DoWhile(b, c);
    var (t, st1) := Check(w, Some(c), st);
    assert Exec(w, f, again, st1) == ExecDo(w, f, again, st1);
    if t == Holds(true) && f > 0 {
      var (r, st2) := Exec(w, f - 1, b, st1);
      assert AfterLoopBody(kind, r, st2) == AfterLoopBody(WhileLoop, r, st2);
      var (v, st3) := AfterLoopBody(kind, r, st2);
      if v.Again? {
        GuardedLoop(w, f - 1, kind, c, b, st3);
        assert Exec(w, f - 1, again, Check(w, Some(c), st3).1) == ExecDo(w, f - 1, again, Check(w, Some(c), st3).1);
      }
    }
  }

  // ----- each try statement's finally block runs exactly once -----

  function Count(tr: seq<Event>, e: Event): nat {
    if tr == [] then 0 else (if tr[|tr| - 1] == e then 1 else 0) + Count(tr[..|tr| - 1], e)
  }

  lemma CountLog(st: State, e: Event, x: Event)
    ensures Count(Log(st, e).trace, x) == Count(st.trace, x) + if e == x then 1 else 0
  {
    assert (st.trace + [e])[..|st.trace|] == st.trace;
  }

  /** How many try statements `id` were entered beyond those whose finally block ran or that an
      exit passed. */
  function Owed(st: State, id: nat): int {
    Count(st.trace, Entered(id)) - Count(st.trace, Finally(id)) - Count(st.trace, SkippedByExit(id))
  }

  lemma OwedLog(st: State, e: Event, id: nat)
    ensures Owed(Log(st, e), id) ==
            Owed(st, id) + (if e == Entered(id) then 1 else if e == Finally(id) || e == SkippedByExit(id) then -1
              else 0)
  {
    CountLog(st, e, Entered(id));
    CountLog(st, e, Finally(id));
    CountLog(st, e, SkippedByExit(id));
  }

  /** Over any run that ends, however it ends: every entry into a try statement is matched by
      exactly one run of its finally block, or by one exit raised directly by its body. */
  lemma {:induction false} FinallyRunsOnce(w: World, f: nat, s: Stmt, st: State, id: nat)
    requires !Exec(w, f, s, st).0.OutOfFuel?
    ensures Owed(Exec(w, f, s, st).1, id) == Owed(st, id)
    decreases f, s
  {
    match s
    case Skip =>
    case Act(_) =>
    case Seq(a, b) =>
      FinallyRunsOnce(w, f, a, st, id);
      var (c, st1) := Exec(w, f, a, st);
      if c.Done? { FinallyRunsOnce(w, f, b, st1, id); }
    case If(t, yes, no) =>
      var (r, st1) := Check(w, Some(t), st);
      if r.Holds? {
        if r.b { FinallyRunsOnce(w, f, yes, st1, id); } else { FinallyRunsOnce(w, f, no, st1, id); }
      }
    case Loop(_, start, _, _, _) =>
      var (c, st1) := Perform(w, start, st);
      if c.Done? { LoopRunsOnce(w, f, s, st1, id); }
    case DoWhile(_, _) => DoRunsOnce(w, f, s, st, id);
    case Switch(subject, cases) =>
      var (c, st1) := Perform(w, Some(subject), st);
      if c.Done? {
        var (c', start, st2) := FindCase(w, cases, 0, None, st1);
        if c'.Done? && start.Some? { CasesRunOnce(w, f, s, start.value, st2, id); }
      }
    case Try(_, _, _, _) => TryRunsOnce(w, f, s, st, id);
    case Break(_, _) =>
    case Continue(_, _) =>
    case Return(_, _) =>
    case Call(fn) =>
      if fn in w.bodies { FinallyRunsOnce(w, f - 1, w.bodies[fn], Enter(w, fn, st), id); }
  }

  lemma {:induction false} TryRunsOnce(w: World, f: nat, s: Stmt, st: State, id: nat)
    requires s.Try? && !Exec(w, f, s, st).0.OutOfFuel?
    ensures Owed(Exec(w, f, s, st).1, id) == Owed(st, id)
    decreases f, s, 0
  {
    var Try(own, body, catches, fin) := s;
    var st0 := if fin.Some? then Log(st, Entered(own)) else st;
    OwedLog(st, Entered(own), id);
    FinallyRunsOnce(w, f, body, st0, id);
    var (c, st1) := Exec(w, f, body, st0);
    OwedLog(st1, Finally(own), id);
    OwedLog(st1, SkippedByExit(own), id);
    if c.Raise? && c.err.sig.Thrown? && !c.err.wrapped {
      var i := FirstMatch(w, catches, c.err.sig.exn);
      if i < |catches| { FinallyRunsOnce(w, f, catches[i].body, st1, id); }
      var st2 := if i < |catches| then Exec(w, f, catches[i].body, st1).1 else st1;
      OwedLog(st2, Finally(own), id);
      if fin.Some? { FinallyRunsOnce(w, f, fin.value, Log(st2, Finally(own)), id); }
    } else if !(c.Raise? && c.err.sig.Exiting? && !c.err.wrapped) && fin.Some? {
      FinallyRunsOnce(w, f, fin.value, Log(st1, Finally(own)), id);
    }
  }

  lemma {:induction false} LoopRunsOnce(w: World, f: nat, s: Stmt, st: State, id: nat)
    requires s.Loop? && !ExecLoop(w, f, s, st).0.OutOfFuel?
    ensures Owed(ExecLoop(w, f, s, st).1, id) == Owed(st, id)
    decreases f, s, 0
  {
    var (t, st1) := Check(w, s.cond, st);
    if t == Holds(true) {
      FinallyRunsOnce(w, f - 1, s.body, st1, id);
      var (c, st2) := Exec(w, f - 1, s.body, st1);
      var (v, st3) := AfterLoopBody(s.kind, c, st2);
      if v.Again? {
        var (c', st4) := Perform(w, s.each, st3);
        if !(c'.Raise? && !s.kind.ForeachLoop?) { LoopRunsOnce(w, f - 1, s, st4, id); }
      }
    }
  }

  lemma {:induction false} DoRunsOnce(w: World, f: nat, s: Stmt, st: State, id: nat)
    requires s.DoWhile? && !ExecDo(w, f, s, st).0.OutOfFuel?
    ensures Owed(ExecDo(w, f, s, st).1, id) == Owed(st, id)
    decreases f, s, 0
  {
    FinallyRunsOnce(w, f - 1, s.body, st, id);
    var (c, st1) := Exec(w, f - 1, s.body, st);
    var (v, st2) := AfterLoopBody(WhileLoop, c, st1);
    if v.Again? {
      var (t, st3) := Check(w, Some(s.until), st2);
      if t == Holds(true) { DoRunsOnce(w, f - 1, s, st3, id); }
    }
  }

  lemma {:induction false} CasesRunOnce(w: World, f: nat, s: Stmt, i: nat, st: State, id: nat)
    requires s.Switch? && i <= |s.cases| && !ExecCases(w, f, s, i, st).0.OutOfFuel?
    ensures Owed(ExecCases(w, f, s, i, st).1, id) == Owed(st, id)
    decreases f, s, |s.cases| - i
  {
    if i < |s.cases| {
      FinallyRunsOnce(w, f, s.cases[i].code, st, id);
      var (c, st1) := Exec(w, f, s.cases[i].code, st);
      var (v, st2) := AfterCase(c, st1);
      if v.Again? { CasesRunOnce(w, f, s, i + 1, st2, id); }
    }
  }
}
