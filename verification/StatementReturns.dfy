/** What a finally block can and cannot do to a pending completion: which one wins, when an exit
    passes it by, and when a pending return keeps the value it had at the return statement. */
module StatementReturns {
  import opened Options
  import opened Variables
  import opened Statements
  import opened StatementMemory

  // ----- finally decides -----

  /** What the caller gets. */
  function Delivered(r: RetVal, st: State): int {
    if r.address.Some? then At(st.mem, r.address.value) else r.v
  }

  /** The pending completion as the finally block leaves it. A returned value is copied first, unless
      it comes from the body of a function that returns by reference, or comes wrapped from a catch
      block. `c` is how the body ended, `p` how body and catch blocks ended together. */
  function Detached(w: World, c: Completion, p: Completion, st: State): Completion {
    if !p.Raise? || c.Done? then p
    else if c.Raise? && c.err.sig.Thrown? && !c.err.wrapped then
      if p.err.wrapped then p else Raise(Snapshot(p.err, st))
    else if w.byRef then p
    else Raise(Snapshot(p.err, st))
  }

  /** A try statement with a finally block is the try statement without it, followed by the block:
      an abnormal end of the block replaces what was pending, a normal end keeps it. The block is
      left out exactly when the body itself ended in an unwrapped exit, and a force-close is not
      replaced by another one. */
  lemma FinallyDecides(w: World, f: nat, id: nat, body: Stmt, catches: seq<CatchClause>, fin: Stmt, st: State)
    ensures var st0 := Log(st, Entered(id));
            var c := Exec(w, f, body, st0).0;
            var (p, st1) := Exec(w, f, Try(id, body, catches, None), st0);
            var (q, st2) := Exec(w, f, fin, Log(st1, Finally(id)));
            var (r, st') := Exec(w, f, Try(id, body, catches, Some(fin)), st);
            if p.OutOfFuel? then r.OutOfFuel?
            else if c == Raise(Err(Exiting, false)) then (r, st') == (p, Log(st1, SkippedByExit(id)))
            else if q.OutOfFuel? then r.OutOfFuel?
            else st' == st2 &&
                 r == if q.Raise? && !(c.Raise? && c.err.sig.Closing? && q.err.sig.Closing?) then q
                      else Detached(w, c, p, st1)
  {
    var (c, st1) := Exec(w, f, body, Log(st, Entered(id)));
    if c.Raise? && c.err.sig.Thrown? && !c.err.wrapped {
      FinallyAfterThrow(w, f, id, body, catches, fin, st);
    } else if c.Raise? {
      FinallyAfterOther(w, f, id, body, catches, fin, st);
    }
  }

  lemma FinallyAfterThrow(w: World, f: nat, id: nat, body: Stmt, catches: seq<CatchClause>, fin: Stmt, st: State)
    requires var c := Exec(w, f, body, Log(st, Entered(id))).0; c.Raise? && c.err.sig.Thrown? && !c.err.wrapped
    ensures var st0 := Log(st, Entered(id));
            var c := Exec(w, f, body, st0).0;
            var (p, st1) := Exec(w, f, Try(id, body, catches, None), st0);
            var (q, st2) := Exec(w, f, fin, Log(st1, Finally(id)));
            var (r, st') := Exec(w, f, Try(id, body, catches, Some(fin)), st);
            if p.OutOfFuel? then r.OutOfFuel?
            else st' == st2 && r == if q.Done? then Detached(w, c, p, st1) else q
  {
    var (c, st1) := Exec(w, f, body, Log(st, Entered(id)));
    var i := FirstMatch(w, catches, c.err.sig.exn);
  }

  lemma FinallyAfterOther(w: World, f: nat, id: nat, body: Stmt, catches: seq<CatchClause>, fin: Stmt, st: State)
    requires var c := Exec(w, f, body, Log(st, Entered(id))).0; c.Raise? && (!c.err.sig.Thrown? || c.err.wrapped)
    ensures var st0 := Log(st, Entered(id));
            var c := Exec(w, f, body, st0).0;
            var (p, st1) := Exec(w, f, Try(id, body, catches, None), st0);
            var (q, st2) := Exec(w, f, fin, Log(st1, Finally(id)));
            var (r, st') := Exec(w, f, Try(id, body, catches, Some(fin)), st);
            && p == c
            && if c == Raise(Err(Exiting, false)) then (r, st') == (p, Log(st1, SkippedByExit(id)))
               else if q.OutOfFuel? then r.OutOfFuel?
               else st' == st2 &&
                    r == if q.Raise? && !(c.err.sig.Closing? && q.err.sig.Closing?) then q else Detached(w, c, p, st1)
  {
  }

  // ----- exits -----

  /** A loop wraps an exit raised by its body. */
  lemma LoopWrapsExit(w: World, f: nat, s: Stmt, st: State)
    requires s.Loop? && f > 0 && Check(w, s.cond, st).0 == Holds(true)
    requires Exec(w, f - 1, s.body, Check(w, s.cond, st).1).0 == Raise(Err(Exiting, false))
    ensures ExecLoop(w, f, s, st).0 == Raise(Err(Exiting, true))
    ensures ExecLoop(w, f, s, st).1 == Exec(w, f - 1, s.body, Check(w, s.cond, st).1).1
  {
  }

  /** So an exit inside a loop does run the finally blocks around the loop, and such a block can
      even cancel the exit by ending abnormally itself. */
  lemma ExitInLoopRunsFinally(w: World, f: nat, id: nat, kind: LoopKind, c: nat, b: Stmt, fin: Stmt, st: State)
    requires f > 0
    requires var st0 := Log(st, Entered(id));
             Check(w, Some(c), st0).0 == Holds(true)
             && Exec(w, f - 1, b, Check(w, Some(c), st0).1).0 == Raise(Err(Exiting, false))
    ensures var st1 := Exec(w, f - 1, b, Check(w, Some(c), Log(st, Entered(id))).1).1;
            var (q, st2) := Exec(w, f, fin, Log(st1, Finally(id)));
            var (r, st') := Exec(w, f, Try(id, Loop(kind, None, Some(c), None, b), [], Some(fin)), st);
            st' == st2 && r == if q.Done? then Raise(Err(Exiting, true)) else q
  {
    var st0 := Log(st, Entered(id));
    var loop := Loop(kind, None, Some(c), None, b);
    LoopWrapsExit(w, f, loop, st0);
    assert Exec(w, f, loop, st0) == ExecLoop(w, f, loop, st0);
    WrappedExitRunsFinally(w, f, id, loop, [], fin, st);
  }

  /** A try statement whose body ends in a wrapped exit runs its finally block after all. */
  lemma WrappedExitRunsFinally(w: World, f: nat, id: nat, body: Stmt, catches: seq<CatchClause>, fin: Stmt, st: State)
    requires Exec(w, f, body, Log(st, Entered(id))).0 == Raise(Err(Exiting, true))
    ensures var st1 := Exec(w, f, body, Log(st, Entered(id))).1;
            var (q, st2) := Exec(w, f, fin, Log(st1, Finally(id)));
            var (r, st') := Exec(w, f, Try(id, body, catches, Some(fin)), st);
            st' == st2 && r == if q.Done? then Raise(Err(Exiting, true)) else q
  {
    assert Snapshot(Err(Exiting, true), Exec(w, f, body, Log(st, Entered(id))).1) == Err(Exiting, true);
  }

  /** No loop and no call in the statement. */
  ghost predicate Straight(s: Stmt)
    decreases s
  {
    match s
    case Loop(_, _, _, _, _) => false
    case DoWhile(_, _) => false
    case Call(_) => false
    case Seq(a, b) => Straight(a) && Straight(b)
    case If(_, a, b) => Straight(a) && Straight(b)
    case Switch(_, cases) => forall i :: 0 <= i < |cases| ==> Straight(cases[i].code)
    case Try(_, body, catches, fin) =>
      && Straight(body)
      && (forall i :: 0 <= i < |catches| ==> Straight(catches[i].body))
      && (fin.Some? ==> Straight(fin.value))
    case _ => true
  }

  /** Without a loop or call in between an exit is never wrapped, so the enclosing finally blocks
      are all skipped. */
  lemma {:induction false} StraightExitIsRaw(w: World, f: nat, s: Stmt, st: State)
    requires Straight(s)
    ensures var c := Exec(w, f, s, st).0;
            c.Raise? && c.err.sig.Exiting? ==> !c.err.wrapped
    decreases s
  {
    match s
    case Seq(a, b) =>
      StraightExitIsRaw(w, f, a, st);
      var (c, st1) := Exec(w, f, a, st);
      if c.Done? { StraightExitIsRaw(w, f, b, st1); }
    case If(t, a, b) =>
      StraightExitIsRaw(w, f, a, Check(w, Some(t), st).1);
      StraightExitIsRaw(w, f, b, Check(w, Some(t), st).1);
    case Switch(subject, cases) =>
      var (c, st1) := Perform(w, Some(subject), st);
      if c.Done? {
        var (c', start, st2) := FindCase(w, cases, 0, None, st1);
        FindCaseFaultIsRaw(w, cases, 0, None, st1);
        if c'.Done? && start.Some? { StraightCases(w, f, s, start.value, st2); }
      }
    case Try(id, body, catches, fin) =>
      var st0 := if fin.Some? then Log(st, Entered(id)) else st;
      StraightExitIsRaw(w, f, body, st0);
      var (c, st1) := Exec(w, f, body, st0);
      var i := if c.Raise? && c.err.sig.Thrown? then FirstMatch(w, catches, c.err.sig.exn) else |catches|;
      if i < |catches| { StraightExitIsRaw(w, f, catches[i].body, st1); }
      var st2 := if i < |catches| && !c.err.wrapped then Exec(w, f, catches[i].body, st1).1 else st1;
      if fin.Some? { StraightExitIsRaw(w, f, fin.value, Log(st2, Finally(id))); }
    case _ =>
  }

  lemma {:induction false} FindCaseFaultIsRaw(w: World, cases: seq<CaseBlock>, i: nat, default: Option<nat>, st: State)
    requires i <= |cases| && (default.Some? ==> default.value < |cases|)
    ensures var c := FindCase(w, cases, i, default, st).0;
            c.Raise? && c.err.sig.Exiting? ==> !c.err.wrapped
    decreases |cases| - i
  {
    if i < |cases| {
      if cases[i].test.None? { FindCaseFaultIsRaw(w, cases, i + 1, Some(i), st); }
      else { FindCaseFaultIsRaw(w, cases, i + 1, default, Check(w, cases[i].test, st).1); }
    }
  }

  lemma {:induction false} StraightCases(w: World, f: nat, s: Stmt, i: nat, st: State)
    requires s.Switch? && i <= |s.cases| && Straight(s)
    ensures var c := ExecCases(w, f, s, i, st).0;
            c.Raise? && c.err.sig.Exiting? ==> !c.err.wrapped
    decreases s, |s.cases| - i
  {
    if i < |s.cases| {
      StraightExitIsRaw(w, f, s.cases[i].code, st);
      var (c, st1) := Exec(w, f, s.cases[i].code, st);
      var (v, st2) := AfterCase(c, st1);
      if v.Again? { StraightCases(w, f, s, i + 1, st2); }
    }
  }

  // ----- pending returns -----

  predicate Returns(c: Completion) {
    c.Raise? && c.err.sig.Returning?
  }

  /** A return statement of `s` names a variable outside `xs`. */
  ghost predicate HasReturn(s: Stmt, xs: set<nat>)
    decreases s
  {
    match s
    case Return(x, _) => x.Some? && x.value !in xs
    case Seq(a, b) => HasReturn(a, xs) || HasReturn(b, xs)
    case If(_, a, b) => HasReturn(a, xs) || HasReturn(b, xs)
    case Loop(_, _, _, _, body) => HasReturn(body, xs)
    case DoWhile(body, _) => HasReturn(body, xs)
    case Switch(_, cases) => exists i :: 0 <= i < |cases| && HasReturn(cases[i].code, xs)
    case Try(_, body, catches, fin) =>
      || HasReturn(body, xs)
      || (exists i :: 0 <= i < |catches| && HasReturn(catches[i].body, xs))
      || (fin.Some? && HasReturn(fin.value, xs))
    case _ => false
  }

  /** One that stands inside a loop of `s`. */
  ghost predicate LoopedReturn(s: Stmt, xs: set<nat>)
    decreases s
  {
    match s
    case Seq(a, b) => LoopedReturn(a, xs) || LoopedReturn(b, xs)
    case If(_, a, b) => LoopedReturn(a, xs) || LoopedReturn(b, xs)
    case Loop(_, _, _, _, body) => HasReturn(body, xs)
    case DoWhile(body, _) => HasReturn(body, xs)
    case Switch(_, cases) => exists i :: 0 <= i < |cases| && LoopedReturn(cases[i].code, xs)
    case Try(_, body, catches, fin) =>
      || LoopedReturn(body, xs)
      || (exists i :: 0 <= i < |catches| && LoopedReturn(catches[i].body, xs))
      || (fin.Some? && LoopedReturn(fin.value, xs))
    case _ => false
  }

  /** A returned value that still lies in memory comes from a return statement that names a
      variable, and its signal is unwrapped unless the statement stands in a loop. */
  ghost predicate Shaped(s: Stmt, c: Completion) {
    Returns(c) && c.err.sig.ret.address.Some? ==> HasReturn(s, {}) && (c.err.wrapped ==> LoopedReturn(s, {}))
  }

  lemma {:induction false} ReturnShape(w: World, f: nat, s: Stmt, st: State)
    ensures Shaped(s, Exec(w, f, s, st).0)
    decreases f, s
  {
    match s
    case Seq(a, b) =>
      ReturnShape(w, f, a, st);
      ReturnShape(w, f, b, Exec(w, f, a, st).1);
    case If(t, a, b) =>
      ReturnShape(w, f, a, Check(w, Some(t), st).1);
      ReturnShape(w, f, b, Check(w, Some(t), st).1);
    case Loop(_, start, _, _, _) => LoopReturnShape(w, f, s, Perform(w, start, st).1);
    case DoWhile(_, _) => DoReturnShape(w, f, s, st);
    case Switch(_, _) => SwitchReturnShape(w, f, s, st);
    case Try(_, _, _, _) => TryReturnShape(w, f, s, st);
    case _ =>
  }

  lemma {:induction false} LoopReturnShape(w: World, f: nat, s: Stmt, st: State)
    requires s.Loop?
    ensures Shaped(s, ExecLoop(w, f, s, st).0)
    decreases f, s, 0
  {
    var (t, st1) := Check(w, s.cond, st);
    if t == Holds(true) && f > 0 {
      ReturnShape(w, f - 1, s.body, st1);
      var (c, st2) := Exec(w, f - 1, s.body, st1);
      var (v, st3) := AfterLoopBody(s.kind, c, st2);
      if v.Again? { LoopReturnShape(w, f - 1, s, Perform(w, s.each, st3).1); }
    }
  }

  lemma {:induction false} DoReturnShape(w: World, f: nat, s: Stmt, st: State)
    requires s.DoWhile?
    ensures Shaped(s, ExecDo(w, f, s, st).0)
    decreases f, s, 0
  {
    if f > 0 {
      ReturnShape(w, f - 1, s.body, st);
      var (c, st1) := Exec(w, f - 1, s.body, st);
      var (v, st2) := AfterLoopBody(WhileLoop, c, st1);
      if v.Again? { DoReturnShape(w, f - 1, s, Check(w, Some(s.until), st2).1); }
    }
  }

  lemma {:induction false} SwitchReturnShape(w: World, f: nat, s: Stmt, st: State)
    requires s.Switch?
    ensures Shaped(s, Exec(w, f, s, st).0)
    decreases f, s, 1
  {
    var (c, st1) := Perform(w, Some(s.subject), st);
    if c.Done? {
      var (c', start, st2) := FindCase(w, s.cases, 0, None, st1);
      if c'.Done? && start.Some? { CasesReturnShape(w, f, s, start.value, st2); }
    }
  }

  lemma {:induction false} CasesReturnShape(w: World, f: nat, s: Stmt, i: nat, st: State)
    requires s.Switch? && i <= |s.cases|
    ensures Shaped(s, ExecCases(w, f, s, i, st).0)
    decreases f, s, 0, |s.cases| - i
  {
    if i < |s.cases| {
      ReturnShape(w, f, s.cases[i].code, st);
      var (c, st1) := Exec(w, f, s.cases[i].code, st);
      var (v, st2) := AfterCase(c, st1);
      if v.Again? { CasesReturnShape(w, f, s, i + 1, st2); }
    }
  }

  lemma {:induction false} TryReturnShape(w: World, f: nat, s: Stmt, st: State)
    requires s.Try?
    ensures Shaped(s, Exec(w, f, s, st).0)
    decreases f, s, 0
  {
    var st0 := if s.fin.Some? then Log(st, Entered(s.id)) else st;
    ReturnShape(w, f, s.body, st0);
    var (c, st1) := Exec(w, f, s.body, st0);
    var caught := c.Raise? && c.err.sig.Thrown? && !c.err.wrapped;
    var i := if caught then FirstMatch(w, s.catches, c.err.sig.exn) else |s.catches|;
    if i < |s.catches| { ReturnShape(w, f, s.catches[i].body, st1); }
    var st2 := if i < |s.catches| then Exec(w, f, s.catches[i].body, st1).1 else st1;
    if s.fin.Some? { ReturnShape(w, f, s.fin.value, Log(st2, Finally(s.id))); }
  }

  /** No variable outside `xs` passes a finally block without being copied: none is returned from a
      loop in a catch block, or from the body in a function that returns by reference. */
  ghost predicate Guarded(s: Stmt, byRef: bool, xs: set<nat>)
    decreases s
  {
    match s
    case Seq(a, b) => Guarded(a, byRef, xs) && Guarded(b, byRef, xs)
    case If(_, a, b) => Guarded(a, byRef, xs) && Guarded(b, byRef, xs)
    case Loop(_, _, _, _, body) => Guarded(body, byRef, xs)
    case DoWhile(body, _) => Guarded(body, byRef, xs)
    case Switch(_, cases) => forall i :: 0 <= i < |cases| ==> Guarded(cases[i].code, byRef, xs)
    case Try(_, body, catches, fin) =>
      && Guarded(body, byRef, xs)
      && (forall i :: 0 <= i < |catches| ==> Guarded(catches[i].body, byRef, xs))
      && (fin.Some? ==>
            && Guarded(fin.value, byRef, xs)
            && (byRef ==> !HasReturn(body, xs))
            && forall i :: 0 <= i < |catches| ==> !LoopedReturn(catches[i].body, xs))
    case _ => true
  }

  /** Nothing in the program makes a reference to a variable in `xs` or changes its value in place. */
  ghost predicate SparesAll(w: World, xs: set<nat>) {
    && (forall a, cells, wr :: wr in w.act(a, cells).1 ==> Spares(wr, xs))
    && (forall t, cells, wr :: wr in w.test(t, cells).1 ==> Spares(wr, xs))
    && forall fn, x :: x in w.shared(fn) ==> x !in xs
  }

  ghost predicate StaysPrivate(m: Memory, n: Memory, xs: set<nat>) {
    AllPrivate(m, xs) ==> AllPrivate(n, xs) && KeepsPrivate(m, n, xs)
  }

  lemma SparingWorld(w: World, xs: set<nat>)
    requires SparesAll(w, xs)
    ensures Respects(w, (m, n) => StaysPrivate(m, n, xs))
  {
    forall m, a ensures StaysPrivate(m, ApplyAll(m, w.act(a, View(m)).1), xs) {
      if InHeap(m) { ApplyAllKeepsPrivate(m, w.act(a, View(m)).1, xs); }
    }
    forall m, t ensures StaysPrivate(m, ApplyAll(m, w.test(t, View(m)).1), xs) {
      if InHeap(m) { ApplyAllKeepsPrivate(m, w.test(t, View(m)).1, xs); }
    }
    forall m, fn, end | StaysPrivate(EnterCall(m, w.shared(fn)), end, xs)
      ensures StaysPrivate(m, LeaveCall(m, w.shared(fn), end), xs)
    {
      if AllPrivate(m, xs) {
        EnterKeepsPrivate(m, w.shared(fn), xs);
        CallKeepsPrivate(m, w.shared(fn), end, xs);
      }
    }
  }

  lemma RunStaysPrivate(w: World, f: nat, s: Stmt, st: State, xs: set<nat>)
    requires SparesAll(w, xs) && AllPrivate(st.mem, xs)
    ensures var m := Exec(w, f, s, st).1.mem; AllPrivate(m, xs) && KeepsPrivate(st.mem, m, xs)
  {
    SparingWorld(w, xs);
    ExecRelates(w, (m, n) => StaysPrivate(m, n, xs), f, s, st);
  }

  /** The returned value is a copy, or no name outside `xs` leads to it. */
  ghost predicate Safe(r: RetVal, m: Memory, xs: set<nat>) {
    r.address.None? || Private(m, xs, r.address.value)
  }

  /** Only a return statement returns an unsafe value, and unless it stands in a loop its signal is
      unwrapped; and what is returned is what it was. */
  ghost predicate Kept(s: Stmt, xs: set<nat>, r: (Completion, State)) {
    Returns(r.0) ==>
      && Delivered(r.0.err.sig.ret, r.1) == r.0.err.sig.ret.was
      && (!Safe(r.0.err.sig.ret, r.1.mem, xs) ==> HasReturn(s, xs) && (r.0.err.wrapped ==> LoopedReturn(s, xs)))
  }

  ghost predicate Calm(w: World, xs: set<nat>) {
    SparesAll(w, xs) && forall fn :: fn in w.bodies ==> Guarded(w.bodies[fn], w.byRef, xs)
  }

  /** A pending return delivers the value held at the return statement, whatever the finally blocks
      it passes write, where every variable is either copied before them or an ordinary one that
      nothing refers to or changes in place. */
  lemma {:induction false} ReturnKeepsItsValue(w: World, f: nat, s: Stmt, st: State, xs: set<nat>)
    requires Calm(w, xs) && Guarded(s, w.byRef, xs) && AllPrivate(st.mem, xs)
    ensures Kept(s, xs, Exec(w, f, s, st))
    decreases f, s
  {
    match s
    case Skip =>
    case Act(_) =>
    case Seq(a, b) =>
      ReturnKeepsItsValue(w, f, a, st, xs);
      RunStaysPrivate(w, f, a, st, xs);
      ReturnKeepsItsValue(w, f, b, Exec(w, f, a, st).1, xs);
    case If(t, a, b) =>
      StepStaysPrivate(w, Some(t), st, xs);
      ReturnKeepsItsValue(w, f, a, Check(w, Some(t), st).1, xs);
      ReturnKeepsItsValue(w, f, b, Check(w, Some(t), st).1, xs);
    case Loop(_, start, _, _, _) =>
      StepStaysPrivate(w, start, st, xs);
      LoopKeepsReturn(w, f, s, Perform(w, start, st).1, xs);
    case DoWhile(_, _) => DoKeepsReturn(w, f, s, st, xs);
    case Switch(_, _) => SwitchKeepsReturn(w, f, s, st, xs);
    case Try(_, _, _, _) => TryKeepsReturn(w, f, s, st, xs);
    case Break(_, _) =>
    case Continue(_, _) =>
    case Return(_, _) =>
    case Call(fn) =>
  }

  lemma StepStaysPrivate(w: World, a: Option<nat>, st: State, xs: set<nat>)
    requires SparesAll(w, xs) && AllPrivate(st.mem, xs)
    ensures AllPrivate(Perform(w, a, st).1.mem, xs) && AllPrivate(Check(w, a, st).1.mem, xs)
  {
    SparingWorld(w, xs);
    StepRelates(w, (m, n) => StaysPrivate(m, n, xs), a, st);
  }

  lemma {:induction false} LoopKeepsReturn(w: World, f: nat, s: Stmt, st: State, xs: set<nat>)
    requires s.Loop? && Calm(w, xs) && Guarded(s, w.byRef, xs) && AllPrivate(st.mem, xs)
    ensures Kept(s, xs, ExecLoop(w, f, s, st))
    decreases f, s, 0
  {
    var (t, st1) := Check(w, s.cond, st);
    StepStaysPrivate(w, s.cond, st, xs);
    if t == Holds(true) && f > 0 {
      ReturnKeepsItsValue(w, f - 1, s.body, st1, xs);
      RunStaysPrivate(w, f - 1, s.body, st1, xs);
      var (c, st2) := Exec(w, f - 1, s.body, st1);
      var (v, st3) := AfterLoopBody(s.kind, c, st2);
      if v.Again? {
        StepStaysPrivate(w, s.each, st3, xs);
        LoopKeepsReturn(w, f - 1, s, Perform(w, s.each, st3).1, xs);
      }
    }
  }

  lemma {:induction false} DoKeepsReturn(w: World, f: nat, s: Stmt, st: State, xs: set<nat>)
    requires s.DoWhile? && Calm(w, xs) && Guarded(s, w.byRef, xs) && AllPrivate(st.mem, xs)
    ensures Kept(s, xs, ExecDo(w, f, s, st))
    decreases f, s, 0
  {
    if f > 0 {
      ReturnKeepsItsValue(w, f - 1, s.body, st, xs);
      RunStaysPrivate(w, f - 1, s.body, st, xs);
      var (c, st1) := Exec(w, f - 1, s.body, st);
      var (v, st2) := AfterLoopBody(WhileLoop, c, st1);
      if v.Again? {
        StepStaysPrivate(w, Some(s.until), st2, xs);
        DoKeepsReturn(w, f - 1, s, Check(w, Some(s.until), st2).1, xs);
      }
    }
  }

  lemma {:induction false} SwitchKeepsReturn(w: World, f: nat, s: Stmt, st: State, xs: set<nat>)
    requires s.Switch? && Calm(w, xs) && Guarded(s, w.byRef, xs) && AllPrivate(st.mem, xs)
    ensures Kept(s, xs, Exec(w, f, s, st))
    decreases f, s, 1
  {
    var (c, st1) := Perform(w, Some(s.subject), st);
    StepStaysPrivate(w, Some(s.subject), st, xs);
    if c.Done? {
      var (c', start, st2) := FindCase(w, s.cases, 0, None, st1);
      SparingWorld(w, xs);
      FindCaseRelates(w, (m, n) => StaysPrivate(m, n, xs), s.cases, 0, None, st1);
      if c'.Done? && start.Some? {
        CasesKeepReturn(w, f, s, start.value, st2, xs);
      }
    }
  }

  lemma {:induction false} CasesKeepReturn(w: World, f: nat, s: Stmt, i: nat, st: State, xs: set<nat>)
    requires s.Switch? && i <= |s.cases| && Calm(w, xs) && Guarded(s, w.byRef, xs) && AllPrivate(st.mem, xs)
    ensures Kept(s, xs, ExecCases(w, f, s, i, st))
    decreases f, s, 0, |s.cases| - i
  {
    if i < |s.cases| {
      ReturnKeepsItsValue(w, f, s.cases[i].code, st, xs);
      RunStaysPrivate(w, f, s.cases[i].code, st, xs);
      var (c, st1) := Exec(w, f, s.cases[i].code, st);
      var (v, st2) := AfterCase(c, st1);
      if v.Again? { CasesKeepReturn(w, f, s, i + 1, st2, xs); }
    }
  }

  /** The finally block behind a body or catch block that ended with `p`, copied or safe. */
  lemma {:induction false} FinallyKeepsReturn(w: World, f: nat, s: Stmt, p: Completion, st1: State, xs: set<nat>)
    requires s.Try? && s.fin.Some? && Calm(w, xs) && Guarded(s, w.byRef, xs) && AllPrivate(st1.mem, xs)
    requires Returns(p) ==> Safe(p.err.sig.ret, st1.mem, xs) && Delivered(p.err.sig.ret, st1) == p.err.sig.ret.was
    ensures var (q, st2) := Exec(w, f, s.fin.value, Log(st1, Finally(s.id)));
            Kept(s, xs, (q, st2)) && Kept(s, xs, (p, st2))
    decreases f, s, 0
  {
    ReturnKeepsItsValue(w, f, s.fin.value, Log(st1, Finally(s.id)), xs);
    RunStaysPrivate(w, f, s.fin.value, Log(st1, Finally(s.id)), xs);
  }

  lemma SnapshotIsSafe(e: Err, st: State, xs: set<nat>)
    requires e.sig.Returning? && Delivered(e.sig.ret, st) == e.sig.ret.was
    ensures var r := Snapshot(e, st).sig.ret; Safe(r, st.mem, xs) && Delivered(r, st) == r.was
  {
  }

  lemma {:induction false} TryKeepsReturn(w: World, f: nat, s: Stmt, st: State, xs: set<nat>)
    requires s.Try? && Calm(w, xs) && Guarded(s, w.byRef, xs) && AllPrivate(st.mem, xs)
    ensures Kept(s, xs, Exec(w, f, s, st))
    decreases f, s, 2
  {
    var st0 := if s.fin.Some? then Log(st, Entered(s.id)) else st;
    ReturnKeepsItsValue(w, f, s.body, st0, xs);
    RunStaysPrivate(w, f, s.body, st0, xs);
    var (c, st1) := Exec(w, f, s.body, st0);
    if c.Raise? && c.err.sig.Thrown? && !c.err.wrapped {
      CatchKeepsReturn(w, f, s, st, c, st1, xs);
    } else if s.fin.Some? {
      var p := if Returns(c) && !w.byRef then Raise(Snapshot(c.err, st1)) else c;
      if Returns(c) && !w.byRef { SnapshotIsSafe(c.err, st1, xs); }
      FinallyKeepsReturn(w, f, s, p, st1, xs);
      var (q, st2) := Exec(w, f, s.fin.value, Log(st1, Finally(s.id)));
      var (r, st') := Exec(w, f, s, st);
      assert Returns(r) ==> st' == st2 && (r == q || r == p);
    }
  }

  lemma {:induction false} CatchKeepsReturn(w: World, f: nat, s: Stmt, st: State, c: Completion, st1: State,
      xs: set<nat>)
    requires s.Try? && Calm(w, xs) && Guarded(s, w.byRef, xs) && AllPrivate(st1.mem, xs)
    requires (c, st1) == Exec(w, f, s.body, if s.fin.Some? then Log(st, Entered(s.id)) else st)
    requires c.Raise? && c.err.sig.Thrown? && !c.err.wrapped
    ensures Kept(s, xs, Exec(w, f, s, st))
    decreases f, s, 1
  {
    var i := FirstMatch(w, s.catches, c.err.sig.exn);
    if i < |s.catches| {
      ReturnKeepsItsValue(w, f, s.catches[i].body, st1, xs);
      RunStaysPrivate(w, f, s.catches[i].body, st1, xs);
    }
    var (p, st2) := if i < |s.catches| then Exec(w, f, s.catches[i].body, st1) else (c, st1);
    if s.fin.Some? {
      var p' := if Returns(p) && !p.err.wrapped then Raise(Snapshot(p.err, st2)) else p;
      if Returns(p) && !p.err.wrapped { SnapshotIsSafe(p.err, st2, xs); }
      FinallyKeepsReturn(w, f, s, p', st2, xs);
      var (q, st3) := Exec(w, f, s.fin.value, Log(st2, Finally(s.id)));
      var (r, st') := Exec(w, f, s, st);
      assert Returns(r) ==> st' == st3 && (r == q || r == p');
    }
  }

  /** Where only ordinary variables of that kind are returned, every return keeps its value: from
      loops in catch blocks, and in functions that return by reference. */
  lemma OrdinaryVariablesKeep(w: World, f: nat, s: Stmt, st: State, xs: set<nat>)
    requires SparesAll(w, xs) && AllPrivate(st.mem, xs) && !HasReturn(s, xs)
    requires forall fn :: fn in w.bodies ==> !HasReturn(w.bodies[fn], xs)
    ensures var (c, st') := Exec(w, f, s, st); Returns(c) ==> Delivered(c.err.sig.ret, st') == c.err.sig.ret.was
  {
    forall fn | fn in w.bodies ensures Guarded(w.bodies[fn], w.byRef, xs) {
      NoReturnIsGuarded(w.bodies[fn], w.byRef, xs);
    }
    NoReturnIsGuarded(s, w.byRef, xs);
    ReturnKeepsItsValue(w, f, s, st, xs);
  }

  lemma {:induction false} NoReturnIsGuarded(s: Stmt, byRef: bool, xs: set<nat>)
    requires !HasReturn(s, xs)
    ensures Guarded(s, byRef, xs) && !LoopedReturn(s, xs)
    decreases s
  {
    match s
    case Seq(a, b) => NoReturnIsGuarded(a, byRef, xs); NoReturnIsGuarded(b, byRef, xs);
    case If(_, a, b) => NoReturnIsGuarded(a, byRef, xs); NoReturnIsGuarded(b, byRef, xs);
    case Loop(_, _, _, _, body) => NoReturnIsGuarded(body, byRef, xs);
    case DoWhile(body, _) => NoReturnIsGuarded(body, byRef, xs);
    case Switch(_, cases) =>
      forall i | 0 <= i < |cases| ensures Guarded(cases[i].code, byRef, xs) && !LoopedReturn(cases[i].code, xs) {
        NoReturnIsGuarded(cases[i].code, byRef, xs);
      }
    case Try(_, body, catches, fin) =>
      NoReturnIsGuarded(body, byRef, xs);
      forall i | 0 <= i < |catches| ensures Guarded(catches[i].body, byRef, xs) && !LoopedReturn(catches[i].body, xs) {
        NoReturnIsGuarded(catches[i].body, byRef, xs);
      }
      if fin.Some? { NoReturnIsGuarded(fin.value, byRef, xs); }
    case _ =>
  }

  // ----- what an undetached return sees -----

  /** The value pending at `a`, and all that was written to it since. */
  lemma FinallyWrites(w: World, f: nat, fin: Stmt, id: nat, st1: State, a: nat)
    requires a < |st1.mem.heap|
    ensures var st2 := Exec(w, f, fin, Log(st1, Finally(id))).1;
            && st1.mem.hits <= st2.mem.hits
            && At(st2.mem, a) == LastHit(st2.mem.hits[|st1.mem.hits|..], a, At(st1.mem, a))
  {
    RunGrows(w, f, fin, Log(st1, Finally(id)));
  }

  /** A return that passes a finally block without being copied, from whatever try statement,
      delivers the last value the block wrote to the place where the returned value lies, through a
      reference or in place; assigning to an ordinary variable writes elsewhere. */
  lemma UndetachedReturnSeesLastWrite(w: World, f: nat, id: nat, body: Stmt, catches: seq<CatchClause>, fin: Stmt,
      st: State)
    ensures var st0 := Log(st, Entered(id));
            var c := Exec(w, f, body, st0).0;
            var (p, st1) := Exec(w, f, Try(id, body, catches, None), st0);
            var (q, st2) := Exec(w, f, fin, Log(st1, Finally(id)));
            var (r, st') := Exec(w, f, Try(id, body, catches, Some(fin)), st);
            Returns(p) && Detached(w, c, p, st1) == p && q.Done? && Lies(p, st1) ==>
              && r == p && st' == st2 && st1.mem.hits <= st2.mem.hits
              && Delivered(p.err.sig.ret, st2)
                 == LastHit(st2.mem.hits[|st1.mem.hits|..], p.err.sig.ret.address.value, Delivered(p.err.sig.ret, st1))
  {
    FinallyDecides(w, f, id, body, catches, fin, st);
    var (p, st1) := Exec(w, f, Try(id, body, catches, None), Log(st, Entered(id)));
    if Returns(p) && Lies(p, st1) {
      FinallyWrites(w, f, fin, id, st1, p.err.sig.ret.address.value);
    }
  }

  /** The returned value lies in memory, uncopied. */
  predicate Lies(p: Completion, st: State) {
    Returns(p) && p.err.sig.ret.address.Some? && p.err.sig.ret.address.value < |st.mem.heap|
  }

  /** Actions and tests only assign, and calls share nothing. */
  ghost predicate OnlyAssigns(w: World) {
    && (forall a, cells, wr :: wr in w.act(a, cells).1 ==> wr.Assign?)
    && (forall t, cells, wr :: wr in w.test(t, cells).1 ==> wr.Assign?)
    && forall fn :: w.shared(fn) == []
  }

  lemma AssigningWorld(w: World)
    requires OnlyAssigns(w)
    ensures Respects(w, (m, n) => KeepsReferences(m, n))
  {
    forall m, n, o | KeepsReferences(m, n) && KeepsReferences(n, o) ensures KeepsReferences(m, o) {
      KeepsReferencesTransitive(m, n, o);
    }
    forall m, a ensures KeepsReferences(m, ApplyAll(m, w.act(a, View(m)).1)) {
      AssignmentsKeepReferences(m, w.act(a, View(m)).1);
    }
    forall m, t ensures KeepsReferences(m, ApplyAll(m, w.test(t, View(m)).1)) {
      AssignmentsKeepReferences(m, w.test(t, View(m)).1);
    }
    forall m, fn, end | KeepsReferences(EnterCall(m, w.shared(fn)), end)
      ensures KeepsReferences(m, LeaveCall(m, w.shared(fn), end)) {
      UnsharedCallKeepsReferences(m, end);
    }
  }

  lemma UnsharedCallKeepsReferences(m: Memory, end: Memory)
    requires KeepsReferences(EnterCall(m, []), end)
    ensures KeepsReferences(m, LeaveCall(m, [], end))
  {
    assert MakeReferences(m, []) == m;
    forall a: nat | a < |m.heap| && !Exposed(m, a) ensures end.heap[a] == m.heap[a] {
      assert !Exposed(EnterCall(m, []), a);
    }
  }

  /** Where the finally block only assigns, an undetached return delivers something else than it
      held if and only if some variable is a reference to the returned value and the block changed
      that variable. */
  lemma UndetachedReturnSeesReference(w: World, f: nat, id: nat, body: Stmt, catches: seq<CatchClause>, fin: Stmt,
      st: State)
    requires OnlyAssigns(w)
    ensures var st0 := Log(st, Entered(id));
            var c := Exec(w, f, body, st0).0;
            var (p, st1) := Exec(w, f, Try(id, body, catches, None), st0);
            var (q, st2) := Exec(w, f, fin, Log(st1, Finally(id)));
            var (r, st') := Exec(w, f, Try(id, body, catches, Some(fin)), st);
            Detached(w, c, p, st1) == p && q.Done? && Lies(p, st1) ==>
              && r == p && st' == st2
              && (Delivered(p.err.sig.ret, st2) != Delivered(p.err.sig.ret, st1)
                  <==> ReferenceChanged(p.err.sig.ret.address.value, st1.mem, st2.mem))
  {
    FinallyDecides(w, f, id, body, catches, fin, st);
    var (p, st1) := Exec(w, f, Try(id, body, catches, None), Log(st, Entered(id)));
    if Lies(p, st1) {
      FinallyChanges(w, f, fin, id, st1, p.err.sig.ret.address.value);
    }
  }

  lemma FinallyChanges(w: World, f: nat, fin: Stmt, id: nat, st1: State, a: nat)
    requires OnlyAssigns(w) && a < |st1.mem.heap|
    ensures var st2 := Exec(w, f, fin, Log(st1, Finally(id))).1;
            At(st2.mem, a) != At(st1.mem, a) <==> ReferenceChanged(a, st1.mem, st2.mem)
  {
    AssigningWorld(w);
    ExecRelates(w, (m, n) => KeepsReferences(m, n), f, fin, Log(st1, Finally(id)));
    ChangedThroughReference(a, st1.mem, Exec(w, f, fin, Log(st1, Finally(id))).1.mem);
  }

  /** A variable that is a reference to the value at `a` has another value in the end. */
  ghost predicate ReferenceChanged(a: nat, m: Memory, n: Memory) {
    exists y :: y in m.slots && m.slots[y] == Reference(a) && Lookup(n, y) != Lookup(m, y)
  }

  lemma ChangedThroughReference(a: nat, m: Memory, n: Memory)
    requires KeepsReferences(m, n) && a < |m.heap|
    ensures At(n, a) != At(m, a) <==> ReferenceChanged(a, m, n)
  {
    if At(n, a) != At(m, a) {
      var y :| y in m.slots && m.slots[y] == Reference(a);
      assert n.slots[y] == m.slots[y];
    }
  }

  // ----- two places where a return stays undetached -----

  /** `try { throw } catch (E) { while (c) { return $x; } } finally { F }`: the loop wraps the return,
      so it is not copied, and what F writes to the value of `$x` shows. */
  lemma LoopedReturnInCatchSeesFinally(w: World, f: nat, id: nat, a: nat, cls: nat, c: nat, x: nat, fin: Stmt,
      st: State)
    requires f > 0 && InHeap(st.mem)
    requires var (thrown, st1) := Exec(w, f, Act(a), Log(st, Entered(id)));
             && thrown.Raise? && thrown.err.sig.Thrown? && !thrown.err.wrapped && w.catches(cls, thrown.err.sig.exn)
             && Check(w, Some(c), st1).0 == Holds(true) && x in Check(w, Some(c), st1).1.mem.slots
    ensures var loop := Loop(WhileLoop, None, Some(c), None, Return(Some(x), 0));
            var st1 := Check(w, Some(c), Exec(w, f, Act(a), Log(st, Entered(id))).1).1;
            var (q, st2) := Exec(w, f, fin, Log(st1, Finally(id)));
            var (r, st') := Exec(w, f, Try(id, Act(a), [CatchClause(cls, loop)], Some(fin)), st);
            q.Done? ==>
              && Returns(r) && st' == st2 && r.err.sig.ret.was == Lookup(st1.mem, x) && st1.mem.hits <= st2.mem.hits
              && Delivered(r.err.sig.ret, st')
                 == LastHit(st2.mem.hits[|st1.mem.hits|..], st1.mem.slots[x].address, Lookup(st1.mem, x))
  {
    var loop := Loop(WhileLoop, None, Some(c), None, Return(Some(x), 0));
    var cs := [CatchClause(cls, loop)];
    var st0 := Log(st, Entered(id));
    var (thrown, st1) := Exec(w, f, Act(a), st0);
    var st2 := Check(w, Some(c), st1).1;
    LoopedReturn1(w, f, c, x, loop, st1);
    CaughtBy(w, f, id, Act(a), cs, thrown, st0, st1);
    RunGrows(w, f, Act(a), st0);
    RunGrows(w, f, loop, st1);
    UndetachedReturnSeesLastWrite(w, f, id, Act(a), cs, fin, st);
  }

  lemma LoopedReturn1(w: World, f: nat, c: nat, x: nat, loop: Stmt, st1: State)
    requires f > 0 && loop == Loop(WhileLoop, None, Some(c), None, Return(Some(x), 0))
    requires Check(w, Some(c), st1).0 == Holds(true)
    ensures var st2 := Check(w, Some(c), st1).1;
            Exec(w, f, loop, st1) == (Raise(Err(Returning(ReturnValue(w, Some(x), 0, st2)), true)), st2)
  {
    var st2 := Check(w, Some(c), st1).1;
    assert Exec(w, f, loop, st1) == ExecLoop(w, f, loop, st1);
    assert Exec(w, f - 1, Return(Some(x), 0), st2) ==
      (Raise(Err(Returning(ReturnValue(w, Some(x), 0, st2)), false)), st2);
  }

  lemma CaughtBy(w: World, f: nat, id: nat, body: Stmt, cs: seq<CatchClause>, thrown: Completion, st0: State,
      st1: State)
    requires |cs| == 1 && Exec(w, f, body, st0) == (thrown, st1)
    requires thrown.Raise? && thrown.err.sig.Thrown? && !thrown.err.wrapped && w.catches(cs[0].cls, thrown.err.sig.exn)
    ensures Exec(w, f, Try(id, body, cs, None), st0) == Exec(w, f, cs[0].body, st1)
  {
    assert FirstMatch(w, cs, thrown.err.sig.exn) == 0;
  }

  /** In a function that returns by reference the returned value stays where it lies. */
  lemma ByRefReturnSeesFinally(w: World, f: nat, id: nat, x: nat, fin: Stmt, st: State)
    requires w.byRef && InHeap(st.mem) && x in st.mem.slots
    ensures var st1 := Log(st, Entered(id));
            var (q, st2) := Exec(w, f, fin, Log(st1, Finally(id)));
            var (r, st') := Exec(w, f, Try(id, Return(Some(x), 0), [], Some(fin)), st);
            q.Done? ==>
              && Returns(r) && st' == st2 && st1.mem.hits <= st2.mem.hits
              && Delivered(r.err.sig.ret, st')
                 == LastHit(st2.mem.hits[|st1.mem.hits|..], st.mem.slots[x].address, Lookup(st.mem, x))
  {
    UndetachedReturnSeesLastWrite(w, f, id, Return(Some(x), 0), [], fin, st);
  }
}
