/** Statements as the language describes them: a break or continue carries the number of loops and
    switches it still has to leave, and nothing is kept in the program. Where levels are sane the
    interpreter, which keeps them in the syntax nodes, computes exactly this. */
module StatementReference {
  import opened Options
  import opened Variables
  import opened Statements
  import opened StatementLevels

  datatype Scene = Scene(mem: Memory, trace: seq<Event>)

  datatype Out = Normal | NoFuel | Breaking(k: nat) | Continuing(k: nat) | Failing(err: Err)

  // ----- steps -----

  /** What a fault of an expression raises; only fatal errors are located from the start. */
  function Signalled(f: Fault): Err {
    match f
    case Throws(e) => Err(Thrown(e), false)
    case Exits => Err(Exiting, false)
    case Closes => Err(Closing, false)
    case Fails(code) => Err(Fatal(code), true)
  }

  function Do(w: World, a: nat, st: Scene): (Out, Scene) {
    var (fault, writes) := w.act(a, View(st.mem));
    (if fault.None? then Normal else Failing(Signalled(fault.value)), st.(mem := ApplyAll(st.mem, writes)))
  }

  function DoOption(w: World, a: Option<nat>, st: Scene): (Out, Scene) {
    if a.None? then (Normal, st) else Do(w, a.value, st)
  }

  function Ask(w: World, t: nat, st: Scene): (TestResult, Scene) {
    var (r, writes) := w.test(t, View(st.mem));
    (r, st.(mem := ApplyAll(st.mem, writes)))
  }

  function AskOption(w: World, t: Option<nat>, st: Scene): (TestResult, Scene) {
    if t.None? then (Holds(true), st) else Ask(w, t.value, st)
  }

  // ----- loops and switches -----

  /** An error that leaves a loop is located, except an exception and, in foreach, a closed generator. */
  function Located(kind: LoopKind, e: Err): Err {
    if !e.wrapped && (e.sig.Thrown? || (kind.ForeachLoop? && e.sig.Closing?)) then e else Err(e.sig, true)
  }

  /** The body ended in a way that lets the loop go on. */
  predicate GoesOn(o: Out) {
    o == Normal || o == Continuing(1)
  }

  /** How a loop ends when its body does not let it go on. */
  function Ended(kind: LoopKind, o: Out): Out {
    match o
    case Breaking(k) => if k <= 1 then Normal else Breaking(k - 1)
    case Continuing(k) => if k <= 1 then Normal else Continuing(k - 1)
    case Failing(e) => Failing(Located(kind, e))
    case other => other
  }

  /** In a switch, `continue` is `break`. */
  function Switched(o: Out): Out {
    match o
    case Breaking(k) => if k <= 1 then Normal else Breaking(k - 1)
    case Continuing(k) => if k <= 1 then Normal else Continuing(k - 1)
    case other => other
  }

  /** The first case whose test holds or fails, with the state behind its test; defaults have none. */
  datatype Search = Match(i: nat, failed: Option<Fault>) | Miss

  function FirstMatching(w: World, cases: seq<CaseBlock>, i: nat, st: Scene): (r: (Search, Scene))
    requires i <= |cases|
    ensures r.0.Match? ==> i <= r.0.i < |cases|
    decreases |cases| - i
  {
    if i == |cases| then (Miss, st)
    else if cases[i].test.None? then FirstMatching(w, cases, i + 1, st)
    else
      var (t, st1) := Ask(w, cases[i].test.value, st);
      match t
      case Faults(f) => (Match(i, Some(f)), st1)
      case Holds(b) => if b then (Match(i, None), st1) else FirstMatching(w, cases, i + 1, st1)
  }

  function LastDefault(cases: seq<CaseBlock>): (r: Option<nat>)
    ensures r.Some? ==> r.value < |cases| && cases[r.value].test.None?
    ensures forall i :: 0 <= i < |cases| && cases[i].test.None? ==> r.Some? && i <= r.value
  {
    if cases == [] then None
    else if cases[|cases| - 1].test.None? then Some(|cases| - 1)
    else LastDefault(cases[..|cases| - 1])
  }

  // ----- returned values -----

  /** The value leaves its variable. */
  function Copied(o: Out, st: Scene): Out {
    if o.Failing? && o.err.sig.Returning? && o.err.sig.ret.address.Some? then
      var r := o.err.sig.ret;
      Failing(Err(Returning(RetVal(None, At(st.mem, r.address.value), r.was, r.since)), o.err.wrapped))
    else o
  }

  // ----- execution -----

  function Run(w: World, fuel: nat, s: Stmt, st: Scene): (Out, Scene)
    decreases fuel, s
  {
    match s
    case Skip => (Normal, st)
    case Act(a) => Do(w, a, st)
    case Seq(a, b) =>
      var (o, st1) := Run(w, fuel, a, st);
      if o.Normal? then Run(w, fuel, b, st1) else (o, st1)
    case If(t, yes, no) =>
      var (r, st1) := Ask(w, t, st);
      if r.Faults? then (Failing(Signalled(r.f)), st1)
      else if r.b then Run(w, fuel, yes, st1)
      else Run(w, fuel, no, st1)
    case Loop(_, start, _, _, _) =>
      var (o, st1) := DoOption(w, start, st);
      if o.Normal? then RunLoop(w, fuel, s, st1) else (o, st1)
    case DoWhile(_, _) => RunDo(w, fuel, s, st)
    case Switch(subject, cases) =>
      var (o, st1) := Do(w, subject, st);
      if !o.Normal? then (o, st1)
      else
        var (hit, st2) := FirstMatching(w, cases, 0, st1);
        if hit.Match? && hit.failed.Some? then (Failing(Signalled(hit.failed.value)), st2)
        else if hit.Match? then RunCases(w, fuel, s, hit.i, st2)
        else if LastDefault(cases).Some? then RunCases(w, fuel, s, LastDefault(cases).value, st2)
        else (Normal, st2)
    case Try(_, _, _, _) => RunTry(w, fuel, s, st)
    case Break(_, k) => (Breaking(k), st)
    case Continue(_, k) => (Continuing(k), st)
    case Return(None, v) =>
      var z := w.value(v, View(st.mem));
      (Failing(Err(Returning(RetVal(None, z, z, |st.mem.hits|)), false)), st)
    case Return(Some(x), _) =>
      var (a, z) := (if x in st.mem.slots then Some(st.mem.slots[x].address) else None, Lookup(st.mem, x));
      (Failing(Err(Returning(RetVal(a, z, z, |st.mem.hits|)), false)), st)
    case Call(fn) =>
      if fn !in w.bodies then (Failing(Err(Fatal(0), true)), st)
      else if fuel == 0 then (NoFuel, st)
      else
        var (o, st1) := Run(w, fuel - 1, w.bodies[fn], Scene(EnterCall(st.mem, w.shared(fn)), st.trace));
        (if o.Failing? && o.err.sig.Returning? then Normal else o,
         Scene(LeaveCall(st.mem, w.shared(fn), st1.mem), st1.trace))
  }

  function RunLoop(w: World, fuel: nat, s: Stmt, st: Scene): (Out, Scene)
    requires s.Loop?
    decreases fuel, s, 0
  {
    var (t, st1) := AskOption(w, s.cond, st);
    if t.Faults? then (Failing(Signalled(t.f)), st1)
    else if !t.b then (Normal, st1)
    else if fuel == 0 then (NoFuel, st1)
    else
      var (o, st2) := Run(w, fuel - 1, s.body, st1);
      if !GoesOn(o) then (Ended(s.kind, o), st2)
      else
        var (each, st3) := DoOption(w, s.each, st2);
        if each.Normal? || s.kind.ForeachLoop? then RunLoop(w, fuel - 1, s, st3) else (each, st3)
  }

  function RunDo(w: World, fuel: nat, s: Stmt, st: Scene): (Out, Scene)
    requires s.DoWhile?
    decreases fuel, s, 0
  {
    if fuel == 0 then (NoFuel, st)
    else
      var (o, st1) := Run(w, fuel - 1, s.body, st);
      if !GoesOn(o) then (Ended(WhileLoop, o), st1)
      else
        var (t, st2) := Ask(w, s.until, st1);
        if t.Faults? then (Failing(Signalled(t.f)), st2)
        else if t.b then RunDo(w, fuel - 1, s, st2)
        else (Normal, st2)
  }

  /** The case blocks from `i` on, one behind the other. */
  function RunCases(w: World, fuel: nat, s: Stmt, i: nat, st: Scene): (Out, Scene)
    requires s.Switch? && i <= |s.cases|
    decreases fuel, s, |s.cases| - i
  {
    if i == |s.cases| then (Normal, st)
    else
      var (o, st1) := Run(w, fuel, s.cases[i].code, st);
      if o.Normal? then RunCases(w, fuel, s, i + 1, st1) else (Switched(o), st1)
  }

  predicate IsThrown(o: Out) {
    o.Failing? && o.err.sig.Thrown? && !o.err.wrapped
  }

  predicate IsExit(o: Out) {
    o.Failing? && o.err.sig.Exiting? && !o.err.wrapped
  }

  /** The body; a catch clause for what it throws; the finally block for everything but an exit. */
  function RunTry(w: World, fuel: nat, s: Stmt, st: Scene): (Out, Scene)
    requires s.Try?
    decreases fuel, s, 0
  {
    var (o, st1) := Run(w, fuel, s.body, if s.fin.Some? then st.(trace := st.trace + [Entered(s.id)]) else st);
    var i := if IsThrown(o) then FirstMatch(w, s.catches, o.err.sig.exn) else |s.catches|;
    var (p, st2) := if i < |s.catches| then Run(w, fuel, s.catches[i].body, st1) else (o, st1);
    if s.fin.None? || p.NoFuel? then (p, st2)
    else if IsExit(o) then (p, st2.(trace := st2.trace + [SkippedByExit(s.id)]))
    else
      var (q, st3) := Run(w, fuel, s.fin.value, st2.(trace := st2.trace + [Finally(s.id)]));
      (Behind(w, o, i < |s.catches|, p, st2, q), st3)
  }

  /** What a try statement ends in, when its finally block ends in `q` behind `p`, which came of the
      body's `o` or, if it was `caught`, of a catch clause. */
  function Behind(w: World, o: Out, caught: bool, p: Out, st: Scene, q: Out): Out {
    var closing := o.Failing? && o.err.sig.Closing?;
    if q.NoFuel? then q
    else if closing && (q.Normal? || (q.Failing? && q.err.sig.Closing?)) then p
    else if !q.Normal? then q
    else if caught then (if p.Failing? && !p.err.wrapped then Copied(p, st) else p)
    else if w.byRef then p
    else Copied(p, st)
  }

  // ----- the interpreter computes it -----

  function Seen(st: State): Scene {
    Scene(st.mem, st.trace)
  }

  /** A completion with the level that its node holds. */
  function Meant(c: Completion, st: State): Out {
    match c
    case Done => Normal
    case OutOfFuel => NoFuel
    case Raise(e) =>
      match e.sig
      case BreakTo(n) => Breaking(Level(st, n))
      case ContinueTo(n) => Continuing(Level(st, n))
      case other => Failing(e)
  }

  ghost predicate Same(r: (Completion, State), x: (Out, Scene)) {
    x == (Meant(r.0, r.1), Seen(r.1))
  }

  lemma StepsAgree(w: World, a: Option<nat>, st: State)
    ensures Same(Perform(w, a, st), DoOption(w, a, Seen(st)))
    ensures AskOption(w, a, Seen(st)) == (Check(w, a, st).0, Seen(Check(w, a, st).1))
    ensures var c := Perform(w, a, st).0; c.Done? || (c.Raise? && !Jumps(c))
  {
    if a.Some? {
      var fault := w.act(a.value, View(st.mem)).0;
      if fault.Some? { FaultIsNoJump(fault.value, st); }
    }
  }

  lemma FaultIsNoJump(f: Fault, st: State)
    ensures !Jumps(Raise(Raised(f))) && Raised(f) == Signalled(f)
    ensures Meant(Raise(Raised(f)), st) == Failing(Signalled(f))
  {
    match f case Throws(_) => case Exits => case Closes => case Fails(_) =>
  }

  /** From the same cases the search with its remembered default comes to the first hit, or else to
      the last default. */
  lemma {:induction false} SearchAgrees(w: World, cases: seq<CaseBlock>, i: nat, default: Option<nat>, st: State)
    requires i <= |cases| && default == LastDefault(cases[..i])
    ensures var (c, start, st1) := FindCase(w, cases, i, default, st);
            var (hit, st2) := FirstMatching(w, cases, i, Seen(st));
            && st2 == Seen(st1)
            && match hit
               case Miss => c.Done? && start == LastDefault(cases)
               case Match(j, None) => c.Done? && start == Some(j)
               case Match(_, Some(f)) => c == Raise(Raised(f))
    decreases |cases| - i
  {
    if i == |cases| {
      assert cases[..i] == cases;
    } else {
      assert cases[..i + 1][..i] == cases[..i] && cases[..i + 1][i] == cases[i];
      if cases[i].test.None? {
        SearchAgrees(w, cases, i + 1, Some(i), st);
      } else {
        StepsAgree(w, cases[i].test, st);
        if Check(w, cases[i].test, st).0 == Holds(false) {
          SearchAgrees(w, cases, i + 1, default, Check(w, cases[i].test, st).1);
        }
      }
    }
  }

  /** A jump that a body or case block ends in has a level of at least one. */
  lemma JumpHasLevel(w: World, lim: Limits, f: nat, s: Stmt, st: State)
    requires Sane(w, lim) && NoReentry(lim, s) && OnesIn(lim, s)
    ensures var (c, st') := Exec(w, f, s, st); Jumps(c) ==> 1 <= Level(st', c.err.sig.node) && !c.err.wrapped
  {
    EscapingLevel(w, lim, f, s, st);
  }

  lemma LoopBodyAgrees(kind: LoopKind, c: Completion, st: State)
    requires Jumps(c) ==> 1 <= Level(st, c.err.sig.node) && !c.err.wrapped
    ensures var (v, st1) := AfterLoopBody(kind, c, st);
            && Seen(st1) == Seen(st)
            && match v
               case Again => GoesOn(Meant(c, st))
               case Leave(r) => !GoesOn(Meant(c, st)) && Meant(r, st1) == Ended(kind, Meant(c, st))
  {
  }

  lemma CaseAgrees(c: Completion, st: State)
    requires Jumps(c) ==> 1 <= Level(st, c.err.sig.node) && !c.err.wrapped
    ensures var (v, st1) := AfterCase(c, st);
            && Seen(st1) == Seen(st)
            && match v
               case Again => Meant(c, st).Normal?
               case Leave(r) => !Meant(c, st).Normal? && Meant(r, st1) == Switched(Meant(c, st))
  {
  }

  /** In a program whose levels are sane, running a statement with levels kept in the nodes gives
      what running it with levels carried along gives: the same completion, with the level that the
      node holds, the same variables and the same try statements entered and left. */
  lemma {:induction false} NodesCarryLevels(w: World, lim: Limits, f: nat, s: Stmt, st: State)
    requires Sane(w, lim) && NoReentry(lim, s) && OnesIn(lim, s)
    ensures Same(Exec(w, f, s, st), Run(w, f, s, Seen(st)))
    decreases f, s
  {
    match s
    case Skip =>
    case Act(a) => StepsAgree(w, Some(a), st);
    case Seq(a, b) =>
      NodesCarryLevels(w, lim, f, a, st);
      NodesCarryLevels(w, lim, f, b, Exec(w, f, a, st).1);
    case If(t, yes, no) =>
      StepsAgree(w, Some(t), st);
      NodesCarryLevels(w, lim, f, yes, Check(w, Some(t), st).1);
      NodesCarryLevels(w, lim, f, no, Check(w, Some(t), st).1);
    case Loop(_, start, _, _, _) =>
      StepsAgree(w, start, st);
      LoopCarries(w, lim, f, s, Perform(w, start, st).1);
    case DoWhile(_, _) => DoCarries(w, lim, f, s, st);
    case Switch(subject, cases) => SwitchCarries(w, lim, f, s, st);
    case Try(_, _, _, _) => TryCarries(w, lim, f, s, st);
    case Break(_, _) =>
    case Continue(_, _) =>
    case Return(_, _) =>
    case Call(fn) =>
      if fn in w.bodies && f > 0 {
        NodesCarryLevels(w, lim, f - 1, w.bodies[fn], Enter(w, fn, st));
        CallCarries(w, lim, f, fn, st);
      }
  }

  /** A function body never ends in a jump, so a call's completion does not depend on levels. */
  lemma CallCarries(w: World, lim: Limits, f: nat, fn: nat, st: State)
    requires Sane(w, lim) && fn in w.bodies && f > 0
    requires Same(Exec(w, f - 1, w.bodies[fn], Enter(w, fn, st)), Run(w, f - 1, w.bodies[fn], Seen(Enter(w, fn, st))))
    ensures Same(Exec(w, f, Call(fn), st), Run(w, f, Call(fn), Seen(st)))
  {
    EscapingLevel(w, lim, f - 1, w.bodies[fn], Enter(w, fn, st));
    var (c, st1) := Exec(w, f - 1, w.bodies[fn], Enter(w, fn, st));
    if Jumps(c) {
      FitsBounds(w.bodies[fn], 0, c.err.sig.node, Level(st1, c.err.sig.node));
    }
  }

  lemma {:induction false} LoopCarries(w: World, lim: Limits, f: nat, s: Stmt, st: State)
    requires s.Loop? && Sane(w, lim) && NoReentry(lim, s) && OnesIn(lim, s)
    ensures Same(ExecLoop(w, f, s, st), RunLoop(w, f, s, Seen(st)))
    decreases f, s, 0
  {
    StepsAgree(w, s.cond, st);
    var (t, st1) := Check(w, s.cond, st);
    if t == Holds(true) && f > 0 {
      NodesCarryLevels(w, lim, f - 1, s.body, st1);
      JumpHasLevel(w, lim, f - 1, s.body, st1);
      var (c, st2) := Exec(w, f - 1, s.body, st1);
      LoopBodyAgrees(s.kind, c, st2);
      var (v, st3) := AfterLoopBody(s.kind, c, st2);
      if v.Again? {
        StepsAgree(w, s.each, st3);
        LoopCarries(w, lim, f - 1, s, Perform(w, s.each, st3).1);
      }
    }
  }

  lemma {:induction false} DoCarries(w: World, lim: Limits, f: nat, s: Stmt, st: State)
    requires s.DoWhile? && Sane(w, lim) && NoReentry(lim, s) && OnesIn(lim, s)
    ensures Same(ExecDo(w, f, s, st), RunDo(w, f, s, Seen(st)))
    decreases f, s, 0
  {
    if f > 0 {
      NodesCarryLevels(w, lim, f - 1, s.body, st);
      JumpHasLevel(w, lim, f - 1, s.body, st);
      var (c, st1) := Exec(w, f - 1, s.body, st);
      LoopBodyAgrees(WhileLoop, c, st1);
      var (v, st2) := AfterLoopBody(WhileLoop, c, st1);
      if v.Again? {
        StepsAgree(w, Some(s.until), st2);
        DoCarries(w, lim, f - 1, s, Check(w, Some(s.until), st2).1);
      }
    }
  }

  lemma {:induction false} SwitchCarries(w: World, lim: Limits, f: nat, s: Stmt, st: State)
    requires s.Switch? && Sane(w, lim) && NoReentry(lim, s) && OnesIn(lim, s)
    ensures Same(Exec(w, f, s, st), Run(w, f, s, Seen(st)))
    decreases f, s, 1
  {
    StepsAgree(w, Some(s.subject), st);
    var (c, st1) := Perform(w, Some(s.subject), st);
    if c.Done? {
      assert s.cases[..0] == [];
      SearchAgrees(w, s.cases, 0, None, st1);
      var (c', start, st2) := FindCase(w, s.cases, 0, None, st1);
      if c'.Done? && start.Some? { CasesCarry(w, lim, f, s, start.value, st2); }
    }
  }

  lemma {:induction false} CasesCarry(w: World, lim: Limits, f: nat, s: Stmt, i: nat, st: State)
    requires s.Switch? && i <= |s.cases| && Sane(w, lim) && NoReentry(lim, s) && OnesIn(lim, s)
    ensures Same(ExecCases(w, f, s, i, st), RunCases(w, f, s, i, Seen(st)))
    decreases f, s, 0, |s.cases| - i
  {
    if i < |s.cases| {
      NodesCarryLevels(w, lim, f, s.cases[i].code, st);
      JumpHasLevel(w, lim, f, s.cases[i].code, st);
      var (c, st1) := Exec(w, f, s.cases[i].code, st);
      CaseAgrees(c, st1);
      var (v, st2) := AfterCase(c, st1);
      if v.Again? { CasesCarry(w, lim, f, s, i + 1, st2); }
    }
  }

  /** What is pending in front of the finally block, on both sides. */
  lemma {:induction false} TryCarries(w: World, lim: Limits, f: nat, s: Stmt, st: State)
    requires s.Try? && Sane(w, lim) && NoReentry(lim, s) && OnesIn(lim, s)
    ensures Same(Exec(w, f, s, st), RunTry(w, f, s, Seen(st)))
    decreases f, s, 2
  {
    var st0 := if s.fin.Some? then Log(st, Entered(s.id)) else st;
    NodesCarryLevels(w, lim, f, s.body, st0);
    var (c, st1) := Exec(w, f, s.body, st0);
    if c.Raise? && c.err.sig.Thrown? && !c.err.wrapped {
      CaughtCarries(w, lim, f, s, st, c, st1);
    } else {
      UncaughtCarries(w, lim, f, s, st, st0, c, st1);
    }
  }

  lemma {:induction false} UncaughtCarries(w: World, lim: Limits, f: nat, s: Stmt, st: State, st0: State, c: Completion,
      st1: State)
    requires s.Try? && Sane(w, lim) && NoReentry(lim, s) && OnesIn(lim, s)
    requires st0 == (if s.fin.Some? then Log(st, Entered(s.id)) else st) && (c, st1) == Exec(w, f, s.body, st0)
    requires Same((c, st1), Run(w, f, s.body, Seen(st0)))
    requires !(c.Raise? && c.err.sig.Thrown? && !c.err.wrapped)
    ensures Same(Exec(w, f, s, st), RunTry(w, f, s, Seen(st)))
    decreases f, s, 1
  {
    if s.fin.Some? && c != Raise(Err(Exiting, false)) && !c.OutOfFuel? {
      NodesCarryLevels(w, lim, f, s.fin.value, Log(st1, Finally(s.id)));
      assert Meant(c, Exec(w, f, s.fin.value, Log(st1, Finally(s.id))).1) == Meant(c, st1) by {
        PendingIsMeant(w, lim, f, s, s.body, s.fin.value, st0, c, st1);
      }
    }
  }

  lemma {:induction false} CaughtCarries(w: World, lim: Limits, f: nat, s: Stmt, st: State, c: Completion, st1: State)
    requires s.Try? && Sane(w, lim) && NoReentry(lim, s) && OnesIn(lim, s)
    requires (c, st1) == Exec(w, f, s.body, if s.fin.Some? then Log(st, Entered(s.id)) else st)
    requires Same((c, st1), Run(w, f, s.body, Seen(if s.fin.Some? then Log(st, Entered(s.id)) else st)))
    requires c.Raise? && c.err.sig.Thrown? && !c.err.wrapped
    ensures Same(Exec(w, f, s, st), RunTry(w, f, s, Seen(st)))
    decreases f, s, 1
  {
    var i := FirstMatch(w, s.catches, c.err.sig.exn);
    if i < |s.catches| { NodesCarryLevels(w, lim, f, s.catches[i].body, st1); }
    var (p, st2) := if i < |s.catches| then Exec(w, f, s.catches[i].body, st1) else (c, st1);
    if s.fin.Some? && !p.OutOfFuel? {
      NodesCarryLevels(w, lim, f, s.fin.value, Log(st2, Finally(s.id)));
      assert Meant(p, Exec(w, f, s.fin.value, Log(st2, Finally(s.id))).1) == Meant(p, st2) by {
        if i < |s.catches| { PendingIsMeant(w, lim, f, s, s.catches[i].body, s.fin.value, st1, p, st2); }
      }
    }
  }

  /** A pending completion means the same behind the finally block. */
  lemma PendingIsMeant(w: World, lim: Limits, f: nat, s: Stmt, inner: Stmt, fin: Stmt, st0: State, c: Completion,
      st1: State)
    requires s.Try? && s.fin == Some(fin) && Sane(w, lim) && NoReentry(lim, s) && OnesIn(lim, s)
    requires inner == s.body || exists i :: 0 <= i < |s.catches| && inner == s.catches[i].body
    requires (c, st1) == Exec(w, f, inner, st0)
    ensures Meant(c, Exec(w, f, fin, Log(st1, Finally(s.id))).1) == Meant(c, st1)
  {
    if Jumps(c) {
      EscapingLevel(w, lim, f, inner, st0);
      PendingKeepsLevel(w, lim, f, inner, fin, c.err.sig.node, Log(st1, Finally(s.id)));
    }
  }
}
