/** Statement execution with completion signals: loops, switch, try/catch/finally, break,
    continue, return, exit and generator force-close (core/compiler/compile-for.go,
    compile-while.go, compile-dowhile.go, compile-foreach.go, compile-switch.go,
    compile-try-catch.go, compile-return.go, validate-break.go; core/phperr; core/phpv/loc.go). */
module Statements {
  import opened Options
  import opened Variables

  // ----- programs -----

  /** The compiler refuses break and continue operands below one. */
  type Positive = n: nat | 1 <= n witness 1

  datatype LoopKind = WhileLoop | ForLoop | ForeachLoop

  datatype CaseBlock = CaseBlock(test: Option<nat>, code: Stmt)      // no test: default

  datatype CatchClause = CatchClause(cls: nat, body: Stmt)

  /** Expressions are opaque actions and tests, given by number; break and continue are AST nodes
      with an identity, because the interpreter keeps their remaining level in the node. A return
      of a variable names it, any other return gives its value by number. */
  datatype Stmt =
    | Skip
    | Act(a: nat)
    | Seq(first: Stmt, rest: Stmt)
    | If(test: nat, yes: Stmt, no: Stmt)
    | Loop(kind: LoopKind, start: Option<nat>, cond: Option<nat>, each: Option<nat>, body: Stmt)
    | DoWhile(body: Stmt, until: nat)
    | Switch(subject: nat, cases: seq<CaseBlock>)
    | Try(id: nat, body: Stmt, catches: seq<CatchClause>, fin: Option<Stmt>)
    | Break(node: nat, level: Positive)
    | Continue(node: nat, level: Positive)
    | Return(variable: Option<nat>, value: nat)
    | Call(fn: nat)

  // ----- signals -----

  /** A returned value: a value of its own, or still the one that lies at `address`. `was` and
      `since` record what it was and how many writes there had been when the return statement ran. */
  datatype RetVal = RetVal(address: Option<nat>, v: int, was: int, since: nat)

  datatype Signal =
    | BreakTo(node: nat) | ContinueTo(node: nat)
    | Returning(ret: RetVal)
    | Thrown(exn: nat) | Exiting | Closing | Fatal(code: nat)

  /** Loops wrap most errors that pass them in a located PhpError. */
  datatype Err = Err(sig: Signal, wrapped: bool)

  datatype Completion = Done | Raise(err: Err) | OutOfFuel

  datatype Fault = Throws(exn: nat) | Exits | Closes | Fails(code: nat)

  function Raised(f: Fault): Err {
    match f
    case Throws(e) => Err(Thrown(e), false)
    case Exits => Err(Exiting, false)
    case Closes => Err(Closing, false)
    case Fails(c) => Err(Fatal(c), true)
  }

  // ----- state -----

  datatype Event = Entered(id: nat) | Finally(id: nat) | SkippedByExit(id: nat)

  /** Variables, the `Intv` field of each break/continue node, and the try statements so far. */
  datatype State = State(mem: Memory, intv: map<nat, nat>, trace: seq<Event>)

  datatype TestResult = Holds(b: bool) | Faults(f: Fault)

  /** Expressions see the values of the variables, and answer with what they write. */
  datatype World = World(
    act: (nat, Cells) -> (Option<Fault>, seq<Write>),
    test: (nat, Cells) -> (TestResult, seq<Write>),
    value: (nat, Cells) -> int,
    catches: (nat, nat) -> bool,
    bodies: map<nat, Stmt>,
    shared: nat -> seq<nat>,
    byRef: bool)

  function Level(st: State, node: nat): nat {
    if node in st.intv then st.intv[node] else 0
  }

  function SetLevel(st: State, node: nat, level: nat): State {
    st.(intv := st.intv[node := level])
  }

  function Log(st: State, e: Event): State {
    st.(trace := st.trace + [e])
  }

  function Perform(w: World, a: Option<nat>, st: State): (Completion, State) {
    match a
    case None => (Done, st)
    case Some(n) =>
      var (f, writes) := w.act(n, View(st.mem));
      (if f.Some? then Raise(Raised(f.value)) else Done, st.(mem := ApplyAll(st.mem, writes)))
  }

  function Check(w: World, c: Option<nat>, st: State): (TestResult, State) {
    match c
    case None => (Holds(true), st)
    case Some(n) =>
      var (r, writes) := w.test(n, View(st.mem));
      (r, st.(mem := ApplyAll(st.mem, writes)))
  }

  /** The value that a return statement raises: a variable's stays where it lies. */
  function ReturnValue(w: World, variable: Option<nat>, value: nat, st: State): RetVal {
    match variable
    case None =>
      var v := w.value(value, View(st.mem));
      RetVal(None, v, v, |st.mem.hits|)
    case Some(x) =>
      var v := Lookup(st.mem, x);
      RetVal(if x in st.mem.slots then Some(st.mem.slots[x].address) else None, v, v, |st.mem.hits|)
  }

  function Enter(w: World, fn: nat, st: State): State {
    st.(mem := EnterCall(st.mem, w.shared(fn)))
  }

  function Back(w: World, fn: nat, st: State, end: State): State {
    end.(mem := LeaveCall(st.mem, w.shared(fn), end.mem))
  }

  // ----- crossing a loop, a switch, a try -----

  datatype Verdict = Leave(c: Completion) | Again

  /** What a loop does with the completion of its body. */
  function AfterLoopBody(kind: LoopKind, c: Completion, st: State): (Verdict, State) {
    match c
    case Done => (Again, st)
    case OutOfFuel => (Leave(OutOfFuel), st)
    case Raise(e) =>
      if e.sig.Thrown? && !e.wrapped then (Leave(c), st)
      else if kind.ForeachLoop? && e.sig.Closing? && !e.wrapped then (Leave(c), st)
      else
        match e.sig
        case BreakTo(n) =>
          if Level(st, n) > 1 then (Leave(Raise(Err(e.sig, false))), SetLevel(st, n, Level(st, n) - 1))
          else (Leave(Done), st)
        case ContinueTo(n) =>
          if Level(st, n) > 1 then (Leave(Raise(Err(e.sig, false))), SetLevel(st, n, Level(st, n) - 1))
          else (Again, st)
        case other => (Leave(Raise(Err(other, true))), st)
  }

  /** What a switch does with the completion of a case block. */
  function AfterCase(c: Completion, st: State): (Verdict, State) {
    match c
    case Done => (Again, st)
    case OutOfFuel => (Leave(OutOfFuel), st)
    case Raise(e) =>
      if e.sig.BreakTo? || e.sig.ContinueTo? then
        if Level(st, e.sig.node) > 1 then
          (Leave(Raise(Err(e.sig, false))), SetLevel(st, e.sig.node, Level(st, e.sig.node) - 1))
        else (Leave(Done), st)
      else (Leave(c), st)
  }

  /** Replaces a returned value by a copy of what it is now. */
  function Snapshot(e: Err, st: State): Err {
    if e.sig.Returning? && e.sig.ret.address.Some? then
      var r := e.sig.ret;
      e.(sig := Returning(RetVal(None, At(st.mem, r.address.value), r.was, r.since)))
    else e
  }

  function FirstMatch(w: World, catches: seq<CatchClause>, exn: nat): (i: nat)
    ensures i <= |catches|
    ensures i < |catches| ==> w.catches(catches[i].cls, exn)
    ensures forall k :: 0 <= k < i ==> !w.catches(catches[k].cls, exn)
    decreases |catches|
  {
    if catches == [] || w.catches(catches[0].cls, exn) then 0
    else 1 + FirstMatch(w, catches[1..], exn)
  }

  /** The case block a switch starts at: the first test that holds, else the default. */
  function FindCase(w: World, cases: seq<CaseBlock>, i: nat, default: Option<nat>, st: State)
    : (r: (Completion, Option<nat>, State))
    requires i <= |cases| && (default.Some? ==> default.value < |cases|)
    ensures r.1.Some? ==> r.1.value < |cases|
    ensures r.0.Raise? ==> !r.0.err.sig.BreakTo? && !r.0.err.sig.ContinueTo? && !r.0.err.sig.Returning?
    ensures r.2.intv == st.intv && r.2.trace == st.trace && !r.0.OutOfFuel?
    decreases |cases| - i
  {
    if i == |cases| then (Done, default, st)
    else if cases[i].test.None? then FindCase(w, cases, i + 1, Some(i), st)
    else
      var (t, st1) := Check(w, cases[i].test, st);
      match t
      case Faults(f) => (Raise(Raised(f)), None, st1)
      case Holds(b) => if b then (Done, Some(i), st1) else FindCase(w, cases, i + 1, default, st1)
  }

  // ----- execution -----

  function Exec(w: World, fuel: nat, s: Stmt, st: State): (Completion, State)
    decreases fuel, s
  {
    match s
    case Skip => (Done, st)
    case Act(a) => Perform(w, Some(a), st)
    case Seq(a, b) =>
      var (c, st1) := Exec(w, fuel, a, st);
      if c.Done? then Exec(w, fuel, b, st1) else (c, st1)
    case If(t, yes, no) =>
      var (r, st1) := Check(w, Some(t), st);
      (match r
       case Faults(f) => (Raise(Raised(f)), st1)
       case Holds(b) => if b then Exec(w, fuel, yes, st1) else Exec(w, fuel, no, st1))
    case Loop(kind, start, cond, each, body) =>
      var (c, st1) := Perform(w, start, st);
      if c.Done? then ExecLoop(w, fuel, s, st1) else (c, st1)
    case DoWhile(_, _) => ExecDo(w, fuel, s, st)
    case Switch(subject, cases) =>
      var (c, st1) := Perform(w, Some(subject), st);
      if !c.Done? then (c, st1)
      else
        var (c', start, st2) := FindCase(w, cases, 0, None, st1);
        if !c'.Done? then (c', st2)
        else if start.None? then (Done, st2)
        else ExecCases(w, fuel, s, start.value, st2)
    case Try(id, body, catches, fin) =>
      var (c, st1) := Exec(w, fuel, body, if fin.Some? then Log(st, Entered(id)) else st);
      (match c
       case OutOfFuel => (OutOfFuel, st1)
       case Done => if fin.None? then (Done, st1) else Exec(w, fuel, fin.value, Log(st1, Finally(id)))
       case Raise(e) =>
         if e.sig.Thrown? && !e.wrapped then
           var i := FirstMatch(w, catches, e.sig.exn);
           var (p, st2) := if i < |catches| then Exec(w, fuel, catches[i].body, st1) else (c, st1);
           if p.OutOfFuel? || fin.None? then (p, st2)
           else
             // a raw return is detached from its variable before finally runs
             var pending := if i < |catches| && p.Raise? && !p.err.wrapped then Raise(Snapshot(p.err, st2)) else p;
             var (q, st3) := Exec(w, fuel, fin.value, Log(st2, Finally(id)));
             (if q.Done? then pending else q, st3)
         else if e.sig.Exiting? && !e.wrapped then
           (c, if fin.Some? then Log(st1, SkippedByExit(id)) else st1)
         else if fin.None? then (c, st1)
         else
           var (q, st2) := Exec(w, fuel, fin.value, Log(st1, Finally(id)));
           if q.OutOfFuel? then (q, st2)
           else if e.sig.Closing? then
             (if q.Raise? && !q.err.sig.Closing? then q else c, st2)
           else
             (if q.Raise? then q else if w.byRef then c else Raise(Snapshot(e, st1)), st2))
    case Break(n, level) => (Raise(Err(BreakTo(n), false)), SetLevel(st, n, level))
    case Continue(n, level) => (Raise(Err(ContinueTo(n), false)), SetLevel(st, n, level))
    case Return(x, value) => (Raise(Err(Returning(ReturnValue(w, x, value, st)), false)), st)
    case Call(fn) =>
      if fn !in w.bodies then (Raise(Err(Fatal(0), true)), st)
      else if fuel == 0 then (OutOfFuel, st)
      else
        var (c, st1) := Exec(w, fuel - 1, w.bodies[fn], Enter(w, fn, st));
        (if c.Raise? && c.err.sig.Returning? then Done else c, Back(w, fn, st, st1))
  }

  /** runnableWhile.Run, runnableFor.Run and the foreach loop, from the top of an iteration. */
  function ExecLoop(w: World, fuel: nat, s: Stmt, st: State): (Completion, State)
    requires s.Loop?
    decreases fuel, s, 0
  {
    var (t, st1) := Check(w, s.cond, st);
    match t
    case Faults(f) => (Raise(Raised(f)), st1)
    case Holds(b) =>
      if !b then (Done, st1)
      else if fuel == 0 then (OutOfFuel, st1)
      else
        var (c, st2) := Exec(w, fuel - 1, s.body, st1);
        var (v, st3) := AfterLoopBody(s.kind, c, st2);
        match v
        case Leave(r) => (r, st3)
        case Again =>
          var (c', st4) := Perform(w, s.each, st3);
          // foreach ignores what next() reports; its error surfaces at the next test
          if c'.Raise? && !s.kind.ForeachLoop? then (c', st4) else ExecLoop(w, fuel - 1, s, st4)
  }

  /** runnableDoWhile.Run, from the top of an iteration. */
  function ExecDo(w: World, fuel: nat, s: Stmt, st: State): (Completion, State)
    requires s.DoWhile?
    decreases fuel, s, 0
  {
    if fuel == 0 then (OutOfFuel, st)
    else
      var (c, st1) := Exec(w, fuel - 1, s.body, st);
      var (v, st2) := AfterLoopBody(WhileLoop, c, st1);
      match v
      case Leave(r) => (r, st2)
      case Again =>
        var (t, st3) := Check(w, Some(s.until), st2);
        match t
        case Faults(f) => (Raise(Raised(f)), st3)
        case Holds(b) => if b then ExecDo(w, fuel - 1, s, st3) else (Done, st3)
  }

  /** The case blocks from `i` on, falling through. */
  function ExecCases(w: World, fuel: nat, s: Stmt, i: nat, st: State): (Completion, State)
    requires s.Switch? && i <= |s.cases|
    decreases fuel, s, |s.cases| - i
  {
    if i == |s.cases| then (Done, st)
    else
      var (c, st1) := Exec(w, fuel, s.cases[i].code, st);
      var (v, st2) := AfterCase(c, st1);
      match v
      case Leave(r) => (r, st2)
      case Again => ExecCases(w, fuel, s, i + 1, st2)
  }
}
