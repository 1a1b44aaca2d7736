/** The statement interpreter in the form the source has it: methods that update variables, node
    levels and completions in place, proved to run exactly as `Statements.Exec` says. */
module StatementRunner {
  import opened Options
  import opened Statements
  import opened Variables

  class Interpreter {
    const w: World
    var mem: Memory
    var intv: map<nat, nat>
    var trace: seq<Event>

    constructor (w: World, st: State)
      ensures this.w == w && Now() == st
    {
      this.w := w;
      mem, intv, trace := st.mem, st.intv, st.trace;
    }

    function Now(): State
      reads this
    {
      State(mem, intv, trace)
    }

    method RunWrites(writes: seq<Write>)
      modifies this`mem
      ensures mem == ApplyAll(old(mem), writes)
    {
      for i := 0 to |writes|
        invariant ApplyAll(old(mem), writes) == ApplyAll(mem, writes[i..])
      {
        assert writes[i..][0] == writes[i] && writes[i..][1..] == writes[i + 1..];
        mem := Apply(mem, writes[i]);
      }
    }

    method DoAct(a: Option<nat>) returns (c: Completion)
      modifies this
      ensures (c, Now()) == Perform(w, a, old(Now()))
    {
      if a.None? {
        return Done;
      }
      var (f, writes) := w.act(a.value, View(mem));
      RunWrites(writes);
      c := if f.Some? then Raise(Raised(f.value)) else Done;
    }

    method DoTest(t: Option<nat>) returns (r: TestResult)
      modifies this
      ensures (r, Now()) == Check(w, t, old(Now()))
    {
      if t.None? {
        return Holds(true);
      }
      var (res, writes) := w.test(t.value, View(mem));
      RunWrites(writes);
      r := res;
    }

    /** The `switch br := e.Err.(type)` of the loops: decides whether the loop is left. */
    method LeaveLoop(kind: LoopKind, c: Completion) returns (v: Verdict)
      modifies this
      ensures (v, Now()) == AfterLoopBody(kind, c, old(Now()))
    {
      if c.Done? {
        return Again;
      }
      if c.OutOfFuel? {
        return Leave(OutOfFuel);
      }
      var e := c.err;
      if (e.sig.Thrown? || (kind.ForeachLoop? && e.sig.Closing?)) && !e.wrapped {
        return Leave(c);
      }
      if e.sig.BreakTo? || e.sig.ContinueTo? {
        var n := e.sig.node;
        var level := if n in intv then intv[n] else 0;
        if level > 1 {
          intv := intv[n := level - 1];
          return Leave(Raise(Err(e.sig, false)));
        }
        return if e.sig.BreakTo? then Leave(Done) else Again;
      }
      v := Leave(Raise(Err(e.sig, true)));
    }

    method Run(fuel: nat, s: Stmt) returns (c: Completion)
      modifies this
      ensures (c, Now()) == Exec(w, fuel, s, old(Now()))
      decreases fuel, s, 3
    {
      match s
      case Skip => c := Done;
      case Act(a) => c := DoAct(Some(a));
      case Seq(a, b) =>
        c := Run(fuel, a);
        if c.Done? {
          c := Run(fuel, b);
        }
      case If(t, yes, no) =>
        var r := DoTest(Some(t));
        if r.Faults? {
          return Raise(Raised(r.f));
        }
        if r.b {
          c := Run(fuel, yes);
        } else {
          c := Run(fuel, no);
        }
      case Loop(_, start, _, _, _) =>
        c := DoAct(start);
        if c.Done? {
          c := RunLoop(fuel, s);
        }
      case DoWhile(_, _) => c := RunDo(fuel, s);
      case Switch(_, _) => c := RunSwitch(fuel, s);
      case Try(_, _, _, _) => c := RunTry(fuel, s);
      case Break(n, level) =>
        intv := intv[n := level];
        c := Raise(Err(BreakTo(n), false));
      case Continue(n, level) =>
        intv := intv[n := level];
        c := Raise(Err(ContinueTo(n), false));
      case Return(x, value) =>
        c := Raise(Err(Returning(ReturnValue(w, x, value, Now())), false));
      case Call(fn) =>
        if fn !in w.bodies {
          return Raise(Err(Fatal(0), true));
        }
        if fuel == 0 {
          return OutOfFuel;
        }
        c := RunCall(fuel, fn);
    }

    method RunCall(fuel: nat, fn: nat) returns (c: Completion)
      requires fn in w.bodies && fuel > 0
      modifies this
      ensures (c, Now()) == Exec(w, fuel, Call(fn), old(Now()))
      decreases fuel - 1, w.bodies[fn], 4
    {
      var caller := mem;
      mem := EnterCall(mem, w.shared(fn));
      c := Run(fuel - 1, w.bodies[fn]);
      mem := LeaveCall(caller, w.shared(fn), mem);
      if c.Raise? && c.err.sig.Returning? {
        c := Done;
      }
    }

    method RunLoop(fuel: nat, s: Stmt) returns (c: Completion)
      requires s.Loop?
      modifies this
      ensures (c, Now()) == ExecLoop(w, fuel, s, old(Now()))
      decreases fuel, s, 1
    {
      var k := fuel;
      while true
        invariant 0 <= k <= fuel
        invariant ExecLoop(w, fuel, s, old(Now())) == ExecLoop(w, k, s, Now())
        decreases k
      {
        var left := RunRound(k, s);
        if left.Some? {
          return left.value;
        }
        k := k - 1;
      }
    }

    /** One time round a loop; None where it goes on. */
    method RunRound(k: nat, s: Stmt) returns (left: Option<Completion>)
      requires s.Loop?
      modifies this
      ensures left.Some? ==> (left.value, Now()) == ExecLoop(w, k, s, old(Now()))
      ensures left.None? ==> k > 0 && ExecLoop(w, k, s, old(Now())) == ExecLoop(w, k - 1, s, Now())
      decreases k, s, 0
    {
      var t := DoTest(s.cond);
      if t.Faults? {
        return Some(Raise(Raised(t.f)));
      }
      if !t.b {
        return Some(Done);
      }
      if k == 0 {
        return Some(OutOfFuel);
      }
      var c := Run(k - 1, s.body);
      var v := LeaveLoop(s.kind, c);
      if v.Leave? {
        return Some(v.c);
      }
      c := DoAct(s.each);
      return if c.Raise? && !s.kind.ForeachLoop? then Some(c) else None;
    }

    method RunDo(fuel: nat, s: Stmt) returns (c: Completion)
      requires s.DoWhile?
      modifies this
      ensures (c, Now()) == ExecDo(w, fuel, s, old(Now()))
      decreases fuel, s, 0
    {
      var k := fuel;
      while k > 0
        invariant 0 <= k <= fuel
        invariant ExecDo(w, fuel, s, old(Now())) == ExecDo(w, k, s, Now())
        decreases k
      {
        c := Run(k - 1, s.body);
        var v := LeaveLoop(WhileLoop, c);
        if v.Leave? {
          return v.c;
        }
        var t := DoTest(Some(s.until));
        if t.Faults? {
          return Raise(Raised(t.f));
        }
        if !t.b {
          return Done;
        }
        k := k - 1;
      }
      c := OutOfFuel;
    }

    method RunSwitch(fuel: nat, s: Stmt) returns (c: Completion)
      requires s.Switch?
      modifies this
      ensures (c, Now()) == Exec(w, fuel, s, old(Now()))
      decreases fuel, s, 1
    {
      c := DoAct(Some(s.subject));
      if !c.Done? {
        return;
      }
      var start := SearchCases(s);
      if start.0.Raise? {
        return start.0;
      }
      if start.1.None? {
        return Done;
      }
      c := FallThrough(fuel, s, start.1.value);
    }

    /** The first loop of runSwitch.Run. */
    method SearchCases(s: Stmt) returns (r: (Completion, Option<nat>))
      requires s.Switch?
      modifies this
      ensures (r.0, r.1, Now()) == FindCase(w, s.cases, 0, None, old(Now()))
    {
      var defaultIdx: Option<nat> := None;
      for i := 0 to |s.cases|
        invariant defaultIdx.Some? ==> defaultIdx.value < |s.cases|
        invariant FindCase(w, s.cases, 0, None, old(Now())) == FindCase(w, s.cases, i, defaultIdx, Now())
      {
        if s.cases[i].test.None? {
          defaultIdx := Some(i);
          continue;
        }
        var t := DoTest(s.cases[i].test);
        if t.Faults? {
          return (Raise(Raised(t.f)), None);
        }
        if t.b {
          return (Done, Some(i));
        }
      }
      r := (Done, defaultIdx);
    }

    /** The second loop of runSwitch.Run. */
    method FallThrough(fuel: nat, s: Stmt, start: nat) returns (c: Completion)
      requires s.Switch? && start <= |s.cases|
      modifies this
      ensures (c, Now()) == ExecCases(w, fuel, s, start, old(Now()))
      decreases fuel, s, 0
    {
      for i := start to |s.cases|
        invariant ExecCases(w, fuel, s, start, old(Now())) == ExecCases(w, fuel, s, i, Now())
      {
        c := Run(fuel, s.cases[i].code);
        if c.OutOfFuel? {
          return;
        }
        if c.Raise? {
          if !c.err.sig.BreakTo? && !c.err.sig.ContinueTo? {
            return;
          }
          var n := c.err.sig.node;
          var level := if n in intv then intv[n] else 0;
          if level > 1 {
            intv := intv[n := level - 1];
            return Raise(Err(c.err.sig, false));
          }
          return Done;
        }
      }
      c := Done;
    }

    method RunFinally(fuel: nat, s: Stmt) returns (c: Completion)
      requires s.Try? && s.fin.Some?
      modifies this
      ensures (c, Now()) == Exec(w, fuel, s.fin.value, Log(old(Now()), Finally(s.id)))
      decreases fuel, s, 0
    {
      trace := trace + [Finally(s.id)];
      c := Run(fuel, s.fin.value);
    }

    /** runnableTry.Run */
    method RunTry(fuel: nat, s: Stmt) returns (c: Completion)
      requires s.Try?
      modifies this
      ensures (c, Now()) == Exec(w, fuel, s, old(Now()))
      decreases fuel, s, 1
    {
      if s.fin.Some? {
        trace := trace + [Entered(s.id)];
      }
      c := Run(fuel, s.body);
      if c.OutOfFuel? {
        return;
      }
      if c.Raise? && (!c.err.sig.Thrown? || c.err.wrapped) {
        var e := c.err;
        if e.sig.Exiting? && !e.wrapped {
          if s.fin.Some? {
            trace := trace + [SkippedByExit(s.id)];
          }
          return;
        }
        if s.fin.None? {
          return;
        }
        var pending := if e.sig.Closing? || w.byRef then e else Snapshot(e, Now());
        var q := RunFinally(fuel, s);
        if q.OutOfFuel? {
          return q;
        }
        if q.Raise? && !(e.sig.Closing? && q.err.sig.Closing?) {
          return q;
        }
        return Raise(pending);
      }
      if c.Raise? {
        c := RunCatches(fuel, s, c.err.sig.exn, c);
      }
      if s.fin.Some? && !c.OutOfFuel? {
        var q := RunFinally(fuel, s);
        if !q.Done? {
          c := q;
        }
      }
    }

    /** The catch clauses, for an exception thrown by the body; returns what is pending then. */
    method RunCatches(fuel: nat, s: Stmt, exn: nat, thrown: Completion) returns (p: Completion)
      requires s.Try?
      modifies this
      ensures var i := FirstMatch(w, s.catches, exn);
              var (c, st) := if i < |s.catches| then Exec(w, fuel, s.catches[i].body, old(Now()))
                else (thrown, old(Now()));
              Now() == st &&
              p == if i < |s.catches| && s.fin.Some? && c.Raise? && !c.err.wrapped then Raise(Snapshot(c.err, st))
                else c
      decreases fuel, s, 0
    {
      for i := 0 to |s.catches|
        invariant Now() == old(Now())
        invariant forall k :: 0 <= k < i ==> !w.catches(s.catches[k].cls, exn)
      {
        if w.catches(s.catches[i].cls, exn) {
          p := Run(fuel, s.catches[i].body);
          if s.fin.Some? && p.Raise? && !p.err.wrapped {
            p := Raise(Snapshot(p.err, Now()));
          }
          return;
        }
      }
      p := thrown;
    }
  }
}
