/** Static variables of functions, methods and closures (bindAll and runStaticInitial in
    core/compiler/compile-static.go), under calls that are made in initializers and bodies. */
module StaticVars {
  import opened Options

  datatype Value = Scalar(n: int) | Object(id: nat)

  /** Whose call it is: a closure object, a method of a class, or a plain function. */
  datatype Key = OfClosure(id: nat) | OfClass(name: string) | Plain

  datatype Slot = Slot(variable: nat, key: Key)

  /** A stored value. Only a reference sees later assignments; objects are stored without one. */
  datatype Cell = Cell(value: Value, ref: bool)

  type Slots = map<Slot, Cell>

  /** A static declaration: the calls that its initializer makes, if it runs, and its value, or None
      where it raises. */
  datatype Decl = Decl(variable: nat, calls: seq<Call>, value: Option<Value>)

  datatype Action = Write(variable: nat, value: Value) | Invoke(call: Call)

  /** One call: the declarations it comes to first, and what its body does. */
  datatype Call = Call(closure: nat, className: string, decls: seq<Decl>, body: seq<Action>)

  function KeyOf(c: Call): Key {
    if c.closure != 0 then OfClosure(c.closure) else if c.className != "" then OfClass(c.className) else Plain
  }

  function SlotAt(c: Call, i: nat): Slot
    requires i < |c.decls|
  {
    Slot(c.decls[i].variable, KeyOf(c))
  }

  predicate Declares(c: Call, s: Slot) {
    s.key == KeyOf(c) && exists i :: 0 <= i < |c.decls| && c.decls[i].variable == s.variable
  }

  /** runStaticInitial. */
  function Fresh(v: Value): Cell {
    Cell(v, !v.Object?)
  }

  // ----- running -----

  /** An initializer begins, and ends with a value or fails. */
  datatype Event = Begins(s: Slot) | Ends(s: Slot) | Fails(s: Slot)

  /** The stores after a run, and what happened; `ok` unless an initializer of the call itself failed. */
  datatype Run = Run(slots: Slots, trace: seq<Event>, ok: bool)

  /** The trace of one initializer, around that of its calls. */
  function Around(s: Slot, trace: seq<Event>, last: Event): seq<Event> {
    [Begins(s)] + trace + [last]
  }

  function RunCall(slots: Slots, c: Call): Run
    decreases c, 2, 0
  {
    var b := BindFrom(slots, c, 0);
    if b.ok then var r := RunBody(b.slots, c, 0); Run(r.slots, b.trace + r.trace, true) else b
  }

  /** Binds the declarations from the i-th on. An initializer runs first and is stored then, whatever
      its calls have stored; the store of a plain function is emptied when it fails. */
  function BindFrom(slots: Slots, c: Call, i: nat): Run
    requires i <= |c.decls|
    decreases c, 1, |c.decls| - i
  {
    if i == |c.decls| then Run(slots, [], true)
    else
      var s, d := SlotAt(c, i), c.decls[i];
      if s in slots then BindFrom(slots, c, i + 1)
      else
        var r := RunCalls(slots, d, 0);
        if d.value.None? then Run(Dropped(r.slots, s), Around(s, r.trace, Fails(s)), false)
        else
          var b := BindFrom(r.slots[s := Fresh(d.value.value)], c, i + 1);
          Run(b.slots, Around(s, r.trace, Ends(s)) + b.trace, b.ok)
  }

  function Dropped(slots: Slots, s: Slot): Slots {
    if s.key.Plain? then slots - {s} else slots
  }

  function RunCalls(slots: Slots, d: Decl, j: nat): Run
    requires j <= |d.calls|
    decreases d, |d.calls| - j
  {
    if j == |d.calls| then Run(slots, [], true)
    else
      var r := RunCall(slots, d.calls[j]);
      var rest := RunCalls(r.slots, d, j + 1);
      Run(rest.slots, r.trace + rest.trace, true)
  }

  function RunBody(slots: Slots, c: Call, i: nat): Run
    requires i <= |c.body|
    decreases c, 1, |c.body| - i
  {
    if i == |c.body| then Run(slots, [], true)
    else
      match c.body[i]
      case Write(v, z) => RunBody(Written(slots, c, v, z), c, i + 1)
      case Invoke(d) =>
        var r := RunCall(slots, d);
        var rest := RunBody(r.slots, c, i + 1);
        Run(rest.slots, r.trace + rest.trace, true)
  }

  /** An assignment to a variable of the call: a stored reference takes the value. */
  function Written(slots: Slots, c: Call, v: nat, z: Value): Slots {
    var s := Slot(v, KeyOf(c));
    if Declares(c, s) && s in slots && slots[s].ref then slots[s := Cell(z, true)] else slots
  }

  /** A run of calls one after the other. */
  function RunAll(slots: Slots, calls: seq<Call>): Run
    decreases |calls|
  {
    if calls == [] then Run(slots, [], true)
    else
      var r := RunCall(slots, calls[0]);
      var rest := RunAll(r.slots, calls[1..]);
      Run(rest.slots, r.trace + rest.trace, true)
  }

  // ----- traces -----

  /** The initializers that completed, in order. */
  function Completed(trace: seq<Event>): seq<Slot> {
    if trace == [] then []
    else (if trace[0].Ends? then [trace[0].s] else []) + Completed(trace[1..])
  }

  /** An initializer begins while one for the same slot is under way. */
  predicate Reenters(trace: seq<Event>, open: set<Slot>) {
    if trace == [] then false
    else (trace[0].Begins? && trace[0].s in open) || Reenters(trace[1..], OpenAfter(trace[0], open))
  }

  function OpenAfter(e: Event, open: set<Slot>): set<Slot> {
    if e.Begins? then open + {e.s} else open - {e.s}
  }

  function OpenAtEnd(trace: seq<Event>, open: set<Slot>): set<Slot> {
    if trace == [] then open else OpenAtEnd(trace[1..], OpenAfter(trace[0], open))
  }

  ghost predicate Distinct(ran: seq<Slot>) {
    forall i, j :: 0 <= i < j < |ran| ==> ran[i] != ran[j]
  }

  lemma {:induction false} CompletedOfConcat(a: seq<Event>, b: seq<Event>)
    ensures Completed(a + b) == Completed(a) + Completed(b)
    decreases a
  {
    if a == [] {
      assert a + b == b;
    } else {
      assert (a + b)[1..] == a[1..] + b && (a + b)[0] == a[0];
      CompletedOfConcat(a[1..], b);
    }
  }

  lemma {:induction false} ReentersOfConcat(a: seq<Event>, b: seq<Event>, open: set<Slot>)
    ensures Reenters(a + b, open) <==> Reenters(a, open) || Reenters(b, OpenAtEnd(a, open))
    ensures OpenAtEnd(a + b, open) == OpenAtEnd(b, OpenAtEnd(a, open))
    decreases a
  {
    if a == [] {
      assert a + b == b;
    } else {
      assert (a + b)[1..] == a[1..] + b && (a + b)[0] == a[0];
      ReentersOfConcat(a[1..], b, OpenAfter(a[0], open));
    }
  }

  // ----- initializers run once -----

  /** What a run without re-entry does: it completes each initializer at most once, for slots that
      were empty and are filled then, and leaves nothing open. */
  ghost predicate Clean(slots: Slots, r: Run, open: set<Slot>) {
    var ran := Completed(r.trace);
    && OpenAtEnd(r.trace, open) == open && Distinct(ran)
    && (forall s :: s in ran ==> s !in slots && s !in open)
    && (forall s :: s in r.slots <==> s in slots || s in ran)
  }

  /** What a run with re-entry but without failure does: it completes one initializer twice, or one
      that is under way outside. */
  ghost predicate Repeats(r: Run, open: set<Slot>) {
    var ran := Completed(r.trace);
    !Distinct(ran) || exists s :: s in ran && s in open
  }

  ghost predicate NoFailure(trace: seq<Event>) {
    forall e :: e in trace ==> !e.Fails?
  }

  /** Both, for a run from `slots` inside the initializers of `open`. */
  ghost predicate Behaves(slots: Slots, r: Run, open: set<Slot>) {
    && (!Reenters(r.trace, open) ==> Clean(slots, r, open))
    && (Reenters(r.trace, open) && NoFailure(r.trace) ==> Repeats(r, open))
  }

  /** One run after the other. */
  lemma BehavesThen(slots: Slots, a: Run, b: Run, r: Run, open: set<Slot>)
    requires Behaves(slots, a, open) && r.trace == a.trace + b.trace && r.slots == b.slots
    requires Behaves(a.slots, b, open)
    ensures Behaves(slots, r, open)
  {
    ReentersOfConcat(a.trace, b.trace, open);
    CompletedOfConcat(a.trace, b.trace);
    var x, y := Completed(a.trace), Completed(b.trace);
    if Reenters(r.trace, open) {
      if NoFailure(r.trace) {
        assert NoFailure(a.trace) && NoFailure(b.trace);
        RepeatsInConcat(x, y);
      }
    } else {
      DistinctConcat(x, y);
    }
  }

  lemma DistinctConcat(x: seq<Slot>, y: seq<Slot>)
    requires Distinct(x) && Distinct(y) && forall s :: s in x ==> s !in y
    ensures Distinct(x + y)
  {
    forall i, j | 0 <= i < j < |x + y| ensures (x + y)[i] != (x + y)[j] {
      if i < |x| <= j { assert x[i] in x && y[j - |x|] in y; }
    }
  }

  lemma RepeatsInConcat(x: seq<Slot>, y: seq<Slot>)
    ensures !Distinct(x) || !Distinct(y) ==> !Distinct(x + y)
  {
    if !Distinct(x) {
      var i, j :| 0 <= i < j < |x| && x[i] == x[j];
      assert (x + y)[i] == (x + y)[j];
    } else if !Distinct(y) {
      var i, j :| 0 <= i < j < |y| && y[i] == y[j];
      assert (x + y)[|x| + i] == (x + y)[|x| + j];
    }
  }

  lemma AroundTrace(s: Slot, trace: seq<Event>, last: Event, open: set<Slot>)
    requires !last.Begins? && last.s == s
    ensures Completed(Around(s, trace, last)) == Completed(trace) + if last.Ends? then [s] else []
    ensures Reenters(Around(s, trace, last), open) <==> s in open || Reenters(trace, open + {s})
    ensures OpenAtEnd(Around(s, trace, last), open) == OpenAtEnd(trace, open + {s}) - {s}
  {
    var t := [Begins(s)] + trace;
    assert t[0] == Begins(s) && t[1..] == trace;
    ReentersOfConcat(t, [last], open);
    CompletedOfConcat(t, [last]);
    assert [last][1..] == [];
  }

  /** One initializer, given what its calls do inside of it. */
  lemma InitializerBehaves(slots: Slots, s: Slot, r: Run, value: Option<Value>, open: set<Slot>)
    requires s !in slots && Behaves(slots, r, open + {s})
    ensures var next := if value.Some? then r.slots[s := Fresh(value.value)] else Dropped(r.slots, s);
            Behaves(slots, Run(next, Around(s, r.trace, if value.Some? then Ends(s) else Fails(s)), true), open)
  {
    var last := if value.Some? then Ends(s) else Fails(s);
    var trace, x := Around(s, r.trace, last), Completed(r.trace);
    AroundTrace(s, r.trace, last, open);
    if Reenters(trace, open) {
      if NoFailure(trace) {
        assert last in trace && forall e :: e in r.trace ==> e in trace;
        assert NoFailure(r.trace);
        assert (x + [s])[|x|] == s;
        if Reenters(r.trace, open + {s}) {
          RepeatsInConcat(x, [s]);
          if s in x { RepeatedSlot(x, s); }
        }
      }
    } else if value.Some? {
      DistinctConcat(x, [s]);
    }
  }

  lemma RepeatedSlot(x: seq<Slot>, s: Slot)
    requires s in x
    ensures !Distinct(x + [s])
  {
    var i :| 0 <= i < |x| && x[i] == s;
    assert (x + [s])[i] == (x + [s])[|x|];
  }

  lemma {:induction false} CallBehaves(slots: Slots, c: Call, open: set<Slot>)
    ensures Behaves(slots, RunCall(slots, c), open)
    decreases c, 2, 0
  {
    BindBehaves(slots, c, 0, open);
    var b := BindFrom(slots, c, 0);
    if b.ok {
      BodyBehaves(b.slots, c, 0, open);
      BehavesThen(slots, b, RunBody(b.slots, c, 0), RunCall(slots, c), open);
    }
  }

  lemma NothingBehaves(slots: Slots, open: set<Slot>)
    ensures Behaves(slots, Run(slots, [], true), open)
  {
  }

  lemma {:induction false} BindBehaves(slots: Slots, c: Call, i: nat, open: set<Slot>)
    requires i <= |c.decls|
    ensures Behaves(slots, BindFrom(slots, c, i), open)
    decreases c, 1, |c.decls| - i
  {
    if i == |c.decls| {
      NothingBehaves(slots, open);
    } else {
      var s, d := SlotAt(c, i), c.decls[i];
      if s in slots {
        BindBehaves(slots, c, i + 1, open);
      } else {
        CallsBehave(slots, d, 0, open + {s});
        var r := RunCalls(slots, d, 0);
        InitializerBehaves(slots, s, r, d.value, open);
        if d.value.Some? {
          var next := r.slots[s := Fresh(d.value.value)];
          BindBehaves(next, c, i + 1, open);
          var b := BindFrom(next, c, i + 1);
          BehavesThen(slots, Run(next, Around(s, r.trace, Ends(s)), true), b, BindFrom(slots, c, i), open);
        }
      }
    }
  }

  lemma {:induction false} CallsBehave(slots: Slots, d: Decl, j: nat, open: set<Slot>)
    requires j <= |d.calls|
    ensures Behaves(slots, RunCalls(slots, d, j), open)
    decreases d, |d.calls| - j
  {
    if j == |d.calls| {
      NothingBehaves(slots, open);
    } else {
      var r := RunCall(slots, d.calls[j]);
      CallBehaves(slots, d.calls[j], open);
      CallsBehave(r.slots, d, j + 1, open);
      BehavesThen(slots, r, RunCalls(r.slots, d, j + 1), RunCalls(slots, d, j), open);
    }
  }

  lemma {:induction false} BodyBehaves(slots: Slots, c: Call, i: nat, open: set<Slot>)
    requires i <= |c.body|
    ensures Behaves(slots, RunBody(slots, c, i), open)
    decreases c, 1, |c.body| - i
  {
    if i == |c.body| {
      NothingBehaves(slots, open);
    } else {
      match c.body[i]
      case Write(v, z) =>
        BodyBehaves(Written(slots, c, v, z), c, i + 1, open);
      case Invoke(d) =>
        var r := RunCall(slots, d);
        CallBehaves(slots, d, open);
        BodyBehaves(r.slots, c, i + 1, open);
        BehavesThen(slots, r, RunBody(r.slots, c, i + 1), RunBody(slots, c, i), open);
    }
  }

  lemma {:induction false} AllBehave(slots: Slots, calls: seq<Call>, open: set<Slot>)
    ensures Behaves(slots, RunAll(slots, calls), open)
    decreases |calls|
  {
    if calls == [] {
      NothingBehaves(slots, open);
    } else {
      var r := RunCall(slots, calls[0]);
      CallBehaves(slots, calls[0], open);
      AllBehave(r.slots, calls[1..], open);
      BehavesThen(slots, r, RunAll(r.slots, calls[1..]), RunAll(slots, calls), open);
    }
  }

  /** Over any run of calls, nested in initializers and bodies in any way: where no initializer
      begins while one for the same variable and key is under way, each completes at most once, and
      only for a slot that was empty; and where no initializer fails, only there. */
  lemma InitializersRunOnce(slots: Slots, calls: seq<Call>)
    ensures var r := RunAll(slots, calls);
            && (!Reenters(r.trace, {}) ==>
                  Distinct(Completed(r.trace)) && forall s :: s in Completed(r.trace) ==> s !in slots)
            && (NoFailure(r.trace) ==> (Distinct(Completed(r.trace)) <==> !Reenters(r.trace, {})))
  {
    AllBehave(slots, calls, {});
  }

  // ----- functions that call themselves in an initializer -----

  const X := Slot(0, Plain)

  /** `function f($n) { static $x = $n > 0 ? f($n - 1) : 0; }` called as f(n). */
  function SelfCall(n: nat): Call
    decreases n
  {
    Call(0, "", [Decl(0, if n > 0 then [SelfCall(n - 1)] else [], Some(Scalar(0)))], [])
  }

  function Times(n: nat): seq<Slot> {
    if n == 0 then [] else Times(n - 1) + [X]
  }

  /** f(n) completes its initializer n + 1 times. */
  lemma {:induction false} SelfCallRunsAgain(n: nat)
    ensures var r := RunCall(map[], SelfCall(n));
            Completed(r.trace) == Times(n + 1) && r.slots == map[X := Cell(Scalar(0), true)]
    decreases n
  {
    var c := SelfCall(n);
    var d := c.decls[0];
    assert SlotAt(c, 0) == X;
    if n > 0 {
      SelfCallRunsAgain(n - 1);
      OneCall(map[], d, SelfCall(n - 1));
    }
    var r := RunCalls(map[], d, 0);
    var next := r.slots[X := Fresh(Scalar(0))];
    assert next == map[X := Cell(Scalar(0), true)];
    assert BindFrom(next, c, 1) == Run(next, [], true) && RunBody(next, c, 0) == Run(next, [], true);
    OneDeclaration(map[], c, r, next);
    AroundTrace(X, r.trace, Ends(X), {});
  }

  lemma OneCall(slots: Slots, d: Decl, c: Call)
    requires d.calls == [c]
    ensures var r := RunCall(slots, c); RunCalls(slots, d, 0).slots == r.slots && RunCalls(slots, d, 0).trace == r.trace
  {
    var r := RunCall(slots, c);
    assert RunCalls(r.slots, d, 1) == Run(r.slots, [], true);
    assert r.trace + [] == r.trace;
  }

  /** A call with one declaration, whose initializer succeeds, and nothing else. */
  lemma OneDeclaration(slots: Slots, c: Call, r: Run, next: Slots)
    requires |c.decls| == 1 && c.body == [] && c.decls[0].value.Some? && SlotAt(c, 0) !in slots
    requires r == RunCalls(slots, c.decls[0], 0) && next == r.slots[SlotAt(c, 0) := Fresh(c.decls[0].value.value)]
    ensures RunCall(slots, c) == Run(next, Around(SlotAt(c, 0), r.trace, Ends(SlotAt(c, 0))), true)
  {
    assert BindFrom(next, c, 1) == Run(next, [], true) && RunBody(next, c, 0) == Run(next, [], true);
    var trace := Around(SlotAt(c, 0), r.trace, Ends(SlotAt(c, 0)));
    assert trace + [] == trace;
  }

  /** Where the outer initializer fails its slot is emptied, though the inner call has filled it, and
      the next call initializes it once more. */
  lemma FailureEmptiesSlot(inner: Call, outer: Call)
    requires inner == Call(0, "", [Decl(0, [], Some(Scalar(0)))], [])
    requires outer == Call(0, "", [Decl(0, [inner], None)], [])
    ensures Completed(RunAll(map[], [outer, inner]).trace) == [X, X]
  {
    var d := outer.decls[0];
    var r1 := RunCall(map[], inner);
    OneDeclaration(map[], inner, Run(map[], [], true), map[X := Fresh(Scalar(0))]);
    OneCall(map[], d, inner);
    assert SlotAt(outer, 0) == X && SlotAt(inner, 0) == X;
    assert BindFrom(map[], outer, 0).slots == map[];
    AroundTrace(X, [], Ends(X), {});
    AroundTrace(X, r1.trace, Fails(X), {});
    TwoCalls(map[], outer, inner);
    CompletedOfConcat(RunCall(map[], outer).trace, r1.trace);
  }

  /** An inner call that fails, and is caught, enters the slot and completes nothing. */
  lemma FailedInnerIsHarmless(inner: Call, outer: Call)
    requires inner == Call(0, "", [Decl(0, [], None)], [])
    requires outer == Call(0, "", [Decl(0, [inner], Some(Scalar(0)))], [])
    ensures var trace := RunCall(map[], outer).trace; Reenters(trace, {}) && Completed(trace) == [X]
  {
    var d := outer.decls[0];
    assert SlotAt(outer, 0) == X && SlotAt(inner, 0) == X;
    OneCall(map[], d, inner);
    var r := RunCalls(map[], d, 0);
    assert r.trace == Around(X, [], Fails(X));
    AroundTrace(X, [], Fails(X), {X});
    OneDeclaration(map[], outer, r, r.slots[X := Fresh(Scalar(0))]);
    AroundTrace(X, r.trace, Ends(X), {});
    assert {} + {X} == {X};
  }

  lemma TwoCalls(slots: Slots, a: Call, b: Call)
    ensures var r := RunCall(slots, a); RunAll(slots, [a, b]).trace == r.trace + RunCall(r.slots, b).trace
  {
    var r := RunCall(slots, a);
    assert [a, b][1..] == [b] && [b][1..] == [];
    var q := RunCall(r.slots, b);
    assert RunAll(r.slots, [b]).trace == q.trace + RunAll(q.slots, []).trace;
  }

  // ----- slots that a call does not come to -----

  /** The call, or one inside of it, declares the variable under this key. */
  predicate Touches(c: Call, s: Slot)
    decreases c
  {
    || Declares(c, s)
    || (exists i, j :: 0 <= i < |c.decls| && 0 <= j < |c.decls[i].calls| && Touches(c.decls[i].calls[j], s))
    || (exists i :: 0 <= i < |c.body| && c.body[i].Invoke? && Touches(c.body[i].call, s))
  }

  ghost predicate SameAt(slots: Slots, r: Slots, s: Slot) {
    (s in r <==> s in slots) && (s in slots ==> r[s] == slots[s])
  }

  /** A call leaves alone every slot that neither it nor a call inside of it declares, so those of
      all keys it does not run under. */
  lemma {:induction false} OtherSlotsKept(slots: Slots, c: Call, s: Slot)
    requires !Touches(c, s)
    ensures SameAt(slots, RunCall(slots, c).slots, s)
    decreases c, 2, 0
  {
    BindKeeps(slots, c, 0, s);
    var b := BindFrom(slots, c, 0);
    if b.ok { BodyKeeps(b.slots, c, 0, s); }
  }

  lemma {:induction false} BindKeeps(slots: Slots, c: Call, i: nat, s: Slot)
    requires i <= |c.decls| && !Touches(c, s)
    ensures SameAt(slots, BindFrom(slots, c, i).slots, s)
    decreases c, 1, |c.decls| - i
  {
    if i < |c.decls| {
      var t, d := SlotAt(c, i), c.decls[i];
      assert t != s;
      if t in slots {
        BindKeeps(slots, c, i + 1, s);
      } else {
        CallsKeep(slots, c, i, 0, s);
        if d.value.Some? {
          BindKeeps(RunCalls(slots, d, 0).slots[t := Fresh(d.value.value)], c, i + 1, s);
        }
      }
    }
  }

  lemma {:induction false} CallsKeep(slots: Slots, c: Call, i: nat, j: nat, s: Slot)
    requires i < |c.decls| && j <= |c.decls[i].calls| && !Touches(c, s)
    ensures SameAt(slots, RunCalls(slots, c.decls[i], j).slots, s)
    decreases c, 0, |c.decls[i].calls| - j
  {
    var d := c.decls[i];
    if j < |d.calls| {
      OtherSlotsKept(slots, d.calls[j], s);
      CallsKeep(RunCall(slots, d.calls[j]).slots, c, i, j + 1, s);
    }
  }

  lemma {:induction false} BodyKeeps(slots: Slots, c: Call, i: nat, s: Slot)
    requires i <= |c.body| && !Touches(c, s)
    ensures SameAt(slots, RunBody(slots, c, i).slots, s)
    decreases c, 1, |c.body| - i
  {
    if i < |c.body| {
      match c.body[i]
      case Write(v, z) => BodyKeeps(Written(slots, c, v, z), c, i + 1, s);
      case Invoke(d) =>
        OtherSlotsKept(slots, d, s);
        BodyKeeps(RunCall(slots, d).slots, c, i + 1, s);
    }
  }

  lemma {:induction false} OtherCallsKept(slots: Slots, calls: seq<Call>, s: Slot)
    requires forall c :: c in calls ==> !Touches(c, s)
    ensures SameAt(slots, RunAll(slots, calls).slots, s)
    decreases |calls|
  {
    if calls != [] {
      OtherSlotsKept(slots, calls[0], s);
      OtherCallsKept(RunCall(slots, calls[0]).slots, calls[1..], s);
    }
  }

  // ----- what every run keeps -----

  type Relation = (Slots, Slots) -> bool

  /** Kept by doing nothing, by one run after another, by assignments, and by an initializer of an
      empty slot around what its calls do. */
  ghost predicate Respected(rel: Relation) {
    && (forall a :: rel(a, a))
    && (forall a, b, c :: rel(a, b) && rel(b, c) ==> rel(a, c))
    && (forall a, c, v, z :: rel(a, Written(a, c, v, z)))
    && (forall a, b, s, z :: s !in a && rel(a, b) ==> rel(a, b[s := Fresh(z)]))
    && (forall a, b, s :: s !in a && rel(a, b) ==> rel(a, Dropped(b, s)))
  }

  lemma {:induction false} CallRelates(rel: Relation, slots: Slots, c: Call)
    requires Respected(rel)
    ensures rel(slots, RunCall(slots, c).slots) && rel(slots, BindFrom(slots, c, 0).slots)
    decreases c, 2, 0
  {
    BindRelates(rel, slots, c, 0);
    var b := BindFrom(slots, c, 0);
    if b.ok { BodyRelates(rel, b.slots, c, 0); }
  }

  lemma {:induction false} BindRelates(rel: Relation, slots: Slots, c: Call, i: nat)
    requires Respected(rel) && i <= |c.decls|
    ensures rel(slots, BindFrom(slots, c, i).slots)
    decreases c, 1, |c.decls| - i
  {
    if i < |c.decls| {
      var s, d := SlotAt(c, i), c.decls[i];
      if s in slots {
        BindRelates(rel, slots, c, i + 1);
      } else {
        CallsRelate(rel, slots, d, 0);
        if d.value.Some? {
          BindRelates(rel, RunCalls(slots, d, 0).slots[s := Fresh(d.value.value)], c, i + 1);
        }
      }
    }
  }

  lemma {:induction false} CallsRelate(rel: Relation, slots: Slots, d: Decl, j: nat)
    requires Respected(rel) && j <= |d.calls|
    ensures rel(slots, RunCalls(slots, d, j).slots)
    decreases d, |d.calls| - j
  {
    if j < |d.calls| {
      CallRelates(rel, slots, d.calls[j]);
      CallsRelate(rel, RunCall(slots, d.calls[j]).slots, d, j + 1);
    }
  }

  lemma {:induction false} BodyRelates(rel: Relation, slots: Slots, c: Call, i: nat)
    requires Respected(rel) && i <= |c.body|
    ensures rel(slots, RunBody(slots, c, i).slots)
    decreases c, 1, |c.body| - i
  {
    if i < |c.body| {
      match c.body[i]
      case Write(v, z) => BodyRelates(rel, Written(slots, c, v, z), c, i + 1);
      case Invoke(d) =>
        CallRelates(rel, slots, d);
        BodyRelates(rel, RunCall(slots, d).slots, c, i + 1);
    }
  }

  lemma {:induction false} AllRelate(rel: Relation, slots: Slots, calls: seq<Call>)
    requires Respected(rel)
    ensures rel(slots, RunAll(slots, calls).slots)
    decreases |calls|
  {
    if calls != [] {
      CallRelates(rel, slots, calls[0]);
      AllRelate(rel, RunCall(slots, calls[0]).slots, calls[1..]);
    }
  }

  ghost predicate WellStored(slots: Slots) {
    forall s :: s in slots ==> slots[s].ref || slots[s].value.Object?
  }

  /** Only objects are ever stored without a reference. */
  lemma StaysWellStored(slots: Slots, calls: seq<Call>)
    requires WellStored(slots)
    ensures WellStored(RunAll(slots, calls).slots)
  {
    AllRelate((a: Slots, b: Slots) => WellStored(a) ==> WellStored(b), slots, calls);
  }

  /** Filled slots stay filled, and keep a value that no reference leads to. */
  ghost predicate Stays(slots: Slots, r: Slots) {
    forall s :: s in slots ==> s in r && r[s].ref == slots[s].ref && (slots[s].ref || r[s] == slots[s])
  }

  lemma StayIsRespected()
    ensures Respected((a: Slots, b: Slots) => Stays(a, b))
  {
  }

  // ----- a call starts where the last one ended -----

  /** The last value that the body of `c` itself assigns to `v`, from the i-th action on. */
  function LastWrite(c: Call, i: nat, v: nat, z: Value): Value
    requires i <= |c.body|
    decreases |c.body| - i
  {
    if i == |c.body| then z
    else LastWrite(c, i + 1, v, if c.body[i].Write? && c.body[i].variable == v then c.body[i].value else z)
  }

  /** An initializer leaves a reference to its value, except an object, which is stored as it is. */
  lemma InitializedCell(slots: Slots, c: Call, i: nat)
    requires i < |c.decls| && SlotAt(c, i) !in slots && c.decls[i].value.Some?
    ensures var (s, z, r) := (SlotAt(c, i), c.decls[i].value.value, BindFrom(slots, c, i).slots);
            s in r && (r[s].ref <==> !z.Object?) && (z.Object? ==> r[s] == Cell(z, false))
  {
    var s, d := SlotAt(c, i), c.decls[i];
    var next := RunCalls(slots, d, 0).slots[s := Fresh(d.value.value)];
    StayIsRespected();
    BindRelates((a: Slots, b: Slots) => Stays(a, b), next, c, i + 1);
  }

  predicate Completes(slots: Slots, c: Call, v: nat) {
    BindFrom(slots, c, 0).ok && Declares(c, Slot(v, KeyOf(c)))
  }

  /** Binding leaves a cell for every variable declared. */
  lemma {:induction false} BoundIsFilled(slots: Slots, c: Call, i: nat, j: nat)
    requires i <= j < |c.decls| && BindFrom(slots, c, i).ok
    ensures SlotAt(c, j) in BindFrom(slots, c, i).slots
    decreases |c.decls| - i
  {
    var s, d := SlotAt(c, i), c.decls[i];
    var next := if s in slots then slots else RunCalls(slots, d, 0).slots[s := Fresh(d.value.value)];
    if i < j {
      BoundIsFilled(next, c, i + 1, j);
    } else {
      StayIsRespected();
      BindRelates((a: Slots, b: Slots) => Stays(a, b), next, c, i + 1);
    }
  }

  lemma CompletedIsFilled(slots: Slots, c: Call, v: nat)
    requires Completes(slots, c, v)
    ensures var s, b := Slot(v, KeyOf(c)), BindFrom(slots, c, 0);
            s in b.slots && s in RunCall(slots, c).slots && Stays(b.slots, RunCall(slots, c).slots)
  {
    var j :| 0 <= j < |c.decls| && c.decls[j].variable == v;
    BoundIsFilled(slots, c, 0, j);
    StayIsRespected();
    BodyRelates((a: Slots, b: Slots) => Stays(a, b), BindFrom(slots, c, 0).slots, c, 0);
  }

  /** What a call leaves in its variable: a reference shows all assignments, those of calls inside
      included, a plain cell only the call's own, in its own scope. */
  function Left(slots: Slots, c: Call, v: nat): Value
    requires Completes(slots, c, v)
  {
    CompletedIsFilled(slots, c, v);
    var s := Slot(v, KeyOf(c));
    var cell := BindFrom(slots, c, 0).slots[s];
    if cell.ref then RunCall(slots, c).slots[s].value else LastWrite(c, 0, v, cell.value)
  }

  /** The calls that the body makes, from the i-th action on, do not come to the slot. */
  ghost predicate Alone(c: Call, i: nat, s: Slot)
    requires i <= |c.body|
  {
    forall j :: i <= j < |c.body| && c.body[j].Invoke? ==> !Touches(c.body[j].call, s)
  }

  /** What the body assigns is stored: where only the call itself comes to the variable, a reference
      holds in the end the last value assigned, or else what it was bound to. */
  lemma {:induction false} AssignmentIsStored(slots: Slots, c: Call, i: nat, v: nat)
    requires i <= |c.body| && Declares(c, Slot(v, KeyOf(c))) && Slot(v, KeyOf(c)) in slots
    requires slots[Slot(v, KeyOf(c))].ref && Alone(c, i, Slot(v, KeyOf(c)))
    ensures var s, r := Slot(v, KeyOf(c)), RunBody(slots, c, i).slots;
            s in r && r[s] == Cell(LastWrite(c, i, v, slots[s].value), true)
    decreases |c.body| - i
  {
    if i < |c.body| {
      match c.body[i]
      case Write(u, z) => AssignmentIsStored(Written(slots, c, u, z), c, i + 1, v);
      case Invoke(d) =>
        OtherSlotsKept(slots, d, Slot(v, KeyOf(c)));
        AssignmentIsStored(RunCall(slots, d).slots, c, i + 1, v);
    }
  }

  /** A call that first comes to a scalar variable leaves there what its body last assigned, or the
      initial value. */
  lemma LeavesLastWrite(slots: Slots, c: Call, v: nat)
    requires Completes(slots, c, v) && Alone(c, 0, Slot(v, KeyOf(c)))
    requires var (s, bound) := (Slot(v, KeyOf(c)), BindFrom(slots, c, 0).slots); s in bound && bound[s].ref
    ensures var s := Slot(v, KeyOf(c));
            Left(slots, c, v) == LastWrite(c, 0, v, BindFrom(slots, c, 0).slots[s].value)
  {
    CompletedIsFilled(slots, c, v);
    AssignmentIsStored(BindFrom(slots, c, 0).slots, c, 0, v);
  }

  /** Behind a call and others that do not come to the variable, a later one for the same key starts
      from the value that it left, if and only if the variable was not first set to an object, or
      the object is still what it holds. */
  lemma StartsWhereLeft(slots: Slots, first: Call, between: seq<Call>, v: nat)
    requires Completes(slots, first, v)
    requires forall c :: c in between ==> !Touches(c, Slot(v, KeyOf(first)))
    ensures var s := Slot(v, KeyOf(first));
            var later := RunAll(slots, [first] + between).slots;
            var cell := BindFrom(slots, first, 0).slots;
            && s in later && s in cell
            && (later[s].value == Left(slots, first, v) <==> cell[s].ref || cell[s].value == Left(slots, first, v))
  {
    var s := Slot(v, KeyOf(first));
    CompletedIsFilled(slots, first, v);
    assert ([first] + between)[1..] == between;
    OtherCallsKept(RunCall(slots, first).slots, between, s);
  }

  /** A call made by the initializer of the same variable leaves nothing: the outer initializer
      stores its own value over it. */
  lemma InnerIsOverwritten(slots: Slots, outer: Call, inner: Call, v: nat)
    requires |outer.decls| == 1 && outer.body == [] && outer.decls[0].calls == [inner] && outer.decls[0].value.Some?
    requires KeyOf(inner) == KeyOf(outer) && outer.decls[0].variable == v && SlotAt(outer, 0) !in slots
    requires Completes(slots, inner, v)
    ensures var s, left := SlotAt(outer, 0), Left(slots, inner, v);
            var after := RunCall(slots, outer).slots;
            && RunCall(slots, inner).slots.Keys <= after.Keys && s in after
            && (after[s].value == left <==> outer.decls[0].value.value == left)
  {
    OneCall(slots, outer.decls[0], inner);
    var r := RunCalls(slots, outer.decls[0], 0);
    OneDeclaration(slots, outer, r, r.slots[SlotAt(outer, 0) := Fresh(outer.decls[0].value.value)]);
  }

  // ----- as the source stores it -----

  /** The three stores of the declarations, holding addresses of cells. */
  class Statics {
    var perClosure: map<(nat, nat), nat>
    var perClass: map<(nat, string), nat>
    var single: map<nat, nat>
    var cells: seq<Cell>

    ghost function Address(s: Slot): Option<nat>
      reads this
    {
      match s.key
      case OfClosure(id) => if (s.variable, id) in perClosure then Some(perClosure[(s.variable, id)]) else None
      case OfClass(name) => if (s.variable, name) in perClass then Some(perClass[(s.variable, name)]) else None
      case Plain => if s.variable in single then Some(single[s.variable]) else None
    }

    /** The stores hold exactly `slots`, and no two slots share a cell. */
    ghost predicate Holds(slots: Slots)
      reads this
    {
      && (forall s, t :: Address(s).Some? && Address(s) == Address(t) ==> s == t)
      && (forall s :: s in slots <==> Address(s).Some?)
      && (forall s :: s in slots ==> Address(s).value < |cells| && cells[Address(s).value] == slots[s])
    }

    /** Filled slots are where they were. */
    twostate predicate Steady(slots: Slots)
      reads this
    {
      forall s :: s in slots ==> Address(s) == old(Address(s))
    }

    constructor ()
      ensures Holds(map[])
    {
      perClosure, perClass, single, cells := map[], map[], map[], [];
    }

    method Find(c: Call, v: nat) returns (address: Option<nat>)
      ensures address == Address(Slot(v, KeyOf(c)))
    {
      if c.closure != 0 {
        return if (v, c.closure) in perClosure then Some(perClosure[(v, c.closure)]) else None;
      }
      if c.className != "" {
        return if (v, c.className) in perClass then Some(perClass[(v, c.className)]) else None;
      }
      return if v in single then Some(single[v]) else None;
    }

    /** Puts a new cell into a slot, over one that may be there by now. */
    method Store(c: Call, v: nat, z: Cell, ghost slots: Slots) returns (address: nat)
      requires Holds(slots)
      modifies this
      ensures Holds(slots[Slot(v, KeyOf(c)) := z]) && Address(Slot(v, KeyOf(c))) == Some(address)
      ensures forall t :: t != Slot(v, KeyOf(c)) ==> Address(t) == old(Address(t))
    {
      address := |cells|;
      cells := cells + [z];
      assert forall t :: Address(t) == old(Address(t));
      Put(c, v, address);
      ghost var s := Slot(v, KeyOf(c));
      assert forall t :: Address(t) == if t == s then Some(address) else old(Address(t));
    }

    method Put(c: Call, v: nat, address: nat)
      modifies this`perClosure, this`perClass, this`single
      ensures forall t :: Address(t) == if t == Slot(v, KeyOf(c)) then Some(address) else old(Address(t))
    {
      if c.closure != 0 {
        perClosure := perClosure[(v, c.closure) := address];
      } else if c.className != "" {
        perClass := perClass[(v, c.className) := address];
      } else {
        single := single[v := address];
      }
    }

    /** After a failure the slot of a plain function is empty, and any other as it is. */
    method Drop(c: Call, v: nat, ghost slots: Slots)
      requires Holds(slots)
      modifies this
      ensures Holds(Dropped(slots, Slot(v, KeyOf(c))))
      ensures forall t :: t != Slot(v, KeyOf(c)) ==> Address(t) == old(Address(t))
    {
      if c.closure == 0 && c.className == "" {
        single := single - {v};
      }
      ghost var s := Slot(v, KeyOf(c));
      assert forall t :: Address(t) == if t == s && s.key.Plain? then None else old(Address(t));
    }

    /** The scope holds the cells of the first `i` declared variables. */
    ghost predicate Bound(scope: map<nat, nat>, c: Call, i: nat)
      requires i <= |c.decls|
      reads this
    {
      && (forall j :: 0 <= j < i ==> c.decls[j].variable in scope)
      && forall v :: v in scope ==> Declares(c, Slot(v, KeyOf(c))) && Address(Slot(v, KeyOf(c))) == Some(scope[v])
    }

    /** Runs a call: the declarations, then the body in their scope. */
    method Execute(c: Call, ghost slots: Slots)
      requires Holds(slots)
      modifies this
      ensures Holds(RunCall(slots, c).slots) && Steady(slots)
      decreases c, 2
    {
      var scope := Bind(c, slots);
      if scope.Some? {
        ghost var bound := BindFrom(slots, c, 0).slots;
        BindStays(slots, c);
        RunActions(c, scope.value, bound);
      }
    }

    /** Binds the declared variables to cells in a fresh scope; None where an initializer fails. */
    method Bind(c: Call, ghost slots: Slots) returns (scope: Option<map<nat, nat>>)
      requires Holds(slots)
      modifies this
      ensures var b := BindFrom(slots, c, 0); Holds(b.slots) && (scope.Some? <==> b.ok)
      ensures Steady(slots) && (scope.Some? ==> Bound(scope.value, c, |c.decls|))
      decreases c, 1
    {
      var done: map<nat, nat> := map[];
      ghost var now := slots;
      for i := 0 to |c.decls|
        invariant Holds(now) && Steady(slots) && slots.Keys <= now.Keys
        invariant SameEnd(c, slots, now, i) && Bound(done, c, i)
      {
        var one, next := BindOne(c, i, done, now);
        EndStep(c, slots, now, i);
        if one.None? {
          return None;
        }
        done, now := one.value, next;
      }
      return Some(done);
    }

    /** Binds one more variable, with its cell found or made. */
    method BindOne(c: Call, i: nat, done: map<nat, nat>, ghost slots: Slots)
        returns (scope: Option<map<nat, nat>>, ghost next: Slots)
      requires Holds(slots) && i < |c.decls| && Bound(done, c, i)
      modifies this
      ensures Holds(next) && next == AfterOne(c, slots, i) && Steady(slots)
      ensures scope.Some? <==> SlotAt(c, i) in slots || c.decls[i].value.Some?
      ensures scope.Some? ==> Bound(scope.value, c, i + 1) && slots.Keys <= next.Keys
      decreases c, 0
    {
      var v := c.decls[i].variable;
      next := AfterOne(c, slots, i);
      ghost var s := SlotAt(c, i);
      assert forall x :: x in done ==> Slot(x, KeyOf(c)) in slots;
      var address := Find(c, v);
      if address.None? {
        address := Initialized(c, i, slots);
        if address.None? {
          return None, next;
        }
      }
      scope := Some(done[v := address.value]);
    }

    /** The new cell, or None where the initializer fails. */
    method Initialized(c: Call, i: nat, ghost slots: Slots) returns (address: Option<nat>)
      requires Holds(slots) && i < |c.decls| && SlotAt(c, i) !in slots
      modifies this
      ensures Holds(AfterOne(c, slots, i)) && Steady(slots) && slots.Keys <= AfterOne(c, slots, i).Keys
      ensures address.Some? <==> c.decls[i].value.Some?
      ensures address.Some? ==> Address(SlotAt(c, i)) == address
      decreases c.decls[i], 1
    {
      var v := c.decls[i].variable;
      Initialize(c.decls[i], slots);
      ghost var inner := RunCalls(slots, c.decls[i], 0).slots;
      InnerStays(slots, c.decls[i]);
      if c.decls[i].value.None? {
        Drop(c, v, inner);
        return None;
      }
      var cell := Store(c, v, Fresh(c.decls[i].value.value), inner);
      return Some(cell);
    }

    /** The calls that an initializer makes. */
    method Initialize(d: Decl, ghost slots: Slots)
      requires Holds(slots)
      modifies this
      ensures Holds(RunCalls(slots, d, 0).slots) && Steady(slots)
      decreases d, 0
    {
      ghost var now := slots;
      for j := 0 to |d.calls|
        invariant Holds(now) && Steady(slots) && Stays(slots, now)
        invariant RunCalls(slots, d, 0).slots == RunCalls(now, d, j).slots
      {
        Execute(d.calls[j], now);
        CallStays(now, d.calls[j]);
        now := RunCall(now, d.calls[j]).slots;
      }
    }

    /** The body: assignments through the scope, and calls. */
    method RunActions(c: Call, scope: map<nat, nat>, ghost slots: Slots)
      requires Holds(slots) && Bound(scope, c, |c.decls|)
      modifies this
      ensures Holds(RunBody(slots, c, 0).slots) && Steady(slots)
      decreases c, 1
    {
      ghost var now := slots;
      for i := 0 to |c.body|
        invariant Holds(now) && Steady(slots) && slots.Keys <= now.Keys && Bound(scope, c, |c.decls|)
        invariant RunBody(slots, c, 0).slots == RunBody(now, c, i).slots
      {
        RunAction(c, i, scope, now);
        now := AfterAction(c, now, i);
      }
    }

    method RunAction(c: Call, i: nat, scope: map<nat, nat>, ghost slots: Slots)
      requires Holds(slots) && i < |c.body| && Bound(scope, c, |c.decls|)
      modifies this
      ensures Holds(AfterAction(c, slots, i)) && Steady(slots) && slots.Keys <= AfterAction(c, slots, i).Keys
      ensures Bound(scope, c, |c.decls|)
      decreases c, 0
    {
      match c.body[i]
      case Write(v, z) => Assign(c, scope, v, z, slots);
      case Invoke(d) =>
        assert forall v :: v in scope ==> Slot(v, KeyOf(c)) in slots;
        CallStays(slots, d);
        Execute(d, slots);
    }

    /** An assignment through a bound cell: a stored reference takes the value. */
    method Assign(c: Call, scope: map<nat, nat>, v: nat, z: Value, ghost slots: Slots)
      requires Holds(slots) && Bound(scope, c, |c.decls|)
      modifies this`cells
      ensures Holds(Written(slots, c, v, z)) && forall t :: Address(t) == old(Address(t))
    {
      ghost var s := Slot(v, KeyOf(c));
      assert v in scope <==> Declares(c, s);
      if v in scope && cells[scope[v]].ref {
        cells := cells[scope[v] := Cell(z, true)];
        assert forall t :: Address(t) == old(Address(t));
        assert forall t :: t in slots && t != s ==> Address(t) != Address(s) && Address(t).Some?;
      }
    }
  }

  /** Binding from the start in `slots` and from the i-th on in `now` end alike. */
  predicate SameEnd(c: Call, slots: Slots, now: Slots, i: nat) {
    && i <= |c.decls|
    && BindFrom(slots, c, 0).slots == BindFrom(now, c, i).slots && BindFrom(slots, c, 0).ok == BindFrom(now, c, i).ok
  }

  /** The stores after one declaration. */
  function AfterOne(c: Call, slots: Slots, i: nat): Slots
    requires i < |c.decls|
  {
    var s, d := SlotAt(c, i), c.decls[i];
    if s in slots then slots
    else
      var r := RunCalls(slots, d, 0).slots;
      if d.value.None? then Dropped(r, s) else r[s := Fresh(d.value.value)]
  }

  function AfterAction(c: Call, slots: Slots, i: nat): Slots
    requires i < |c.body|
  {
    match c.body[i] case Write(v, z) => Written(slots, c, v, z) case Invoke(d) => RunCall(slots, d).slots
  }

  lemma EndStep(c: Call, slots: Slots, now: Slots, i: nat)
    requires i < |c.decls| && SameEnd(c, slots, now, i)
    ensures var next := AfterOne(c, now, i);
            if SlotAt(c, i) in now || c.decls[i].value.Some? then SameEnd(c, slots, next, i + 1)
            else BindFrom(slots, c, 0).slots == next && !BindFrom(slots, c, 0).ok
  {
  }

  lemma CallStays(slots: Slots, c: Call)
    ensures Stays(slots, RunCall(slots, c).slots)
  {
    StayIsRespected();
    CallRelates((a: Slots, b: Slots) => Stays(a, b), slots, c);
  }

  lemma BindStays(slots: Slots, c: Call)
    ensures Stays(slots, BindFrom(slots, c, 0).slots)
  {
    StayIsRespected();
    BindRelates((a: Slots, b: Slots) => Stays(a, b), slots, c, 0);
  }

  lemma InnerStays(slots: Slots, d: Decl)
    ensures Stays(slots, RunCalls(slots, d, 0).slots)
  {
    StayIsRespected();
    CallsRelate((a: Slots, b: Slots) => Stays(a, b), slots, d, 0);
  }
}
