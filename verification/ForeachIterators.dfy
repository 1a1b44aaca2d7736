/** `foreach` over an ordinary Iterator object, by value: the lazily driven phpObjectIterator and
    the loop that drives it, both in core/compiler/compile-foreach.go. */
module ForeachIterators {
  import opened Options

  type Error = int

  datatype Answer<T> = Raises(e: Error) | Gives(v: T)

  datatype BodyEnd = Completes | Breaks(level: int) | Continues(level: int) | Throws(e: Error)

  /** The calls made to the object, and the runs of the body, with what came back. */
  datatype Call =
    | Rewind(r: Answer<()>)
    | Valid(ok: Answer<bool>)
    | Current(v: Answer<Option<int>>)
    | Key(k: Answer<int>)
    | Body(x: int, end: BodyEnd)
    | Next(r: Answer<()>)

  /** How the object and the body behave, given everything that happened before. */
  datatype World = World(
    rewind: seq<Call> -> Answer<()>,
    valid: seq<Call> -> Answer<bool>,
    current: seq<Call> -> Answer<Option<int>>,
    key: seq<Call> -> Answer<int>,
    next: seq<Call> -> Answer<()>,
    body: (seq<Call>, int) -> BodyEnd)

  datatype LoopEnd = Finished | Failed(e: Error) | BreaksOuter(level: int) | ContinuesOuter(level: int) | OutOfFuel

  // ----- the protocol -----

  /** A whole loop, one call after the other: rewind, then rounds. */
  function Loop(w: World, fuel: nat): (seq<Call>, LoopEnd) {
    var r := w.rewind([]);
    var calls := [Rewind(r)];
    if r.Raises? then (calls, Failed(r.e)) else Rounds(w, fuel, calls)
  }

  /** Rounds of valid, current, key, body and next, from behind a rewind or a next. */
  function Rounds(w: World, fuel: nat, calls: seq<Call>): (seq<Call>, LoopEnd)
    decreases fuel
  {
    if fuel == 0 then (calls, OutOfFuel)
    else
      match Round(w, calls)
      case Over(calls', end) => (calls', end)
      case More(calls') => Rounds(w, fuel - 1, calls')
  }

  datatype RoundEnd = Over(calls: seq<Call>, end: LoopEnd) | More(calls: seq<Call>)

  function Round(w: World, calls: seq<Call>): RoundEnd {
    var ok := w.valid(calls);
    var calls1 := calls + [Valid(ok)];
    if ok.Raises? then Over(calls1, Failed(ok.e))
    else if !ok.v then Over(calls1, Finished)
    else Element(w, calls1)
  }

  function Element(w: World, calls: seq<Call>): RoundEnd {
    var v := w.current(calls);
    var calls1 := calls + [Current(v)];
    if v.Raises? then Over(calls1, Failed(v.e))
    else if v.v.None? then Over(calls1, Finished)
    else
      var k := w.key(calls1);
      var calls2 := calls1 + [Key(k)];
      if k.Raises? then Over(calls2, Failed(k.e))
      else
        var end := w.body(calls2, v.v.value);
        Advance(w, calls2 + [Body(v.v.value, end)], end)
  }

  function Advance(w: World, calls: seq<Call>, end: BodyEnd): RoundEnd {
    match end
    case Throws(e) => Over(calls, Failed(e))
    case Breaks(n) => Over(calls, if n > 1 then BreaksOuter(n - 1) else Finished)
    case _ =>
      if end.Continues? && end.level > 1 then Over(calls, ContinuesOuter(end.level - 1))
      else
        var r := w.next(calls);
        var calls1 := calls + [Next(r)];
        if r.Raises? then Over(calls1, Failed(r.e)) else More(calls1)
  }

  /** The loop goes on behind such an end of its body. */
  predicate Stays(end: BodyEnd) {
    end.Completes? || (end.Continues? && end.level <= 1)
  }

  /** How a loop ends whose last call is this one: it is over, or it failed, or the body has left
      loops around it too. */
  function EndOf(call: Call): LoopEnd {
    match call
    case Rewind(Raises(e)) => Failed(e)
    case Valid(Raises(e)) => Failed(e)
    case Current(Raises(e)) => Failed(e)
    case Key(Raises(e)) => Failed(e)
    case Next(Raises(e)) => Failed(e)
    case Body(_, Throws(e)) => Failed(e)
    case Body(_, Breaks(n)) => if n >= 2 then BreaksOuter(n - 1) else Finished
    case Body(_, Continues(n)) => if n >= 2 then ContinuesOuter(n - 1) else Finished
    case _ => Finished
  }

  /** Every loop that ends, ends as its last call says. */
  lemma EndIsOfLastCall(w: World, fuel: nat)
    ensures var (calls, end) := Loop(w, fuel);
            calls != [] && (end != OutOfFuel ==> end == EndOf(calls[|calls| - 1]))
  {
    var r := w.rewind([]);
    if r.Gives? { RoundsEndOfLast(w, fuel, [Rewind(r)]); }
  }

  lemma {:induction false} RoundsEndOfLast(w: World, fuel: nat, calls: seq<Call>)
    requires calls != []
    ensures var (calls', end) := Rounds(w, fuel, calls);
            calls' != [] && (end != OutOfFuel ==> end == EndOf(calls'[|calls'| - 1]))
    decreases fuel
  {
    if fuel > 0 {
      RoundEndOfLast(w, calls);
      if Round(w, calls).More? { RoundsEndOfLast(w, fuel - 1, Round(w, calls).calls); }
    }
  }

  lemma RoundEndOfLast(w: World, calls: seq<Call>)
    ensures var r := Round(w, calls); r.calls != [] && (r.Over? ==> r.end == EndOf(r.calls[|r.calls| - 1]))
  {
  }

  // ----- the language of call sequences -----

  datatype Phase = AtStart | BeforeValid | BeforeCurrent | BeforeKey | BeforeBody | BeforeNext | Closed

  /** The automaton of rewind (valid current key body next)* valid: the phase behind `call`, None
      where the call is out of turn. A call that raises, a false valid, and a body that leaves the
      loop close the sequence. */
  function Move(p: Phase, call: Call): Option<Phase> {
    match (p, call)
    case (AtStart, Rewind(r)) => Some(if r.Gives? then BeforeValid else Closed)
    case (BeforeValid, Valid(ok)) => Some(if ok.Gives? && ok.v then BeforeCurrent else Closed)
    case (BeforeCurrent, Current(v)) => Some(if v.Gives? && v.v.Some? then BeforeKey else Closed)
    case (BeforeKey, Key(k)) => Some(if k.Gives? then BeforeBody else Closed)
    case (BeforeBody, Body(_, end)) => Some(if Stays(end) then BeforeNext else Closed)
    case (BeforeNext, Next(r)) => Some(if r.Gives? then BeforeValid else Closed)
    case _ => None
  }

  function PhaseAfter(calls: seq<Call>): Option<Phase> {
    if calls == [] then Some(AtStart)
    else
      var p := PhaseAfter(calls[..|calls| - 1]);
      if p.None? then None else Move(p.value, calls[|calls| - 1])
  }

  lemma PhaseOfAppend(calls: seq<Call>, call: Call)
    ensures PhaseAfter(calls + [call]) == var p := PhaseAfter(calls); if p.None? then None else Move(p.value, call)
  {
    assert (calls + [call])[..|calls|] == calls;
  }

  lemma AdvanceFollows(w: World, calls: seq<Call>, end: BodyEnd)
    requires PhaseAfter(calls) == Some(if Stays(end) then BeforeNext else Closed)
    ensures var r := Advance(w, calls, end);
      PhaseAfter(r.calls).Some? && (r.More? ==> PhaseAfter(r.calls) == Some(BeforeValid))
  {
    PhaseOfAppend(calls, Next(w.next(calls)));
  }

  lemma ElementFollows(w: World, calls: seq<Call>)
    requires PhaseAfter(calls) == Some(BeforeCurrent)
    ensures var r := Element(w, calls);
      PhaseAfter(r.calls).Some? && (r.More? ==> PhaseAfter(r.calls) == Some(BeforeValid))
  {
    var v := w.current(calls);
    PhaseOfAppend(calls, Current(v));
    if v.Gives? && v.v.Some? {
      var calls1 := calls + [Current(v)];
      var k := w.key(calls1);
      PhaseOfAppend(calls1, Key(k));
      if k.Gives? {
        var calls2 := calls1 + [Key(k)];
        var end := w.body(calls2, v.v.value);
        PhaseOfAppend(calls2, Body(v.v.value, end));
        AdvanceFollows(w, calls2 + [Body(v.v.value, end)], end);
      }
    }
  }

  lemma RoundFollows(w: World, calls: seq<Call>)
    requires PhaseAfter(calls) == Some(BeforeValid)
    ensures var r := Round(w, calls);
      PhaseAfter(r.calls).Some? && (r.More? ==> PhaseAfter(r.calls) == Some(BeforeValid))
  {
    var ok := w.valid(calls);
    PhaseOfAppend(calls, Valid(ok));
    if ok.Gives? && ok.v {
      ElementFollows(w, calls + [Valid(ok)]);
    }
  }

  lemma {:induction false} RoundsFollow(w: World, fuel: nat, calls: seq<Call>)
    requires PhaseAfter(calls) == Some(BeforeValid)
    ensures PhaseAfter(Rounds(w, fuel, calls).0).Some?
    decreases fuel
  {
    if fuel > 0 {
      RoundFollows(w, calls);
      var r := Round(w, calls);
      if r.More? {
        RoundsFollow(w, fuel - 1, r.calls);
      }
    }
  }

  /** Whatever the object and the body do, the calls follow the protocol, and nothing is called
      after a call that raised. */
  lemma LoopFollowsProtocol(w: World, fuel: nat)
    ensures PhaseAfter(Loop(w, fuel).0).Some?
  {
    var r := w.rewind([]);
    PhaseOfAppend([], Rewind(r));
    assert [] + [Rewind(r)] == [Rewind(r)];
    if r.Gives? {
      RoundsFollow(w, fuel, [Rewind(r)]);
    }
  }

  /** In a sequence that follows the protocol only the last call can have raised. */
  lemma NothingAfterRaise(calls: seq<Call>, i: nat)
    requires PhaseAfter(calls).Some? && i < |calls| && Raised(calls[i])
    ensures i == |calls| - 1
  {
    PrefixFollows(calls, i + 1);
    assert calls[..i + 1][..i] == calls[..i];
    ClosedIsLast(calls, i + 1);
  }

  lemma {:induction false} PrefixFollows(calls: seq<Call>, j: nat)
    requires PhaseAfter(calls).Some? && j <= |calls|
    ensures PhaseAfter(calls[..j]).Some?
    decreases |calls|
  {
    if j == |calls| {
      assert calls[..j] == calls;
    } else {
      assert calls[..|calls| - 1][..j] == calls[..j];
      PrefixFollows(calls[..|calls| - 1], j);
    }
  }

  lemma {:induction false} ClosedIsLast(calls: seq<Call>, j: nat)
    requires PhaseAfter(calls).Some? && j <= |calls| && PhaseAfter(calls[..j]) == Some(Closed)
    ensures j == |calls|
    decreases |calls|
  {
    if j < |calls| - 1 {
      assert calls[..|calls| - 1][..j] == calls[..j];
      ClosedIsLast(calls[..|calls| - 1], j);
    }
  }

  predicate Raised(call: Call) {
    match call
    case Rewind(r) => r.Raises?
    case Valid(ok) => ok.Raises?
    case Current(v) => v.Raises?
    case Key(k) => k.Raises?
    case Body(_, end) => end.Throws?
    case Next(r) => r.Raises?
  }

  // ----- finite sequences -----

  function Steps(calls: seq<Call>): nat {
    if calls == [] then 0 else Steps(calls[..|calls| - 1]) + if calls[|calls| - 1].Next? then 1 else 0
  }

  /** What the body has been given, in order. */
  function Seen(calls: seq<Call>): seq<int> {
    if calls == [] then []
    else Seen(calls[..|calls| - 1]) + if calls[|calls| - 1].Body? then [calls[|calls| - 1].x] else []
  }

  /** The object stands for `xs`: it walks over it with each call of next and never raises. */
  ghost predicate StandsFor(w: World, xs: seq<int>) {
    && (forall h :: w.rewind(h).Gives?)
    && (forall h {:trigger w.valid(h)} :: w.valid(h) == Gives(Steps(h) < |xs|))
    && (forall h {:trigger w.current(h)} :: Steps(h) < |xs| ==> w.current(h) == Gives(Some(xs[Steps(h)])))
    && (forall h :: w.key(h).Gives?)
    && (forall h :: w.next(h).Gives?)
  }

  lemma CountsOfAppend(calls: seq<Call>, call: Call)
    ensures Steps(calls + [call]) == Steps(calls) + if call.Next? then 1 else 0
    ensures Seen(calls + [call]) == Seen(calls) + if call.Body? then [call.x] else []
  {
    assert (calls + [call])[..|calls|] == calls;
  }

  lemma AdvanceCounts(w: World, calls: seq<Call>, end: BodyEnd)
    requires forall h :: w.next(h).Gives?
    ensures var r := Advance(w, calls, end);
            Seen(r.calls) == Seen(calls) && (r.More? <==> Stays(end))
              && (r.More? ==> Steps(r.calls) == Steps(calls) + 1)
  {
    CountsOfAppend(calls, Next(w.next(calls)));
  }

  lemma BeforeBodyCounts(w: World, calls: seq<Call>)
    ensures Seen(BeforeBodyCalls(w, calls)) == Seen(calls) && Steps(BeforeBodyCalls(w, calls)) == Steps(calls)
    ensures Steps(calls + [Valid(w.valid(calls))]) == Steps(calls)
  {
    var calls1 := calls + [Valid(w.valid(calls))];
    CountsOfAppend(calls, Valid(w.valid(calls)));
    var calls2 := calls1 + [Current(w.current(calls1))];
    CountsOfAppend(calls1, Current(w.current(calls1)));
    CountsOfAppend(calls2, Key(w.key(calls2)));
  }

  /** One round over the next element of `xs`. */
  lemma RoundTakesElement(w: World, xs: seq<int>, calls: seq<Call>)
    requires StandsFor(w, xs) && Steps(calls) < |xs|
    ensures var (r, x) := (Round(w, calls), xs[Steps(calls)]);
            && Seen(r.calls) == Seen(calls) + [x]
            && (r.More? ==> Steps(r.calls) == Steps(calls) + 1)
            && (r.More? <==> Stays(w.body(BeforeBodyCalls(w, calls), x)))
  {
    var x := xs[Steps(calls)];
    var before := BeforeBodyCalls(w, calls);
    var end := w.body(before, x);
    BeforeBodyCounts(w, calls);
    CountsOfAppend(before, Body(x, end));
    AdvanceCounts(w, before + [Body(x, end)], end);
    assert Round(w, calls) == Advance(w, before + [Body(x, end)], end);
  }

  function BeforeBodyCalls(w: World, calls: seq<Call>): seq<Call> {
    var calls1 := calls + [Valid(w.valid(calls))];
    var calls2 := calls1 + [Current(w.current(calls1))];
    calls2 + [Key(w.key(calls2))]
  }

  /** What a round does over `xs`: it hands out the next element, or ends behind the last. */
  ghost predicate Took(xs: seq<int>, calls: seq<Call>, r: RoundEnd) {
    if Steps(calls) < |xs| then
      Seen(r.calls) == Seen(calls) + [xs[Steps(calls)]] && (r.More? ==> Steps(r.calls) == Steps(calls) + 1)
    else Seen(r.calls) == Seen(calls) && r.Over? && r.end == Finished
  }

  ghost predicate TakesElements(w: World, xs: seq<int>) {
    forall calls {:trigger Took(xs, calls, Round(w, calls))} :: Steps(calls) <= |xs| ==>
      Took(xs, calls, Round(w, calls))
  }

  lemma StandingTakesElements(w: World, xs: seq<int>)
    requires StandsFor(w, xs)
    ensures TakesElements(w, xs)
  {
    forall calls | Steps(calls) <= |xs| ensures Took(xs, calls, Round(w, calls)) {
      if Steps(calls) < |xs| {
        RoundTakesElement(w, xs, calls);
      } else {
        CountsOfAppend(calls, Valid(w.valid(calls)));
      }
    }
  }

  /** A round from where `good` holds ends where `fine` does, and goes on only where `good` does. */
  ghost predicate Keeps(w: World, calls: seq<Call>, good: seq<Call> -> bool, fine: seq<Call> -> bool) {
    var r := Round(w, calls);
    fine(r.calls) && (r.More? ==> good(r.calls))
  }

  lemma {:induction false} RoundsKeep(w: World, fuel: nat, calls: seq<Call>, good: seq<Call> -> bool,
      fine: seq<Call> -> bool)
    requires good(calls) && forall c :: good(c) ==> fine(c)
    requires forall c {:trigger Keeps(w, c, good, fine)} :: good(c) ==> Keeps(w, c, good, fine)
    ensures fine(Rounds(w, fuel, calls).0)
    decreases fuel
  {
    if fuel > 0 {
      assert Keeps(w, calls, good, fine);
      if Round(w, calls).More? {
        RoundsKeep(w, fuel - 1, Round(w, calls).calls, good, fine);
      }
    }
  }

  /** So far the body has seen the elements in order from the first, each once. */
  ghost predicate InOrder(xs: seq<int>, calls: seq<Call>) {
    Steps(calls) <= |xs| && Seen(calls) == xs[..Steps(calls)]
  }

  lemma ElementsInOrder(w: World, xs: seq<int>, fuel: nat, calls: seq<Call>)
    requires TakesElements(w, xs) && InOrder(xs, calls)
    ensures Seen(Rounds(w, fuel, calls).0) <= xs
  {
    var good, fine := (c: seq<Call>) => InOrder(xs, c), (c: seq<Call>) => Seen(c) <= xs;
    forall c | good(c) ensures Keeps(w, c, good, fine) {
      assert Took(xs, c, Round(w, c));
      StillInOrder(xs, c, Round(w, c));
    }
    RoundsKeep(w, fuel, calls, good, fine);
  }

  lemma StillInOrder(xs: seq<int>, calls: seq<Call>, r: RoundEnd)
    requires InOrder(xs, calls) && Took(xs, calls, r)
    ensures Seen(r.calls) <= xs && (r.More? ==> InOrder(xs, r.calls))
  {
    if Steps(calls) < |xs| {
      NextPrefix(xs, Steps(calls), Seen(r.calls));
    }
  }

  lemma NextPrefix(xs: seq<int>, k: nat, seen: seq<int>)
    requires k < |xs| && seen == xs[..k] + [xs[k]]
    ensures seen == xs[..k + 1]
  {
  }

  lemma RoundsGoOn(w: World, fuel: nat, calls: seq<Call>, next: seq<Call>)
    requires fuel > 0 && Round(w, calls) == More(next)
    ensures Rounds(w, fuel, calls) == Rounds(w, fuel - 1, next)
  {
  }

  /** It sees all of them when no round over an element ends the loop. */
  lemma {:induction false} AllElements(w: World, xs: seq<int>, fuel: nat, calls: seq<Call>)
    requires TakesElements(w, xs) && InOrder(xs, calls) && fuel > |xs| - Steps(calls)
    requires forall h {:trigger Round(w, h)} :: Steps(h) < |xs| ==> Round(w, h).More?
    ensures Seen(Rounds(w, fuel, calls).0) == xs && Rounds(w, fuel, calls).1 == Finished
    decreases fuel
  {
    var r, k := Round(w, calls), Steps(calls);
    assert Took(xs, calls, r);
    if k < |xs| {
      NextPrefix(xs, k, Seen(r.calls));
      AllElements(w, xs, fuel - 1, r.calls);
      RoundsGoOn(w, fuel, calls, r.calls);
    } else {
      assert xs[..|xs|] == xs;
    }
  }

  ghost predicate NeverLeaves(w: World) {
    forall h, x :: Stays(w.body(h, x))
  }

  lemma LoopSeesSequence(w: World, xs: seq<int>, fuel: nat)
    requires StandsFor(w, xs)
    ensures var (calls, end) := Loop(w, fuel);
            && Seen(calls) <= xs
            && (NeverLeaves(w) && fuel > |xs| ==> Seen(calls) == xs && end == Finished)
  {
    var r := Rewind(w.rewind([]));
    CountsOfAppend([], r);
    assert [] + [r] == [r];
    StandingTakesElements(w, xs);
    ElementsInOrder(w, xs, fuel, [r]);
    if NeverLeaves(w) && fuel > |xs| {
      forall h | Steps(h) < |xs| ensures Round(w, h).More? {
        RoundTakesElement(w, xs, h);
        assert Stays(w.body(BeforeBodyCalls(w, h), xs[Steps(h)]));
      }
      AllElements(w, xs, fuel, [r]);
    }
  }

  // ----- the lazy iterator -----

  class ObjectIterator {
    const w: World
    var calls: seq<Call>
    var started: bool
    var valid: bool
    var needsValid: bool
    var err: Option<Error>

    constructor (w: World)
      ensures this.w == w && calls == [] && !started && err.None? && !needsValid
    {
      this.w, calls, started, valid, needsValid, err := w, [], false, false, false, None;
    }

    /** Rewinds and asks valid, on the first use. */
    method EnsureStarted()
      modifies this
      ensures started
      ensures old(started) ==>
        calls == old(calls) && valid == old(valid) && needsValid == old(needsValid) && err == old(err)
      ensures !old(started) && w.rewind(old(calls)).Raises? ==>
        calls == old(calls) + [Rewind(w.rewind(old(calls)))] && err == Some(w.rewind(old(calls)).e)
      ensures !old(started) && w.rewind(old(calls)).Gives? ==>
        var calls1 := old(calls) + [Rewind(w.rewind(old(calls)))];
        var ok := w.valid(calls1);
        && !needsValid && calls == calls1 + [Valid(ok)]
        && (if ok.Raises? then err == Some(ok.e) else err.None? && valid == ok.v)
    {
      if !started {
        started, needsValid := true, false;
        var r := w.rewind(calls);
        calls := calls + [Rewind(r)];
        if r.Gives? {
          var ok := w.valid(calls);
          calls := calls + [Valid(ok)];
          if ok.Raises? {
            err, valid := Some(ok.e), false;
          } else {
            err, valid := None, ok.v;
          }
        } else {
          err, valid := Some(r.e), false;
        }
      }
    }

    /** The answer of valid, fetched if a next came before. */
    method IsValid() returns (ok: bool)
      requires started
      modifies this
      ensures started && (!needsValid || old(err).Some?)
      ensures ok == (err.None? && valid)
      ensures old(err).Some? || !old(needsValid) ==> calls == old(calls) && err == old(err) && valid == old(valid)
      ensures old(err).None? && old(needsValid) ==>
        var a := w.valid(old(calls));
        calls == old(calls) + [Valid(a)] && (if a.Raises? then err == Some(a.e) else err.None? && valid == a.v)
    {
      EnsureStarted();
      if err.Some? {
        return false;
      }
      if needsValid {
        needsValid := false;
        var a := w.valid(calls);
        calls := calls + [Valid(a)];
        if a.Raises? {
          err, valid := Some(a.e), false;
          return false;
        }
        valid := a.v;
      }
      return valid;
    }

    method GetCurrent() returns (v: Answer<Option<int>>)
      requires started && err.None? && valid
      modifies this
      ensures v == w.current(old(calls)) && calls == old(calls) + [Current(v)]
      ensures started && err == old(err) && valid == old(valid) && needsValid == old(needsValid)
    {
      EnsureStarted();
      v := w.current(calls);
      calls := calls + [Current(v)];
    }

    method GetKey() returns (k: Answer<int>)
      requires started && err.None? && valid
      modifies this
      ensures k == w.key(old(calls)) && calls == old(calls) + [Key(k)]
      ensures started && err == old(err) && valid == old(valid) && needsValid == old(needsValid)
    {
      EnsureStarted();
      k := w.key(calls);
      calls := calls + [Key(k)];
    }

    method GoNext()
      requires started && err.None?
      modifies this
      ensures var r := w.next(old(calls));
              && started && calls == old(calls) + [Next(r)]
              && (if r.Raises? then err == Some(r.e) else err.None? && needsValid)
    {
      EnsureStarted();
      var r := w.next(calls);
      calls := calls + [Next(r)];
      if r.Raises? {
        err, valid := Some(r.e), false;
      } else {
        needsValid := true;
      }
    }
  }

  /** Where the loop stands at its head: valid has been asked early, is due, or there is an error. */
  ghost predicate AtHead(it: ObjectIterator, w: World, fuel: nat, whole: (seq<Call>, LoopEnd))
    reads it
  {
    && it.started && it.w == w
    && match it.err
       case Some(e) => whole == (it.calls, Failed(e))
       case None =>
         if it.needsValid then whole == Rounds(w, fuel, it.calls)
         else fuel > 0 && whole == Asked(w, fuel, it.calls, it.valid)
  }

  /** The rest of a run once valid has answered. */
  function Asked(w: World, fuel: nat, calls: seq<Call>, valid: bool): (seq<Call>, LoopEnd)
    requires fuel > 0
  {
    if !valid then (calls, Finished)
    else
      match Element(w, calls)
      case Over(calls', end) => (calls', end)
      case More(calls') => Rounds(w, fuel - 1, calls')
  }

  lemma AskedFirst(w: World, fuel: nat, calls: seq<Call>)
    requires fuel > 0
    ensures var ok := w.valid(calls);
            Rounds(w, fuel, calls) == if ok.Raises? then (calls + [Valid(ok)], Failed(ok.e))
              else Asked(w, fuel, calls + [Valid(ok)], ok.v)
  {
  }

  /** The part of a round behind valid; None where the loop goes back to its head. */
  method RunElement(it: ObjectIterator) returns (end: Option<LoopEnd>)
    requires it.started && it.err.None? && it.valid
    modifies it
    ensures it.started
    ensures match Element(it.w, old(it.calls))
            case Over(calls, e) => it.calls == calls
              && (end == Some(e) || (end.None? && it.err.Some? && e == Failed(it.err.value)))
            case More(calls) => it.calls == calls && end.None? && it.err.None? && it.needsValid
  {
    var v := it.GetCurrent();
    if v.Raises? {
      return Some(Failed(v.e));
    }
    if v.v.None? {
      return Some(Finished);
    }
    var k := it.GetKey();
    if k.Raises? {
      return Some(Failed(k.e));
    }
    var b := it.w.body(it.calls, v.v.value);
    it.calls := it.calls + [Body(v.v.value, b)];
    match b
    case Throws(e) => return Some(Failed(e));
    case Breaks(n) => return Some(if n > 1 then BreaksOuter(n - 1) else Finished);
    case Continues(n) =>
      if n > 1 {
        return Some(ContinuesOuter(n - 1));
      }
      it.GoNext();
      return None;
    case Completes =>
      it.GoNext();
      return None;
  }

  /** runnableForeach.Run over an object makes the calls of the protocol and ends as it does. */
  method Foreach(w: World, fuel: nat) returns (calls: seq<Call>, end: LoopEnd)
    requires fuel > 0
    ensures (calls, end) == Loop(w, fuel)
  {
    var it := new ObjectIterator(w);
    it.EnsureStarted();
    ghost var whole := Loop(w, fuel);
    assert [] + [Rewind(w.rewind([]))] == [Rewind(w.rewind([]))];
    AskedFirst(w, fuel, [Rewind(w.rewind([]))]);
    var left := fuel;
    while left > 0
      invariant AtHead(it, w, left, whole)
      decreases left
    {
      if it.needsValid {
        AskedFirst(w, left, it.calls);
      }
      var ok := it.IsValid();
      if !ok {
        return it.calls, if it.err.Some? then Failed(it.err.value) else Finished;
      }
      var over := RunElement(it);
      if over.Some? {
        return it.calls, over.value;
      }
      left := left - 1;
    }
    return it.calls, if it.err.Some? then Failed(it.err.value) else OutOfFuel;
  }
}
