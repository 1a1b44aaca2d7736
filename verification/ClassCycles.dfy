/** Self-references: what the `Resolving` marks report is exactly that a cycle of constants, each
    demanded by the one before, can be reached (core/compiler/compile-classref.go). */
module ClassCycles {
  import opened Options
  import opened ClassTables
  import opened ClassConstants
  import opened ClassSoundness
  import opened ClassReads

  type Key = (Class, string)

  /** Evaluating `e` inside `cur` comes to read `l`: earlier operands have values, and only the
      branch that is taken counts. */
  ghost predicate Demands(t: Table, cur: Class, e: Expr, l: Key) {
    match e
    case Literal(_) => false
    case Ref(s, n) => ClassOf(t, cur, s) == Some(l.0) && n == l.1 && Holds(t, l)
    case Op(_, a, b) => Demands(t, cur, a, l) || (HasValue(t, cur, a) && Demands(t, cur, b, l))
    case Cond(c, a, b) =>
      || Demands(t, cur, c, l)
      || (exists x :: ExprMeans(t, cur, c, Ok(x)) && Demands(t, cur, if t.truthy(x) then a else b, l))
  }

  ghost predicate HasValue(t: Table, cur: Class, e: Expr) {
    exists x :: ExprMeans(t, cur, e, Ok(x))
  }

  ghost predicate DemandsNext(t: Table, k: Key, l: Key) {
    Holds(t, k) && Demands(t, k.0, EntryAt(t, k).expr, l)
  }

  /** A path from `k` along demands. */
  ghost predicate Path(t: Table, k: Key, p: seq<Key>) {
    && p != [] && p[0] == k
    && forall i :: 0 <= i < |p| - 1 ==> Goes(t, p, i)
  }

  ghost predicate Goes(t: Table, p: seq<Key>, i: nat)
    requires i < |p| - 1
  {
    DemandsNext(t, p[i], p[i + 1])
  }

  /** A path that comes back to where it has been. */
  ghost predicate Lasso(t: Table, k: Key, p: seq<Key>) {
    Path(t, k, p) && p[|p| - 1] in p[..|p| - 1]
  }

  // ----- a cycle never ends -----

  /** If the evaluation ends, what it demands ends within the same fuel. */
  lemma {:induction false} DemandEnds(t: Table, cur: Class, e: Expr, l: Key, f: nat)
    requires Demands(t, cur, e, l) && PlainExpr(t, f, cur, e).Done?
    ensures PlainConst(t, f, l.0, l.1).Done?
    decreases e
  {
    match e
    case Ref(_, _) =>
    case Op(_, a, b) =>
      if Demands(t, cur, a, l) {
        DemandEnds(t, cur, a, l, f);
      } else {
        var x :| ExprMeans(t, cur, a, Ok(x));
        var g: nat :| PlainExpr(t, g, cur, a) == Done(Ok(x));
        SameAnswer(t, f, g, cur, a);
        DemandEnds(t, cur, b, l, f);
      }
    case Cond(c, a, b) =>
      if Demands(t, cur, c, l) {
        DemandEnds(t, cur, c, l, f);
      } else {
        var x :| ExprMeans(t, cur, c, Ok(x)) && Demands(t, cur, if t.truthy(x) then a else b, l);
        var g: nat :| PlainExpr(t, g, cur, c) == Done(Ok(x));
        SameAnswer(t, f, g, cur, c);
        DemandEnds(t, cur, if t.truthy(x) then a else b, l, f);
      }
  }

  /** Round the lasso each evaluation would have to end in less fuel than the one before. */
  lemma {:induction false} LassoNeverEnds(t: Table, k: Key, p: seq<Key>, i: nat, m: nat, f: nat)
    requires Path(t, k, p) && i < |p| - 1 && p[i] == p[|p| - 1] && m < |p|
    ensures PlainConst(t, f, p[m].0, p[m].1).OutOfFuel?
    decreases f
  {
    var j := if m == |p| - 1 then i else m;
    assert p[j] == p[m] && Goes(t, p, j);
    NextEnds(t, p[j], p[j + 1], f);
    if f > 0 {
      LassoNeverEnds(t, k, p, i, j + 1, f - 1);
    }
  }

  lemma NextEnds(t: Table, k: Key, l: Key, f: nat)
    requires DemandsNext(t, k, l)
    ensures PlainConst(t, f, k.0, k.1).Done? ==> f > 0 && PlainConst(t, f - 1, l.0, l.1).Done?
  {
    assert k == (k.0, k.1);
    if f > 0 && PlainConst(t, f, k.0, k.1).Done? {
      DemandEnds(t, k.0, EntryAt(t, k).expr, l, f - 1);
    }
  }

  // ----- what never ends has a cycle -----

  /** An evaluation that never ends demands a constant that never ends. */
  lemma {:induction false} DivergingDemand(t: Table, cur: Class, e: Expr) returns (l: Key)
    requires forall f: nat :: PlainExpr(t, f, cur, e).OutOfFuel?
    ensures Demands(t, cur, e, l) && Diverges(t, l.0, l.1)
    decreases e
  {
    assert PlainExpr(t, 0, cur, e).OutOfFuel?;
    match e
    case Ref(s, n) =>
      l := (ClassOf(t, cur, s).value, n);
      forall f: nat ensures PlainConst(t, f, l.0, l.1).OutOfFuel? {
        assert PlainExpr(t, f, cur, e).OutOfFuel?;
      }
      assert PlainConst(t, 0, l.0, l.1).OutOfFuel? && l == (l.0, l.1);
    case Op(_, a, b) => l := DivergingOperand(t, cur, e, a);
    case Cond(c, _, _) => l := DivergingOperand(t, cur, e, c);
  }

  lemma {:induction false} DivergingOperand(t: Table, cur: Class, e: Expr, a: Expr) returns (l: Key)
    requires (e.Op? && a == e.a) || (e.Cond? && a == e.test)
    requires forall f: nat :: PlainExpr(t, f, cur, e).OutOfFuel?
    ensures Demands(t, cur, e, l) && Diverges(t, l.0, l.1)
    decreases e, 0
  {
    if f: nat :| PlainExpr(t, f, cur, a).Done? {
      assert PlainExpr(t, f, cur, e).OutOfFuel?;
      var x := PlainExpr(t, f, cur, a).o;
      assert ExprMeans(t, cur, a, x);
      var b := if e.Op? then e.b else if t.truthy(x.v) then e.yes else e.no;
      forall g: nat ensures PlainExpr(t, g, cur, b).OutOfFuel? {
        SecondNeverEnds(t, cur, e, a, b, f, g);
      }
      l := DivergingDemand(t, cur, b);
    } else {
      l := DivergingDemand(t, cur, a);
    }
  }

  lemma SecondNeverEnds(t: Table, cur: Class, e: Expr, a: Expr, b: Expr, f: nat, g: nat)
    requires (e.Op? && a == e.a) || (e.Cond? && a == e.test)
    requires PlainExpr(t, f, cur, a).Done? && PlainExpr(t, f, cur, a).o.Ok?
    requires b == if e.Op? then e.b else if t.truthy(PlainExpr(t, f, cur, a).o.v) then e.yes else e.no
    requires forall h: nat :: PlainExpr(t, h, cur, e).OutOfFuel?
    ensures PlainExpr(t, g, cur, b).OutOfFuel?
  {
    var m := if f < g then g else f;
    MoreFuel(t, f, m, cur, a);
    assert PlainExpr(t, m, cur, e).OutOfFuel?;
    if PlainExpr(t, g, cur, b).Done? { MoreFuel(t, g, m, cur, b); }
  }

  lemma {:induction false} LongPath(t: Table, k: Key, n: nat) returns (p: seq<Key>)
    requires Diverges(t, k.0, k.1)
    ensures Path(t, k, p) && |p| == n + 1 && forall x :: x in p ==> x in t.slots
    decreases n
  {
    assert k == (k.0, k.1) && PlainConst(t, 0, k.0, k.1).OutOfFuel?;
    if n == 0 {
      p := [k];
    } else {
      var e := EntryAt(t, k).expr;
      forall f: nat ensures PlainExpr(t, f, k.0, e).OutOfFuel? {
        assert PlainConst(t, f + 1, k.0, k.1).OutOfFuel?;
      }
      var l := DivergingDemand(t, k.0, e);
      var q := LongPath(t, l, n - 1);
      p := [k] + q;
      forall i | 0 <= i < |p| - 1 ensures Goes(t, p, i) {
        if i > 0 { assert Goes(t, q, i - 1) && p[i] == q[i - 1] && p[i + 1] == q[i]; }
      }
    }
  }

  /** More places than keys: one of them comes twice. */
  lemma {:induction false} ComesBack(p: seq<Key>, keys: set<Key>) returns (j: nat)
    requires (forall x :: x in p ==> x in keys) && |p| > |keys|
    ensures j < |p| && p[j] in p[..j]
    decreases |p|
  {
    var last := |p| - 1;
    if p[last] in p[..last] {
      j := last;
    } else {
      assert |keys| > 0 by { assert p[last] in keys; }
      j := ComesBack(p[..last], keys - {p[last]});
      assert p[..last][..j] == p[..j];
    }
  }

  /** A constant's evaluation never ends if and only if a cycle can be reached from it. */
  lemma DivergesIffLasso(t: Table, k: Key)
    ensures Diverges(t, k.0, k.1) <==> exists p :: Lasso(t, k, p)
  {
    if Diverges(t, k.0, k.1) {
      var p := LongPath(t, k, |t.slots.Keys|);
      var j := ComesBack(p, t.slots.Keys);
      var q := p[..j + 1];
      assert q[..j] == p[..j];
      forall i | 0 <= i < j ensures Goes(t, q, i) {
        assert Goes(t, p, i);
      }
      assert Lasso(t, k, q);
    }
    if p :| Lasso(t, k, p) {
      var i :| 0 <= i < |p| - 1 && p[i] == p[|p| - 1];
      forall f: nat ensures PlainConst(t, f, k.0, k.1).OutOfFuel? {
        LassoNeverEnds(t, k, p, i, 0, f);
      }
    }
  }

  /** A read reports a self-reference only if a cycle of demands can be reached, and where no scope
      can be lost, if and only if one can. */
  lemma SelfReferenceIffCycle(t: Table, reach: map<Class, set<Class>>, c: Class, n: string, s: State)
    requires Quiet(t, reach, s)
    ensures var o := Read(t, c, n, s).0;
            && (o == Err(SelfReferencing) ==> exists p :: Lasso(t, (c, n), p))
            && (SteadyExprs(t, s.pending) ==> (o == Err(SelfReferencing) <==> exists p :: Lasso(t, (c, n), p)))
  {
    var o := Read(t, c, n, s).0;
    ResolutionIsTransparent(t, reach, c, n, s);
    DivergesIffLasso(t, (c, n));
    if Correct(t, (c, n), o) {
      CorrectIsUnique(t, (c, n), o, Err(SelfReferencing));
    }
  }

  // ----- cycles and their absence, read off the expressions -----

  /** The constants an expression certainly reads when no earlier operand fails. */
  ghost predicate Reaches(t: Table, cur: Class, e: Expr, targets: set<Key>) {
    match e
    case Literal(_) => false
    case Ref(s, n) => ClassOf(t, cur, s).Some? && (ClassOf(t, cur, s).value, n) in targets
    case Op(_, a, b) => Reaches(t, cur, a, targets) || Reaches(t, cur, b, targets)
    case Cond(c, _, _) => Reaches(t, cur, c, targets)
  }

  /** Every constant of the set reads another one of the set. */
  ghost predicate CyclicSet(t: Table, ks: set<Key>) {
    forall k :: k in ks ==> Holds(t, k) && Reaches(t, k.0, EntryAt(t, k).expr, ks)
  }

  /** A constant on a cycle never gets a value: it fails as self-referencing, unless another
      operand failed first. */
  lemma CycleNeverSucceeds(t: Table, reach: map<Class, set<Class>>, ks: set<Key>, c: Class, n: string,
      s: State)
    requires Quiet(t, reach, s) && CyclicSet(t, ks) && (c, n) in ks
    ensures Read(t, c, n, s).0.Err?
  {
    var o := Read(t, c, n, s).0;
    ResolutionIsTransparent(t, reach, c, n, s);
    if o.Ok? {
      var f: nat :| PlainConst(t, f, c, n) == Done(o);
      CycleHasNoValue(t, ks, c, n, f);
    }
  }

  lemma {:induction false} CycleHasNoValue(t: Table, ks: set<Key>, c: Class, n: string, f: nat)
    requires CyclicSet(t, ks) && (c, n) in ks
    ensures !(PlainConst(t, f, c, n).Done? && PlainConst(t, f, c, n).o.Ok?)
    decreases f, 0
  {
    if f > 0 {
      CycleHasNoValueExpr(t, ks, c, t.entries[t.slots[(c, n)]].expr, f - 1);
    }
  }

  lemma {:induction false} CycleHasNoValueExpr(t: Table, ks: set<Key>, cur: Class, e: Expr, f: nat)
    requires CyclicSet(t, ks) && Reaches(t, cur, e, ks)
    ensures !(PlainExpr(t, f, cur, e).Done? && PlainExpr(t, f, cur, e).o.Ok?)
    decreases f, 1, e
  {
    match e
    case Literal(_) =>
    case Ref(s, n) => CycleHasNoValue(t, ks, ClassOf(t, cur, s).value, n, f);
    case Op(_, a, b) =>
      if Reaches(t, cur, a, ks) { CycleHasNoValueExpr(t, ks, cur, a, f); }
      else { CycleHasNoValueExpr(t, ks, cur, b, f); }
    case Cond(c, _, _) => CycleHasNoValueExpr(t, ks, cur, c, f);
  }

  /** All constants an expression mentions, in either branch, have a lower rank. */
  ghost predicate RefsBelow(t: Table, cur: Class, e: Expr, rank: map<Key, nat>, bound: nat) {
    match e
    case Literal(_) => true
    case Ref(s, n) =>
      var c := ClassOf(t, cur, s);
      c.None? || ((c.value, n) in rank && rank[(c.value, n)] < bound)
    case Op(_, a, b) => RefsBelow(t, cur, a, rank, bound) && RefsBelow(t, cur, b, rank, bound)
    case Cond(c, a, b) =>
      RefsBelow(t, cur, c, rank, bound) && RefsBelow(t, cur, a, rank, bound) && RefsBelow(t, cur, b, rank, bound)
  }

  ghost predicate Ranked(t: Table, rank: map<Key, nat>) {
    forall k :: k in rank && Holds(t, k) ==> RefsBelow(t, k.0, EntryAt(t, k).expr, rank, rank[k])
  }

  /** Without a cycle there is never a self-reference error. */
  lemma AcyclicNeverSelfReferences(t: Table, reach: map<Class, set<Class>>, rank: map<Key, nat>, c: Class,
      n: string, s: State)
    requires Quiet(t, reach, s) && Ranked(t, rank) && (c, n) in rank
    ensures Read(t, c, n, s).0 != Err(SelfReferencing)
  {
    ResolutionIsTransparent(t, reach, c, n, s);
    RankedEnds(t, rank, c, n, rank[(c, n)] + 1);
  }

  lemma {:induction false} RankedEnds(t: Table, rank: map<Key, nat>, c: Class, n: string, f: nat)
    requires Ranked(t, rank) && (c, n) in rank && rank[(c, n)] < f
    ensures PlainConst(t, f, c, n).Done?
    decreases f, 0
  {
    if Holds(t, (c, n)) {
      RankedEndsExpr(t, rank, c, t.entries[t.slots[(c, n)]].expr, rank[(c, n)], f - 1);
    }
  }

  lemma {:induction false} RankedEndsExpr(t: Table, rank: map<Key, nat>, cur: Class, e: Expr, bound: nat,
      f: nat)
    requires Ranked(t, rank) && RefsBelow(t, cur, e, rank, bound) && bound <= f
    ensures PlainExpr(t, f, cur, e).Done?
    decreases f, 1, e
  {
    match e
    case Literal(_) =>
    case Ref(s, n) =>
      if ClassOf(t, cur, s).Some? { RankedEnds(t, rank, ClassOf(t, cur, s).value, n, f); }
    case Op(_, a, b) => RankedEndsExpr(t, rank, cur, a, bound, f); RankedEndsExpr(t, rank, cur, b, bound, f);
    case Cond(c, a, b) =>
      RankedEndsExpr(t, rank, cur, c, bound, f);
      RankedEndsExpr(t, rank, cur, a, bound, f);
      RankedEndsExpr(t, rank, cur, b, bound, f);
  }
}
