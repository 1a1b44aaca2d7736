/** Classes are declared in the middle of each other. When a declaration is over its class has all it
    inherits, as long as no class is declared on behalf of one that it extends or implements. */
module ClassLinking {
  import opened Options
  import opened ClassTables
  import opened ClassConstants
  import opened ClassSoundness

  function Mentions(e: Expr): set<Class> {
    match e
    case Literal(_) => {}
    case Ref(s, _) => if s.Named? then {s.c} else {}
    case Op(_, a, b) => Mentions(a) + Mentions(b)
    case Cond(c, a, b) => Mentions(c) + Mentions(a) + Mentions(b)
  }

  /** Every class that a known class extends or implements is known too. */
  ghost predicate Closed(t: Table) {
    forall c, d :: c in t.classes && d in Needs(t, c) ==> d in t.classes
  }

  /** `x` and what its constants mention, and what it extends and implements, is in the set. */
  ghost predicate Within(t: Table, x: Class, set_: set<Class>) {
    && (forall d :: d in Needs(t, x) ==> d in set_)
    && (forall k :: Holds(t, k) && k.0 == x ==> Mentions(EntryAt(t, k).expr) <= set_)
  }

  /** The classes that may be declared while `a` looks up what it extends and implements: none of
      them extends or implements `a`. */
  ghost predicate Untangled(t: Table, reach: map<Class, set<Class>>) {
    forall a :: a in t.classes ==>
      && a in reach
      && (forall d :: d in Needs(t, a) ==> d in reach[a])
      && (forall x :: x in reach[a] && x in t.classes ==> Within(t, x, reach[a]) && a !in Needs(t, x))
  }

  /** The class has all its links and constants. */
  ghost predicate Whole(t: Table, s: State, c: Class) {
    && (forall d :: d in Needs(t, c) ==> (c, d) in s.links)
    && (forall k :: Holds(t, k) && k.0 == c ==> k in s.visible)
  }

  /** Every declared class is whole, except those that are still looking up what they need. */
  ghost predicate WholeBut(t: Table, s: State, open: set<Class>) {
    && s.declared + s.pending == t.classes.Keys && s.declared !! s.pending && open <= s.declared
    && (forall l :: l in s.links ==> l.1 in s.declared)
    && forall c :: c in s.declared && c !in open ==> Whole(t, s, c)
  }

  ghost predicate Grown(s: State, r: State) {
    s.declared <= r.declared && s.links <= r.links && s.visible <= r.visible
  }

  /** All of `xs` may be declared on behalf of the open classes. */
  ghost predicate Inside(reach: map<Class, set<Class>>, open: set<Class>, xs: set<Class>) {
    forall a :: a in open && a in reach ==> xs <= reach[a]
  }

  ghost predicate Ready(t: Table, reach: map<Class, set<Class>>, s: State, open: set<Class>) {
    && Valid(t) && WellScoped(t) && Closed(t) && Untangled(t, reach)
    && Lawful(t, s) && Harmless(t, s) && WholeBut(t, s, open)
  }

  /** What each of the functions below keeps. */
  ghost predicate Goes(t: Table, s: State, r: State, open: set<Class>) {
    Grown(s, r) && WholeBut(t, r, open)
  }

  lemma ReachesOn(t: Table, reach: map<Class, set<Class>>, open: set<Class>, x: Class)
    requires Untangled(t, reach) && open <= t.classes.Keys && x in t.classes && Inside(reach, open, {x})
    ensures forall d :: d in Needs(t, x) ==> Inside(reach, open, {d}) && d !in open
    ensures forall k :: Holds(t, k) && k.0 == x ==> Inside(reach, open, Mentions(EntryAt(t, k).expr))
  {
    forall a | a in open ensures Within(t, x, reach[a]) && a !in Needs(t, x) {
      assert {x} <= reach[a] && x in {x};
    }
  }

  lemma {:induction false} EvalConstGoes(t: Table, reach: map<Class, set<Class>>, c: Class, n: string, s: State,
      open: set<Class>)
    requires Ready(t, reach, s, open) && c in t.classes && Inside(reach, open, {c})
    requires s.caller.None? || SteadyExprs(t, s.pending)
    ensures Goes(t, s, EvalConst(t, c, n, s).1, open)
    decreases s.pending, t.entries.Keys - s.resolving, 1
  {
    if Find(t, s, (c, n)).Some? {
      var h := FoundHolder(t, s, (c, n));
      if t.slots[h] !in s.memo && t.slots[h] !in s.resolving {
        EntryGoes(t, reach, (c, n), h, s, s.(resolving := s.resolving + {t.slots[h]}, compiling := Some(c)), open);
      }
    }
  }

  lemma {:induction false} EntryGoes(t: Table, reach: map<Class, set<Class>>, k: (Class, string), h: (Class, string),
      s: State, s1: State, open: set<Class>)
    requires Ready(t, reach, s, open) && Holds(t, k) && Holds(t, h) && Inside(reach, open, {k.0})
    requires s.caller.None? || SteadyExprs(t, s.pending)
    requires Find(t, s, k) == Some(t.slots[h]) && EntryAt(t, k).expr == EntryAt(t, h).expr
    requires t.slots[h] !in s.memo && t.slots[h] !in s.resolving
    requires s1 == s.(resolving := s.resolving + {t.slots[h]}, compiling := Some(k.0))
    ensures Goes(t, s, EvalConst(t, k.0, k.1, s).1, open)
    decreases s.pending, t.entries.Keys - s.resolving, 0
  {
    var e := EntryAt(t, h).expr;
    assert Inside(reach, open, Mentions(e)) by { ReachesOn(t, reach, open, k.0); }
    assert WholeBut(t, s1, open) by { SameWhole(t, s, s1, open); }
    assert Goes(t, s1, EvalExpr(t, e, s1).1, open) by { EvalExprGoes(t, reach, k.0, e, s1, open); }
    ResolvingGoes(t, k, t.slots[h], s, s1, EvalExpr(t, e, s1), open);
  }

  lemma SameWhole(t: Table, s: State, r: State, open: set<Class>)
    requires WholeBut(t, s, open)
    requires s.declared == r.declared && s.pending == r.pending && s.links == r.links && s.visible == r.visible
    ensures WholeBut(t, r, open)
  {
    forall c | c in r.declared && c !in open ensures Whole(t, r, c) {
      assert Whole(t, s, c);
    }
  }

  lemma ResolvingGoes(t: Table, k: (Class, string), id: Id, s: State, s1: State, r: (Outcome, State), open: set<Class>)
    requires Find(t, s, k) == Some(id) && id in t.entries && id !in s.memo && id !in s.resolving
    requires s1 == s.(resolving := s.resolving + {id}, compiling := Some(k.0))
    requires r == EvalExpr(t, t.entries[id].expr, s1) && Goes(t, s1, r.1, open)
    ensures Goes(t, s, EvalConst(t, k.0, k.1, s).1, open)
  {
    assert k == (k.0, k.1);
    SameWhole(t, r.1, EvalConst(t, k.0, k.1, s).1, open);
  }

  lemma {:induction false} EvalExprGoes(t: Table, reach: map<Class, set<Class>>, cur: Class, e: Expr, s: State,
      open: set<Class>)
    requires Ready(t, reach, s, open) && Placed(s, cur, e) && cur in t.classes
    requires Inside(reach, open, {cur}) && Inside(reach, open, Mentions(e))
    ensures Goes(t, s, EvalExpr(t, e, s).1, open)
    decreases s.pending, t.entries.Keys - s.resolving, 2, e, 1
  {
    match e
    case Literal(_) =>
    case Ref(_, _) => RefGoes(t, reach, cur, e, s, open);
    case Op(_, a, b) => BothGo(t, reach, cur, e, a, b, s, open);
    case Cond(c, yes, no) =>
      var x := EvalExpr(t, c, s).0;
      BothGo(t, reach, cur, e, c, if x.Ok? && !t.truthy(x.v) then no else yes, s, open);
  }

  lemma {:induction false} RefGoes(t: Table, reach: map<Class, set<Class>>, cur: Class, e: Expr, s: State,
      open: set<Class>)
    requires Ready(t, reach, s, open) && Placed(s, cur, e) && cur in t.classes && e.Ref?
    requires Inside(reach, open, {cur}) && Inside(reach, open, Mentions(e))
    ensures Goes(t, s, EvalExpr(t, e, s).1, open)
    decreases s.pending, t.entries.Keys - s.resolving, 2, e, 0
  {
    LookUpRight(t, cur, e.scope, s);
    LookUpGoes(t, reach, cur, e.scope, s, open);
    var (f, s1) := LookUp(t, e.scope, s);
    if f.Found? {
      EvalConstGoes(t, reach, f.c, e.name, s1, open);
    }
  }

  /** The two operands of `e` that are evaluated, one after the other. */
  lemma {:induction false} BothGo(t: Table, reach: map<Class, set<Class>>, cur: Class, e: Expr, a: Expr, b: Expr,
      s: State, open: set<Class>)
    requires Ready(t, reach, s, open) && Placed(s, cur, e) && cur in t.classes
    requires Inside(reach, open, {cur}) && Inside(reach, open, Mentions(e))
    requires (e.Op? && a == e.a && b == e.b) || (e.Cond? && a == e.test && (b == e.yes || b == e.no))
    ensures var (x, s1) := EvalExpr(t, a, s);
            Goes(t, s, s1, open) && (x.Ok? ==> Goes(t, s1, EvalExpr(t, b, s1).1, open))
    decreases s.pending, t.entries.Keys - s.resolving, 2, e, 0
  {
    assert Inside(reach, open, Mentions(a)) && Inside(reach, open, Mentions(b)) && Placed(s, cur, a) by {
      OperandsInside(reach, open, s, cur, e, a, b);
    }
    EvalExprGoes(t, reach, cur, a, s, open);
    if EvalExpr(t, a, s).0.Ok? {
      assert ThenReady(t, reach, cur, b, EvalExpr(t, a, s).1, open) by { NextIsReady(t, reach, cur, a, b, s, open); }
      EvalExprGoes(t, reach, cur, b, EvalExpr(t, a, s).1, open);
    }
  }

  lemma OperandsInside(reach: map<Class, set<Class>>, open: set<Class>, s: State, cur: Class, e: Expr, a: Expr, b: Expr)
    requires Inside(reach, open, Mentions(e)) && Placed(s, cur, e)
    requires (e.Op? && a == e.a && b == e.b) || (e.Cond? && a == e.test && (b == e.yes || b == e.no))
    ensures Inside(reach, open, Mentions(a)) && Inside(reach, open, Mentions(b)) && Placed(s, cur, a)
  {
  }

  ghost predicate ThenReady(t: Table, reach: map<Class, set<Class>>, cur: Class, e: Expr, s: State, open: set<Class>) {
    Ready(t, reach, s, open) && Placed(s, cur, e)
  }

  /** After the first operand the second can be evaluated. */
  lemma NextIsReady(t: Table, reach: map<Class, set<Class>>, cur: Class, a: Expr, b: Expr, s: State, open: set<Class>)
    requires Ready(t, reach, s, open) && Placed(s, cur, a) && cur in t.classes
    requires s.caller.None? || (Steady(b, s.pending) && (s.compiling.None? ==> Scopeless(b)))
    requires s.caller.None? || (MayDeclare(a, s.pending) ==> Scopeless(b))
    requires WholeBut(t, EvalExpr(t, a, s).1, open)
    ensures ThenReady(t, reach, cur, b, EvalExpr(t, a, s).1, open)
  {
    EvalExprRight(t, cur, a, s);
    FewerDeclare(b, s.pending, EvalExpr(t, a, s).1.pending);
  }

  lemma {:induction false} LookUpGoes(t: Table, reach: map<Class, set<Class>>, cur: Class, scope: Scope, s: State,
      open: set<Class>)
    requires Ready(t, reach, s, open) && cur in t.classes
    requires scope.Named? || s.compiling == Some(cur) || (s.compiling.None? && s.caller.None?)
    requires Inside(reach, open, {if scope.Named? then scope.c else cur})
    ensures var (f, r) := LookUp(t, scope, s);
            && Goes(t, s, r, open)
            && (f.Found? ==> Inside(reach, open, {f.c}))
            && (scope.Named? && scope.c in t.classes ==> f == Found(scope.c) && scope.c in r.declared)
    decreases s.pending, t.entries.Keys - s.resolving, 1
  {
    match scope
    case Self =>
    case Parent =>
      var f := LookUp(t, scope, s).0;
      if f.Found? {
        assert f.c in Needs(t, cur);
        ReachesOn(t, reach, open, cur);
      }
    case Named(c) =>
      if c !in s.declared && c in s.pending {
        DeclareGoes(t, reach, c, s, open);
      }
  }

  lemma {:induction false} DeclareGoes(t: Table, reach: map<Class, set<Class>>, c: Class, s: State, open: set<Class>)
    requires Ready(t, reach, s, open) && c in s.pending && Inside(reach, open, {c})
    ensures var (e, r) := Declare(t, c, s); e.None? && c in r.declared && Goes(t, s, r, open)
    decreases s.pending, t.entries.Keys - s.resolving, 0
  {
    var s1, s2 := Register(t, c, s), LinkAll(t, c, Needs(t, c), Register(t, c, s)).1;
    assert Ready(t, reach, s1, open + {c}) && Linked(t, s1, c, {}) && Apart(t, reach, c, open) by {
      RegisteredIsReady(t, reach, c, s, open);
    }
    LinkAllGoes(t, reach, c, s1, open);
    assert Ready(t, reach, s2, open) && PassIsPlaced(t, c, s, s2) by { LinkedIsReady(t, reach, c, s, s1, s2, open); }
    PassGoes(t, reach, c, Order(t, c), s2, NeedsPending(t, c, s), open);
    DeclareEnds(t, c, s, s2, open);
  }

  lemma DeclareEnds(t: Table, c: Class, s: State, s2: State, open: set<Class>)
    requires c in s.pending && LinkAll(t, c, Needs(t, c), Register(t, c, s)) == (None, s2)
    requires Goes(t, s2, Pass(t, c, Order(t, c), s2), open) && Grown(s, s2) && c in s2.declared
    ensures var (e, r) := Declare(t, c, s); e.None? && c in r.declared && Goes(t, s, r, open)
  {
    SameWhole(t, Pass(t, c, Order(t, c), s2), Declare(t, c, s).1, open);
  }

  predicate NeedsPending(t: Table, c: Class, s: State) {
    exists d :: d in Needs(t, c) && d in s.pending
  }

  /** The pass can start, with the compiling class lost or not. */
  predicate PassIsPlaced(t: Table, c: Class, s: State, s2: State) {
    && (s2.compiling == Some(c) || (s2.compiling.None? && NeedsPending(t, c, s)))
    && (s2.caller.None? || SteadyPass(t, c, Order(t, c), s2.pending, NeedsPending(t, c, s)))
  }

  lemma RegisteredIsReady(t: Table, reach: map<Class, set<Class>>, c: Class, s: State, open: set<Class>)
    requires Ready(t, reach, s, open) && c in s.pending && Inside(reach, open, {c})
    ensures var s1 := Register(t, c, s);
            Ready(t, reach, s1, open + {c}) && Linked(t, s1, c, {}) && Apart(t, reach, c, open) && Grown(s, s1)
  {
    RegisteredIsOpen(t, c, s, open);
    FewerAllSteady(t, s.pending, Register(t, c, s).pending);
    NeedsAreApart(t, reach, c, s, open);
  }

  lemma LinkedIsReady(t: Table, reach: map<Class, set<Class>>, c: Class, s: State, s1: State, s2: State,
      open: set<Class>)
    requires Ready(t, reach, s, open) && Ready(t, reach, s1, open + {c}) && c in s.pending
    requires s1 == Register(t, c, s) && s2 == LinkAll(t, c, Needs(t, c), s1).1
    requires WholeBut(t, s2, open + {c}) && Linked(t, s2, c, set d | d in Needs(t, c))
    ensures Ready(t, reach, s2, open) && PassIsPlaced(t, c, s, s2)
  {
    LinkAllRight(t, c, Needs(t, c), s1);
    LinkedIsWhole(t, c, s, s2, open);
    if s.caller.Some? {
      FewerSteadyPass(t, c, Order(t, c), s.pending, s2.pending, NeedsPending(t, c, s), NeedsPending(t, c, s));
    }
  }

  lemma RegisteredIsOpen(t: Table, c: Class, s: State, open: set<Class>)
    requires WholeBut(t, s, open) && c in s.pending
    ensures var r := Register(t, c, s); WholeBut(t, r, open + {c}) && Grown(s, r)
    ensures Linked(t, Register(t, c, s), c, {})
  {
    var r := Register(t, c, s);
    forall x | x in r.declared && x !in open + {c} ensures Whole(t, r, x) {
      assert Whole(t, s, x);
    }
  }

  /** The class is linked to those in `done`, and has its own constants and what it has from them. */
  ghost predicate Linked(t: Table, s: State, c: Class, done: set<Class>) {
    && (forall d :: d in done ==> (c, d) in s.links)
    && (forall k :: Holds(t, k) && k.0 == c && (Via(t, k) == c || Via(t, k) in done) ==> k in s.visible)
  }

  /** What `c` needs is known and not open, and may be declared on behalf of `c` and of the open classes. */
  ghost predicate Apart(t: Table, reach: map<Class, set<Class>>, c: Class, open: set<Class>) {
    forall d :: d in Needs(t, c) ==> d in t.classes && d !in open + {c} && Inside(reach, open + {c}, {d})
  }

  lemma NeedsAreApart(t: Table, reach: map<Class, set<Class>>, c: Class, s: State, open: set<Class>)
    requires Ready(t, reach, s, open) && c in s.pending && Inside(reach, open, {c})
    ensures Apart(t, reach, c, open)
  {
    ReachesOn(t, reach, open, c);
    forall d | d in Needs(t, c) ensures d != c && d in t.classes && Inside(reach, open + {c}, {d}) {
      assert d in reach[c] && c !in Needs(t, d);
    }
  }

  lemma LinkedIsWhole(t: Table, c: Class, s: State, r: State, open: set<Class>)
    requires Valid(t) && WholeBut(t, s, open) && c in s.pending && WholeBut(t, r, open + {c})
    requires Linked(t, r, c, set d | d in Needs(t, c))
    ensures WholeBut(t, r, open)
  {
    forall k | Holds(t, k) && k.0 == c ensures k in r.visible {
      assert Via(t, k) == c || Inherits(t, k);
    }
    forall x | x in r.declared && x !in open ensures Whole(t, r, x) {
    }
  }

  lemma {:induction false} LinkAllGoes(t: Table, reach: map<Class, set<Class>>, c: Class, s: State, open: set<Class>)
    requires Ready(t, reach, s, open + {c}) && Linked(t, s, c, {}) && Apart(t, reach, c, open)
    ensures var (e, r) := LinkAll(t, c, Needs(t, c), s);
            e.None? && Goes(t, s, r, open + {c}) && Linked(t, r, c, set d | d in Needs(t, c))
    decreases s.pending, t.entries.Keys - s.resolving, 3
  {
    var good := (r: State, done: set<Class>) => Linking(t, reach, c, s, open, r, done);
    forall r, done, d | good(r, done) && d in Needs(t, c) ensures LinksOn(t, c, d, r, done, good) {
      OneLinkKeeps(t, reach, c, d, s, open, r, done);
    }
    assert good(s, {});
    LinkAllSteps(t, c, Needs(t, c), {}, s, good);
  }

  /** Where the lookups of `c`, begun in `s`, have come to. */
  ghost predicate Linking(t: Table, reach: map<Class, set<Class>>, c: Class, s: State, open: set<Class>, r: State,
      done: set<Class>) {
    Ready(t, reach, r, open + {c}) && Linked(t, r, c, done) && Grown(s, r) && Later(s, r)
  }

  lemma {:induction false} OneLinkKeeps(t: Table, reach: map<Class, set<Class>>, c: Class, d: Class, s: State,
      open: set<Class>, r: State, done: set<Class>)
    requires Linking(t, reach, c, s, open, r, done) && Apart(t, reach, c, open) && d in Needs(t, c)
    ensures var (f, r1) := LookUp(t, Named(d), r);
            f == Found(d) && Linking(t, reach, c, s, open, Link(t, c, d, r1), done + {d})
    decreases s.pending, t.entries.Keys - s.resolving, 2, 1
  {
    var r2 := OneLinkGoes(t, reach, c, d, done, r, open);
  }

  /** One more class is found and linked. */
  ghost predicate LinksOn(t: Table, c: Class, d: Class, r: State, done: set<Class>, good: (State, set<Class>) -> bool) {
    var (f, r1) := LookUp(t, Named(d), r);
    f == Found(d) && good(Link(t, c, d, r1), done + {d})
  }

  lemma {:induction false} LinkAllSteps(t: Table, c: Class, ds: seq<Class>, done: set<Class>, s: State,
      good: (State, set<Class>) -> bool)
    requires good(s, done)
    requires forall r, did, d {:trigger LinksOn(t, c, d, r, did, good)} :: good(r, did) && d in ds ==>
      LinksOn(t, c, d, r, did, good)
    ensures var (e, r) := LinkAll(t, c, ds, s); e.None? && good(r, done + set d | d in ds)
    decreases |ds|
  {
    if ds == [] {
      assert done + (set d | d in ds) == done;
    } else {
      assert LinksOn(t, c, ds[0], s, done, good);
      LinkAllSteps(t, c, ds[1..], done + {ds[0]}, Link(t, c, ds[0], LookUp(t, Named(ds[0]), s).1), good);
      assert done + {ds[0]} + (set x | x in ds[1..]) == done + set x | x in ds;
    }
  }

  lemma {:induction false} OneLinkGoes(t: Table, reach: map<Class, set<Class>>, c: Class, d: Class,
      done: set<Class>, s: State, open: set<Class>) returns (s2: State)
    requires Ready(t, reach, s, open + {c}) && Linked(t, s, c, done) && Apart(t, reach, c, open)
    requires d in Needs(t, c)
    ensures var (f, s1) := LookUp(t, Named(d), s); f == Found(d) && s2 == Link(t, c, d, s1) && Later(s, s2)
    ensures Goes(t, s, s2, open + {c}) && Linked(t, s2, c, done + {d})
    ensures Lawful(t, s2) && Harmless(t, s2)
    decreases s.pending, t.entries.Keys - s.resolving, 2, 0
  {
    assert c in t.classes && d in t.classes;
    LookUpGoes(t, reach, c, Named(d), s, open + {c});
    LookUpRight(t, c, Named(d), s);
    var s1 := LookUp(t, Named(d), s).1;
    s2 := Link(t, c, d, s1);
    LinkGoes(t, c, d, done, s, s1, open + {c});
    LinkRight(t, c, d, s1);
  }

  lemma LinkGoes(t: Table, c: Class, d: Class, done: set<Class>, s: State, s1: State, open: set<Class>)
    requires Valid(t) && Linked(t, s, c, done) && Goes(t, s, s1, open) && d in s1.declared && d !in open
    ensures var s2 := Link(t, c, d, s1); Linked(t, s2, c, done + {d}) && Goes(t, s1, s2, open)
  {
    var s2 := Link(t, c, d, s1);
    forall x | x in s2.declared && x !in open ensures Whole(t, s2, x) {
      assert Whole(t, s1, x);
    }
    forall k | Holds(t, k) && k.0 == c && (Via(t, k) == c || Via(t, k) in done + {d}) ensures k in s2.visible {
      if Via(t, k) == d && d != c {
        assert Inherits(t, k) && Whole(t, s1, d);
        assert Holds(t, Origin(t, k));
        assert k in Taken(t, c, d, s1);
      }
    }
  }

  lemma {:induction false} PassGoes(t: Table, reach: map<Class, set<Class>>, c: Class, names: seq<string>, s: State,
      lost: bool, open: set<Class>)
    requires Ready(t, reach, s, open) && c in t.classes && Inside(reach, open, {c})
    requires s.compiling == Some(c) || (s.compiling.None? && lost)
    requires s.caller.None? || SteadyPass(t, c, names, s.pending, lost)
    ensures Goes(t, s, Pass(t, c, names, s), open)
    decreases s.pending, t.entries.Keys - s.resolving, 4, |names|
  {
    if names != [] {
      var k := (c, names[0]);
      if k !in s.visible || k !in t.slots || t.slots[k] in s.memo || t.slots[k] !in t.entries {
        if s.caller.Some? && Holds(t, k) {
          var more := lost || MayDeclare(EntryAt(t, k).expr, s.pending);
          FewerSteadyPass(t, c, names[1..], s.pending, s.pending, more, lost);
        }
        PassGoes(t, reach, c, names[1..], s, lost, open);
      } else {
        var e := EntryAt(t, k).expr;
        assert Inside(reach, open, Mentions(e)) by { ReachesOn(t, reach, open, c); }
        EvalExprGoes(t, reach, c, e, s, open);
        var more := lost || MayDeclare(e, s.pending);
        var s2 := Settled(t.slots[k], EvalExpr(t, e, s).0, EvalExpr(t, e, s).1);
        PassIsReady(t, reach, c, names, s, s2, lost, open);
        PassGoes(t, reach, c, names[1..], s2, more, open);
      }
    }
  }

  /** Behind the first constant the pass can go on. */
  lemma PassIsReady(t: Table, reach: map<Class, set<Class>>, c: Class, names: seq<string>, s: State, s2: State,
      lost: bool, open: set<Class>)
    requires Ready(t, reach, s, open) && names != [] && Holds(t, (c, names[0]))
    requires s.compiling == Some(c) || (s.compiling.None? && lost)
    requires s.caller.None? || SteadyPass(t, c, names, s.pending, lost)
    requires var k := (c, names[0]);
             var (o, s1) := EvalExpr(t, EntryAt(t, k).expr, s);
             s2 == Settled(t.slots[k], o, s1) && WholeBut(t, s1, open)
    ensures var more := lost || MayDeclare(EntryAt(t, (c, names[0])).expr, s.pending);
            && Ready(t, reach, s2, open) && Later(s, s2)
            && (s2.compiling == Some(c) || (s2.compiling.None? && more))
            && (s2.caller.None? || SteadyPass(t, c, names[1..], s2.pending, more))
  {
    var k := (c, names[0]);
    var e := EntryAt(t, k).expr;
    EvalExprRight(t, c, e, s);
    var (o, s1) := EvalExpr(t, e, s);
    SettledIsLawful(t, k, o, s1);
    SameWhole(t, s1, s2, open);
    if s.caller.Some? {
      var more := lost || MayDeclare(e, s.pending);
      FewerSteadyPass(t, c, names[1..], s.pending, s1.pending, more, more);
    }
  }

  lemma SettledIsLawful(t: Table, k: (Class, string), o: Outcome, s: State)
    requires Valid(t) && WellScoped(t) && Lawful(t, s) && Holds(t, k) && Right(t, k.0, EntryAt(t, k).expr, o)
    ensures Lawful(t, Settled(t.slots[k], o, s))
  {
    if o.Ok? {
      ValueStands(t, k, o.v);
      StoreKeepsSound(t, s.memo, k, o.v);
    }
  }
}
