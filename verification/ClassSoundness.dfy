/** Whatever is declared or read in the middle of what else, a resolved value is the one its constant
    means, as long as `self` is never read against the class of another running function. */
module ClassSoundness {
  import opened Options
  import opened ConstHints
  import opened ClassTables
  import opened ClassConstants

  // ----- where the compiling class may be lost -----

  /** Evaluating `e` may declare a class, and so lose the compiling class. */
  predicate MayDeclare(e: Expr, pending: set<Class>) {
    match e
    case Literal(_) => false
    case Ref(s, _) => s.Named? && s.c in pending
    case Op(_, a, b) => MayDeclare(a, pending) || MayDeclare(b, pending)
    case Cond(c, a, b) => MayDeclare(c, pending) || MayDeclare(a, pending) || MayDeclare(b, pending)
  }

  /** `e` mentions neither `self` nor `parent`. */
  predicate Scopeless(e: Expr) {
    match e
    case Literal(_) => true
    case Ref(s, _) => s.Named?
    case Op(_, a, b) => Scopeless(a) && Scopeless(b)
    case Cond(c, a, b) => Scopeless(c) && Scopeless(a) && Scopeless(b)
  }

  /** No `self` or `parent` is evaluated behind a mention of a class that is not declared yet. */
  predicate Steady(e: Expr, pending: set<Class>) {
    match e
    case Literal(_) => true
    case Ref(_, _) => true
    case Op(_, a, b) => Steady(a, pending) && Steady(b, pending) && (MayDeclare(a, pending) ==> Scopeless(b))
    case Cond(c, a, b) =>
      && Steady(c, pending) && Steady(a, pending) && Steady(b, pending)
      && (MayDeclare(c, pending) ==> Scopeless(a) && Scopeless(b))
  }

  /** The same along the pass over a class, from a point where the compiling class may be lost. */
  predicate SteadyPass(t: Table, c: Class, names: seq<string>, pending: set<Class>, lost: bool)
    decreases names
  {
    if names == [] then true
    else if !Holds(t, (c, names[0])) then SteadyPass(t, c, names[1..], pending, lost)
    else
      var e := EntryAt(t, (c, names[0])).expr;
      Steady(e, pending) && (lost ==> Scopeless(e))
      && SteadyPass(t, c, names[1..], pending, lost || MayDeclare(e, pending))
  }

  predicate SteadyClass(t: Table, c: Class, pending: set<Class>) {
    SteadyPass(t, c, Order(t, c), pending, exists d :: d in Needs(t, c) && d in pending)
  }

  ghost predicate SteadyExprs(t: Table, pending: set<Class>) {
    forall k :: Holds(t, k) ==> Steady(EntryAt(t, k).expr, pending)
  }

  /** Every class that a pass or an expression mentions before a `self` or `parent`, and every class
      that one with a `self` or `parent` extends or implements, is declared before it. */
  ghost predicate AllSteady(t: Table, pending: set<Class>) {
    SteadyExprs(t, pending) && forall c :: c in pending ==> SteadyClass(t, c, pending)
  }

  /** No other class can be taken for the compiling one: outside of classes `self` fails instead. */
  ghost predicate Harmless(t: Table, s: State) {
    s.caller.None? || AllSteady(t, s.pending)
  }

  lemma {:induction false} FewerDeclare(e: Expr, pending: set<Class>, fewer: set<Class>)
    requires fewer <= pending
    ensures MayDeclare(e, fewer) ==> MayDeclare(e, pending)
    ensures Steady(e, pending) ==> Steady(e, fewer)
  {
    match e
    case Literal(_) =>
    case Ref(_, _) =>
    case Op(_, a, b) => FewerDeclare(a, pending, fewer); FewerDeclare(b, pending, fewer);
    case Cond(c, a, b) =>
      FewerDeclare(c, pending, fewer);
      FewerDeclare(a, pending, fewer);
      FewerDeclare(b, pending, fewer);
  }

  lemma {:induction false} FewerSteadyPass(t: Table, c: Class, names: seq<string>, pending: set<Class>,
      fewer: set<Class>, lost: bool, less: bool)
    requires fewer <= pending && (less ==> lost) && SteadyPass(t, c, names, pending, lost)
    ensures SteadyPass(t, c, names, fewer, less)
    decreases names
  {
    if names != [] {
      if !Holds(t, (c, names[0])) {
        FewerSteadyPass(t, c, names[1..], pending, fewer, lost, less);
      } else {
        var e := EntryAt(t, (c, names[0])).expr;
        FewerDeclare(e, pending, fewer);
        FewerSteadyPass(t, c, names[1..], pending, fewer, lost || MayDeclare(e, pending),
          less || MayDeclare(e, fewer));
      }
    }
  }

  lemma FewerAllSteady(t: Table, pending: set<Class>, fewer: set<Class>)
    requires fewer <= pending
    ensures SteadyExprs(t, pending) ==> SteadyExprs(t, fewer)
    ensures AllSteady(t, pending) ==> AllSteady(t, fewer)
  {
    if SteadyExprs(t, pending) {
      forall k | Holds(t, k) ensures Steady(EntryAt(t, k).expr, fewer) {
        FewerDeclare(EntryAt(t, k).expr, pending, fewer);
      }
    }
    if AllSteady(t, pending) {
      forall c | c in fewer ensures SteadyClass(t, c, fewer) {
        FewerSteadyPass(t, c, Order(t, c), pending, fewer, exists d :: d in Needs(t, c) && d in pending,
          exists d :: d in Needs(t, c) && d in fewer);
      }
    }
  }

  /** `e` is evaluated for class `cur`, if need be without a compiling class. */
  ghost predicate Placed(s: State, cur: Class, e: Expr) {
    && (s.compiling == Some(cur) || (s.compiling.None? && (s.caller.None? || Scopeless(e))))
    && (s.caller.None? || Steady(e, s.pending))
  }

  // ----- the cache -----

  /** `u` is what the expression of `k` means, before or after coercion to its hint. */
  ghost predicate Stands(t: Table, k: (Class, string), u: Val)
    requires Holds(t, k)
  {
    var entry := EntryAt(t, k);
    exists f: nat, v :: PlainExpr(t, f, k.0, entry.expr) == Done(Ok(v)) && Typed(u, entry.hint) == Typed(v, entry.hint)
  }

  /** Every cached value stands for each constant that holds it: reads store coerced values,
      declarations store them as they are. */
  ghost predicate Sound(t: Table, memo: map<Id, Val>) {
    && (forall id :: id in memo ==> exists k :: Holds(t, k) && t.slots[k] == id)
    && forall k :: Holds(t, k) && t.slots[k] in memo ==> Stands(t, k, memo[t.slots[k]])
  }

  /** The classes are known ones, and links and constants are those of the table. */
  ghost predicate Lawful(t: Table, s: State) {
    && s.declared <= t.classes.Keys && s.pending <= t.classes.Keys
    && (forall l :: l in s.links ==> l.0 in t.classes && l.1 in t.classes && l.1 in Needs(t, l.0))
    && (forall k :: k in s.visible ==> Holds(t, k))
    && Sound(t, s.memo)
  }

  lemma TypedTwice(t: Table, id: Id, v: Val)
    requires Valid(t) && id in t.entries && Typed(v, t.entries[id].hint).Ok?
    ensures var o := Typed(v, t.entries[id].hint); Typed(o.v, t.entries[id].hint) == o
  {
    if t.entries[id].hint.Some? {
      CoerceIdempotent(v, t.entries[id].hint.value);
    }
  }

  lemma CachedMeans(t: Table, memo: map<Id, Val>, k: (Class, string))
    requires Sound(t, memo) && Holds(t, k) && t.slots[k] in memo
    ensures Means(t, k.0, k.1, Typed(memo[t.slots[k]], EntryAt(t, k).hint))
  {
    var entry, u := EntryAt(t, k), memo[t.slots[k]];
    assert Stands(t, k, u);
    var f: nat, v :| PlainExpr(t, f, k.0, entry.expr) == Done(Ok(v)) && Typed(u, entry.hint) == Typed(v, entry.hint);
    ConstMeans(t, k, Ok(v));
  }

  /** A value that stands for one holder of an entry stands for all. */
  lemma SharersStand(t: Table, k: (Class, string), l: (Class, string), u: Val)
    requires Valid(t) && WellScoped(t) && Holds(t, k) && Holds(t, l) && t.slots[k] == t.slots[l]
    requires Stands(t, k, u)
    ensures Stands(t, l, u)
  {
    var entry := EntryAt(t, k);
    var f: nat, v :| PlainExpr(t, f, k.0, entry.expr) == Done(Ok(v)) && Typed(u, entry.hint) == Typed(v, entry.hint);
    SharedExprMeaning(t, f, k.0, l.0, entry.expr);
  }

  lemma OriginStands(t: Table, k: (Class, string), u: Val)
    requires Valid(t) && WellScoped(t) && Holds(t, k) && Via(t, k) in t.classes
    ensures Holds(t, Origin(t, k)) && (Stands(t, k, u) <==> Stands(t, Origin(t, k), u))
  {
    OriginMeaning(t, 0, k);
    forall f: nat ensures PlainExpr(t, f, k.0, EntryAt(t, k).expr) == PlainExpr(t, f, Via(t, k), EntryAt(t, k).expr) {
      OriginMeaning(t, f, k);
    }
  }

  lemma StoreKeepsSound(t: Table, memo: map<Id, Val>, k: (Class, string), u: Val)
    requires Valid(t) && WellScoped(t) && Sound(t, memo) && Holds(t, k) && Stands(t, k, u)
    ensures Sound(t, memo[t.slots[k] := u])
  {
    forall l | Holds(t, l) && t.slots[l] == t.slots[k] ensures Stands(t, l, u) {
      SharersStand(t, k, l, u);
    }
  }

  /** The entry found for a constant belongs to it or to the holder it will come from. */
  lemma FoundHolder(t: Table, s: State, k: (Class, string)) returns (h: (Class, string))
    requires Valid(t) && WellScoped(t) && Lawful(t, s) && k.0 in t.classes && Find(t, s, k).Some?
    ensures Holds(t, k) && Holds(t, h) && t.slots[h] == Find(t, s, k).value && h in s.visible
    ensures EntryAt(t, h).expr == EntryAt(t, k).expr && EntryAt(t, h).hint == EntryAt(t, k).hint
    ensures forall u :: Stands(t, k, u) <==> Stands(t, h, u)
  {
    if k in s.visible {
      h := k;
    } else {
      h := Origin(t, k);
      assert (k.0, Via(t, k)) in s.links;
      OriginMeaning(t, 0, k);
      forall u ensures Stands(t, k, u) <==> Stands(t, h, u) {
        OriginStands(t, k, u);
      }
    }
  }

  // ----- resolved values are right -----

  /** A value is the meaning of the expression; an error may come of things not being there yet. */
  ghost predicate Right(t: Table, cur: Class, e: Expr, o: Outcome) {
    o.Ok? ==> ExprMeans(t, cur, e, o)
  }

  ghost predicate Kept(t: Table, s: State, r: State) {
    Later(s, r) && Lawful(t, r) && Harmless(t, r)
  }

  lemma StaysHarmless(t: Table, s: State, r: State)
    requires Later(s, r) && Harmless(t, s)
    ensures Harmless(t, r)
  {
    FewerAllSteady(t, s.pending, r.pending);
  }

  lemma {:induction false} EvalConstRight(t: Table, c: Class, n: string, s: State)
    requires Valid(t) && WellScoped(t) && Lawful(t, s) && Harmless(t, s) && c in t.classes
    requires s.caller.None? || SteadyExprs(t, s.pending)
    ensures var (o, r) := EvalConst(t, c, n, s); Kept(t, s, r) && (o.Ok? ==> Means(t, c, n, o))
    decreases s.pending, t.entries.Keys - s.resolving, 1
  {
    var k := (c, n);
    StaysHarmless(t, s, EvalConst(t, c, n, s).1);
    if Find(t, s, k).Some? {
      var h := FoundHolder(t, s, k);
      var id, entry := t.slots[h], EntryAt(t, h);
      if id in s.memo {
        assert Stands(t, h, s.memo[id]);
        FoundMeans(t, k, s.memo[id]);
      } else if id !in s.resolving {
        var s1 := s.(resolving := s.resolving + {id}, compiling := Some(c));
        EvalExprRight(t, c, entry.expr, s1);
        var (o, s2) := EvalExpr(t, entry.expr, s1);
        ResolvedIsRight(t, k, h, o, s2.(resolving := s.resolving, compiling := s.compiling));
      }
    }
  }

  lemma FoundMeans(t: Table, k: (Class, string), u: Val)
    requires Holds(t, k) && Stands(t, k, u)
    ensures Means(t, k.0, k.1, Typed(u, EntryAt(t, k).hint))
  {
    var entry := EntryAt(t, k);
    var f: nat, v :| PlainExpr(t, f, k.0, entry.expr) == Done(Ok(v)) && Typed(u, entry.hint) == Typed(v, entry.hint);
    ConstMeans(t, k, Ok(v));
  }

  lemma ValueStands(t: Table, k: (Class, string), v: Val)
    requires Valid(t) && Holds(t, k) && ExprMeans(t, k.0, EntryAt(t, k).expr, Ok(v))
    ensures Stands(t, k, v)
    ensures var o := Typed(v, EntryAt(t, k).hint); o.Ok? ==> Stands(t, k, o.v)
  {
    var f: nat :| PlainExpr(t, f, k.0, EntryAt(t, k).expr) == Done(Ok(v));
    var o := Typed(v, EntryAt(t, k).hint);
    if o.Ok? { TypedTwice(t, t.slots[k], v); }
  }

  lemma ResolvedIsRight(t: Table, k: (Class, string), h: (Class, string), o: Outcome, s: State)
    requires Valid(t) && WellScoped(t) && Lawful(t, s) && Holds(t, k) && Holds(t, h)
    requires EntryAt(t, h).expr == EntryAt(t, k).expr && EntryAt(t, h).hint == EntryAt(t, k).hint
    requires forall u :: Stands(t, k, u) <==> Stands(t, h, u)
    requires Right(t, k.0, EntryAt(t, k).expr, o)
    ensures var (r, s') := Finish(t.slots[h], EntryAt(t, h), o, s);
            Lawful(t, s') && (r.Ok? ==> Means(t, k.0, k.1, r))
  {
    if o.Ok? {
      ValueStands(t, k, o.v);
      ConstMeans(t, k, o);
      var w := Typed(o.v, EntryAt(t, h).hint);
      if w.Ok? {
        StoreKeepsSound(t, s.memo, h, w.v);
      }
    }
  }

  lemma {:induction false} EvalExprRight(t: Table, cur: Class, e: Expr, s: State)
    requires Valid(t) && WellScoped(t) && Lawful(t, s) && Harmless(t, s) && Placed(s, cur, e) && cur in t.classes
    ensures var (o, r) := EvalExpr(t, e, s);
            && Kept(t, s, r) && Right(t, cur, e, o)
            && (r.compiling == s.compiling || MayDeclare(e, s.pending))
    decreases s.pending, t.entries.Keys - s.resolving, 2, e, 1
  {
    match e
    case Literal(v) =>
      assert PlainExpr(t, 0, cur, e) == Done(Ok(v));
    case Ref(_, _) => RefRight(t, cur, e, s);
    case Op(_, a, b) =>
      EvalExprRight(t, cur, a, s);
      var (x, s1) := EvalExpr(t, a, s);
      if x.Ok? {
        FewerDeclare(b, s.pending, s1.pending);
        EvalExprRight(t, cur, b, s1);
        var y := EvalExpr(t, b, s1).0;
        if y.Ok? { OpMeans(t, cur, e, x, y); }
      }
    case Cond(c, yes, no) =>
      EvalExprRight(t, cur, c, s);
      var (x, s1) := EvalExpr(t, c, s);
      if x.Ok? {
        var branch := if t.truthy(x.v) then yes else no;
        FewerDeclare(branch, s.pending, s1.pending);
        EvalExprRight(t, cur, branch, s1);
        var y := EvalExpr(t, branch, s1).0;
        if y.Ok? { CondMeans(t, cur, e, x, y); }
      }
  }

  lemma {:induction false} RefRight(t: Table, cur: Class, e: Expr, s: State)
    requires Valid(t) && WellScoped(t) && Lawful(t, s) && Harmless(t, s) && Placed(s, cur, e) && cur in t.classes
    requires e.Ref?
    ensures var (o, r) := EvalExpr(t, e, s);
            && Kept(t, s, r) && Right(t, cur, e, o)
            && (r.compiling == s.compiling || MayDeclare(e, s.pending))
    decreases s.pending, t.entries.Keys - s.resolving, 2, e, 0
  {
    LookUpRight(t, cur, e.scope, s);
    var (f, s1) := LookUp(t, e.scope, s);
    if f.Found? {
      EvalConstRight(t, f.c, e.name, s1);
      var o := EvalConst(t, f.c, e.name, s1).0;
      if o.Ok? { RefMeans(t, cur, e, f.c, o); }
    }
  }

  lemma {:induction false} LookUpRight(t: Table, cur: Class, scope: Scope, s: State)
    requires Valid(t) && WellScoped(t) && Lawful(t, s) && Harmless(t, s) && cur in t.classes
    requires scope.Named? || s.compiling == Some(cur) || (s.compiling.None? && s.caller.None?)
    ensures var (f, r) := LookUp(t, scope, s);
            && Kept(t, s, r)
            && (f.Found? ==> f.c in t.classes && ClassOf(t, cur, scope) == Some(f.c))
            && (r.compiling == s.compiling || (scope.Named? && scope.c in s.pending))
    decreases s.pending, t.entries.Keys - s.resolving, 1
  {
    if scope.Named? && scope.c !in s.declared && scope.c in s.pending {
      DeclareRight(t, scope.c, s);
    }
  }

  lemma {:induction false} DeclareRight(t: Table, c: Class, s: State)
    requires Valid(t) && WellScoped(t) && Lawful(t, s) && Harmless(t, s) && c in s.pending
    ensures Kept(t, s, Declare(t, c, s).1)
    decreases s.pending, t.entries.Keys - s.resolving, 0
  {
    var s1 := Register(t, c, s);
    StaysHarmless(t, s, s1);
    var lost := exists d :: d in Needs(t, c) && d in s.pending;
    LinkAllRight(t, c, Needs(t, c), s1);
    var (e, s2) := LinkAll(t, c, Needs(t, c), s1);
    if e.None? {
      if s.caller.Some? {
        FewerSteadyPass(t, c, Order(t, c), s.pending, s2.pending, lost, lost);
      }
      PassRight(t, c, Order(t, c), s2, lost);
    }
    StaysHarmless(t, s, Declare(t, c, s).1);
  }

  lemma {:induction false} LinkAllRight(t: Table, c: Class, ds: seq<Class>, s: State)
    requires Valid(t) && WellScoped(t) && Lawful(t, s) && Harmless(t, s) && c in t.classes
    requires forall d :: d in ds ==> d in Needs(t, c)
    ensures var (e, r) := LinkAll(t, c, ds, s);
            && Kept(t, s, r)
            && (r.compiling == s.compiling || (r.compiling.None? && exists d :: d in ds && d in s.pending))
    decreases s.pending, t.entries.Keys - s.resolving, 3, |ds|
  {
    if ds != [] {
      LookUpRight(t, c, Named(ds[0]), s);
      var (f, s1) := LookUp(t, Named(ds[0]), s);
      if f.Found? {
        LinkRight(t, c, ds[0], s1);
        StaysHarmless(t, s1, Link(t, c, ds[0], s1));
        LinkAllRight(t, c, ds[1..], Link(t, c, ds[0], s1));
      }
    }
  }

  lemma LinkRight(t: Table, c: Class, d: Class, s: State)
    requires Valid(t) && WellScoped(t) && Lawful(t, s) && c in t.classes && d in t.classes && d in Needs(t, c)
    ensures Lawful(t, Link(t, c, d, s))
  {
    var memo := Link(t, c, d, s).memo;
    forall id | id in memo && id !in s.memo ensures exists k :: Holds(t, k) && t.slots[k] == id {
      var k :| k in Taken(t, c, d, s) && t.slots[k] != t.slots[(d, k.1)] && t.slots[k] == id;
    }
    forall k | Holds(t, k) && t.slots[k] in memo ensures Stands(t, k, memo[t.slots[k]]) {
      if t.slots[k] !in s.memo {
        var l :| l in Taken(t, c, d, s) && t.slots[l] != t.slots[(d, l.1)] && t.slots[l] == t.slots[k];
        CopyStands(t, c, d, s, l);
        SharersStand(t, l, k, memo[t.slots[k]]);
      }
    }
  }

  lemma CopyStands(t: Table, c: Class, d: Class, s: State, l: (Class, string))
    requires Valid(t) && WellScoped(t) && Sound(t, s.memo) && c in t.classes && d in t.classes && d in Needs(t, c)
    requires l in Taken(t, c, d, s) && t.slots[l] != t.slots[(d, l.1)]
    requires t.slots[l] !in s.memo && t.slots[l] in Copied(t, Copies(t, c, d, s), s.memo)
    ensures Holds(t, l) && Stands(t, l, Copied(t, Copies(t, c, d, s), s.memo)[t.slots[l]])
  {
    assert Holds(t, l) && Origin(t, l) == (d, l.1);
    assert d == c ==> l == (d, l.1);
    assert Inherits(t, l);
    OriginStands(t, l, s.memo[t.slots[(d, l.1)]]);
  }

  lemma {:induction false} PassRight(t: Table, c: Class, names: seq<string>, s: State, lost: bool)
    requires Valid(t) && WellScoped(t) && Lawful(t, s) && Harmless(t, s) && c in t.classes
    requires s.compiling == Some(c) || (s.compiling.None? && lost)
    requires s.caller.None? || SteadyPass(t, c, names, s.pending, lost)
    ensures Kept(t, s, Pass(t, c, names, s))
    decreases s.pending, t.entries.Keys - s.resolving, 4, |names|
  {
    if names != [] {
      var k := (c, names[0]);
      if k !in s.visible || k !in t.slots || t.slots[k] in s.memo || t.slots[k] !in t.entries {
        if s.caller.Some? && Holds(t, k) {
          var more := lost || MayDeclare(EntryAt(t, k).expr, s.pending);
          FewerSteadyPass(t, c, names[1..], s.pending, s.pending, more, lost);
        }
        PassRight(t, c, names[1..], s, lost);
      } else {
        var e := EntryAt(t, k).expr;
        EvalExprRight(t, c, e, s);
        var (o, s1) := EvalExpr(t, e, s);
        if o.Ok? {
          ValueStands(t, k, o.v);
          StoreKeepsSound(t, s1.memo, k, o.v);
        }
        var more := lost || MayDeclare(e, s.pending);
        if s.caller.Some? {
          FewerSteadyPass(t, c, names[1..], s.pending, s1.pending, more, more);
        }
        var s2 := Settled(t.slots[k], o, s1);
        StaysHarmless(t, s1, s2);
        PassRight(t, c, names[1..], s2, more);
      }
    }
  }
}
