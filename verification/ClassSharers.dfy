/** What two holders of one entry read when the entry is still open and everything is declared: the
    second follows the first. Nothing is assumed of the entry itself. */
module ClassSharers {
  import opened Options
  import opened ClassTables
  import opened ClassConstants
  import opened ClassSoundness
  import opened ClassLinking
  import opened ClassReads

  type Key = (Class, string)

  /** Every reference of `e`, inside `cur`, reads a constant in `ks` or none. */
  ghost predicate LeadsInto(t: Table, cur: Class, e: Expr, ks: set<Key>) {
    match e
    case Literal(_) => true
    case Ref(s, n) => ClassOf(t, cur, s).Some? && (ClassOf(t, cur, s).value, n) in t.slots ==>
      (ClassOf(t, cur, s).value, n) in ks
    case Op(_, a, b) => LeadsInto(t, cur, a, ks) && LeadsInto(t, cur, b, ks)
    case Cond(c, a, b) => LeadsInto(t, cur, c, ks) && LeadsInto(t, cur, a, ks) && LeadsInto(t, cur, b, ks)
  }

  ghost predicate ClosedSet(t: Table, ks: set<Key>) {
    forall k :: k in ks ==>
      Holds(t, k) && LeadsInto(t, k.0, EntryAt(t, k).expr, ks) && (Via(t, k) != k.0 ==> Origin(t, k) in ks)
  }

  /** The table with the constants in `ks` only. */
  function Part(t: Table, ks: set<Key>): Table {
    t.(slots := map k | k in t.slots && k in ks :: t.slots[k])
  }

  function Ids(t: Table, ks: set<Key>): set<Id> {
    set k | k in ks && k in t.slots :: t.slots[k]
  }

  function View(t: Table, ks: set<Key>, s: State): State {
    s.(visible := s.visible * ks, memo := map id | id in s.memo && id in Ids(t, ks) :: s.memo[id])
  }

  /** All classes are declared and have all they inherit. */
  ghost predicate AllDone(t: Table, s: State) {
    s.declared == t.classes.Keys && s.pending == {} && forall c :: c in s.declared ==> Whole(t, s, c)
  }

  /** Nothing changed but the cache, and that only for `ks`. */
  ghost predicate OnlyCaches(t: Table, ks: set<Key>, s: State, r: State) {
    r.(memo := s.memo) == s && forall id :: id !in Ids(t, ks) ==>
      (id in r.memo <==> id in s.memo) && (id in s.memo ==> r.memo[id] == s.memo[id])
  }

  lemma {:induction false} PartConst(t: Table, ks: set<Key>, k: Key, s: State)
    requires Valid(t) && Closed(t) && ClosedSet(t, ks) && AllDone(t, s)
    requires k.0 in s.declared && (k in t.slots ==> k in ks)
    ensures var (o, r) := EvalConst(t, k.0, k.1, s);
            OnlyCaches(t, ks, s, r) && EvalConst(Part(t, ks), k.0, k.1, View(t, ks, s)) == (o, View(t, ks, r))
    decreases t.entries.Keys - s.resolving, 0
  {
    assert k == (k.0, k.1);
    if k in t.slots {
      assert Holds(t, k) && Whole(t, s, k.0);
      var id, v := t.slots[k], View(t, ks, s);
      assert id in Ids(t, ks) && k in v.visible;
      if id !in s.memo && id !in s.resolving {
        var s1 := s.(resolving := s.resolving + {id}, compiling := Some(k.0));
        assert AllDone(t, s1) by { SettledToo(t, s, s1); }
        PartExpr(t, ks, k.0, EntryAt(t, k).expr, s1);
        PartFinish(t, ks, k, s, s1);
      }
    }
  }

  lemma SettledToo(t: Table, s: State, r: State)
    requires AllDone(t, s) && r.declared == s.declared && r.pending == s.pending
    requires r.links == s.links && r.visible == s.visible
    ensures AllDone(t, r)
  {
    forall c | c in r.declared ensures Whole(t, r, c) {
      assert Whole(t, s, c);
    }
  }

  lemma PartFinish(t: Table, ks: set<Key>, k: Key, s: State, s1: State)
    requires k in ks && Holds(t, k) && k in s.visible && t.slots[k] !in s.memo && t.slots[k] !in s.resolving
    requires s1 == s.(resolving := s.resolving + {t.slots[k]}, compiling := Some(k.0))
    requires var (o, r) := EvalExpr(t, EntryAt(t, k).expr, s1);
             OnlyCaches(t, ks, s1, r)
             && EvalExpr(Part(t, ks), EntryAt(t, k).expr, View(t, ks, s1)) == (o, View(t, ks, r))
    ensures var (o, r) := EvalConst(t, k.0, k.1, s);
            OnlyCaches(t, ks, s, r) && EvalConst(Part(t, ks), k.0, k.1, View(t, ks, s)) == (o, View(t, ks, r))
  {
    var (o, r) := EvalExpr(t, EntryAt(t, k).expr, s1);
    Resolving(t, k, s, s1);
    Resolving(Part(t, ks), k, View(t, ks, s), View(t, ks, s1));
    FinishViews(t, ks, k, o, r.(resolving := s.resolving, compiling := s.compiling));
  }

  lemma FinishViews(t: Table, ks: set<Key>, k: Key, o: Outcome, r: State)
    requires k in ks && Holds(t, k)
    ensures var (p, r2) := Finish(t.slots[k], EntryAt(t, k), o, r);
            Finish(t.slots[k], EntryAt(t, k), o, View(t, ks, r)) == (p, View(t, ks, r2)) && OnlyCaches(t, ks, r, r2)
  {
    var id := t.slots[k];
    assert id in Ids(t, ks);
    var (p, r2) := Finish(id, EntryAt(t, k), o, r);
    if p.Ok? {
      assert View(t, ks, r2).memo == View(t, ks, r).memo[id := p.v];
    }
  }

  lemma {:induction false} PartExpr(t: Table, ks: set<Key>, cur: Class, e: Expr, s: State)
    requires Valid(t) && Closed(t) && ClosedSet(t, ks) && AllDone(t, s)
    requires s.compiling == Some(cur) && cur in s.declared && LeadsInto(t, cur, e, ks)
    ensures var (o, r) := EvalExpr(t, e, s);
            OnlyCaches(t, ks, s, r) && EvalExpr(Part(t, ks), e, View(t, ks, s)) == (o, View(t, ks, r))
    decreases t.entries.Keys - s.resolving, 1, e, 1
  {
    match e
    case Literal(_) =>
    case Ref(_, _) => PartRef(t, ks, cur, e, s);
    case Op(_, a, b) => PartBoth(t, ks, cur, e, a, b, s);
    case Cond(c, yes, no) =>
      var x := EvalExpr(t, c, s).0;
      PartBoth(t, ks, cur, e, c, if x.Ok? && !t.truthy(x.v) then no else yes, s);
  }

  lemma {:induction false} PartRef(t: Table, ks: set<Key>, cur: Class, e: Expr, s: State)
    requires Valid(t) && Closed(t) && ClosedSet(t, ks) && AllDone(t, s) && e.Ref?
    requires s.compiling == Some(cur) && cur in s.declared && LeadsInto(t, cur, e, ks)
    ensures var (o, r) := EvalExpr(t, e, s);
            OnlyCaches(t, ks, s, r) && EvalExpr(Part(t, ks), e, View(t, ks, s)) == (o, View(t, ks, r))
    decreases t.entries.Keys - s.resolving, 1, e, 0
  {
    assert Whole(t, s, cur);
    var (f, s1) := LookUp(t, e.scope, s);
    assert s1 == s && LookUp(Part(t, ks), e.scope, View(t, ks, s)) == (f, View(t, ks, s));
    if f.Found? {
      PartConst(t, ks, (f.c, e.name), s);
    }
  }

  lemma {:induction false} PartBoth(t: Table, ks: set<Key>, cur: Class, e: Expr, a: Expr, b: Expr, s: State)
    requires Valid(t) && Closed(t) && ClosedSet(t, ks) && AllDone(t, s)
    requires s.compiling == Some(cur) && cur in s.declared && LeadsInto(t, cur, e, ks)
    requires (e.Op? && a == e.a && b == e.b) || (e.Cond? && a == e.test && (b == e.yes || b == e.no))
    ensures var (x, s1) := EvalExpr(t, a, s);
            && OnlyCaches(t, ks, s, s1) && EvalExpr(Part(t, ks), a, View(t, ks, s)) == (x, View(t, ks, s1))
            && (x.Ok? ==>
                  var (y, s2) := EvalExpr(t, b, s1);
                  && OnlyCaches(t, ks, s1, s2) && OnlyCaches(t, ks, s, s2)
                  && EvalExpr(Part(t, ks), b, View(t, ks, s1)) == (y, View(t, ks, s2)))
    decreases t.entries.Keys - s.resolving, 1, e, 0
  {
    PartExpr(t, ks, cur, a, s);
    var (x, s1) := EvalExpr(t, a, s);
    if x.Ok? {
      assert AllDone(t, s1) by { SettledToo(t, s, s1); }
      PartExpr(t, ks, cur, b, s1);
    }
  }

  // ----- the part means what the whole means -----

  lemma {:induction false} PartMeansConst(t: Table, ks: set<Key>, f: nat, c: Class, n: string)
    requires ClosedSet(t, ks) && ((c, n) in t.slots ==> (c, n) in ks)
    ensures PlainConst(Part(t, ks), f, c, n) == PlainConst(t, f, c, n)
    decreases f, 0
  {
    if f > 0 && Holds(t, (c, n)) {
      PartMeans(t, ks, f - 1, c, EntryAt(t, (c, n)).expr);
    }
  }

  lemma {:induction false} PartMeans(t: Table, ks: set<Key>, f: nat, cur: Class, e: Expr)
    requires ClosedSet(t, ks) && LeadsInto(t, cur, e, ks)
    ensures PlainExpr(Part(t, ks), f, cur, e) == PlainExpr(t, f, cur, e)
    decreases f, 1, e
  {
    match e
    case Literal(_) =>
    case Ref(s, n) =>
      if ClassOf(t, cur, s).Some? { PartMeansConst(t, ks, f, ClassOf(t, cur, s).value, n); }
    case Op(_, a, b) => PartMeans(t, ks, f, cur, a); PartMeans(t, ks, f, cur, b);
    case Cond(c, a, b) =>
      PartMeans(t, ks, f, cur, c);
      PartMeans(t, ks, f, cur, a);
      PartMeans(t, ks, f, cur, b);
  }

  // ----- two holders -----

  /** The rest of the table is in order; nothing is said of entries that are not in `ks`. */
  ghost predicate Orderly(t: Table, reach: map<Class, set<Class>>, ks: set<Key>, s: State) {
    && Valid(t) && Closed(t) && Untangled(t, reach) && ClosedSet(t, ks) && WellScoped(Part(t, ks))
    && AllDone(t, s) && Lawful(Part(t, ks), View(t, ks, s))
  }

  /** A holder of an open entry outside of `ks`, whose references lead into `ks`. */
  ghost predicate OpenHolder(t: Table, ks: set<Key>, k: Key, s: State) {
    && Holds(t, k) && t.slots[k] !in Ids(t, ks) && t.slots[k] !in s.memo
    && LeadsInto(t, k.0, EntryAt(t, k).expr, ks)
  }

  lemma {:induction false} NothingPending(e: Expr)
    ensures !MayDeclare(e, {}) && Steady(e, {})
  {
    match e
    case Literal(_) =>
    case Ref(_, _) =>
    case Op(_, a, b) => NothingPending(a); NothingPending(b);
    case Cond(c, a, b) => NothingPending(c); NothingPending(a); NothingPending(b);
  }

  lemma PartIsReady(t: Table, reach: map<Class, set<Class>>, ks: set<Key>, s: State)
    requires Orderly(t, reach, ks, s)
    ensures Ready(Part(t, ks), reach, View(t, ks, s), {}) && SteadyExprs(Part(t, ks), {})
  {
    PartIsValid(t, ks);
    PartIsUntangled(t, reach, ks);
    PartIsWhole(t, ks, s);
  }

  lemma PartIsValid(t: Table, ks: set<Key>)
    requires Valid(t) && Closed(t) && ClosedSet(t, ks)
    ensures Valid(Part(t, ks)) && Closed(Part(t, ks)) && SteadyExprs(Part(t, ks), {})
  {
    var u := Part(t, ks);
    forall k | Holds(u, k) ensures Steady(EntryAt(u, k).expr, {}) {
      NothingPending(EntryAt(u, k).expr);
    }
    forall k | Holds(u, k) && Via(u, k) != k.0 ensures Inherits(u, k) {
      assert Inherits(t, k) && Origin(t, k) in ks;
    }
    forall c | c in u.classes ensures Needs(u, c) == Needs(t, c) {
    }
  }

  lemma PartIsWhole(t: Table, ks: set<Key>, s: State)
    requires AllDone(t, s) && Lawful(Part(t, ks), View(t, ks, s))
    ensures WholeBut(Part(t, ks), View(t, ks, s), {})
  {
    forall c | c in s.declared ensures Whole(Part(t, ks), View(t, ks, s), c) {
      assert Whole(t, s, c);
    }
  }

  lemma PartIsUntangled(t: Table, reach: map<Class, set<Class>>, ks: set<Key>)
    requires Untangled(t, reach)
    ensures Untangled(Part(t, ks), reach)
  {
    var u := Part(t, ks);
    forall a, x | a in u.classes && x in reach[a] && x in u.classes
      ensures Within(u, x, reach[a]) && a !in Needs(u, x)
    {
      assert Within(t, x, reach[a]);
      forall k | Holds(u, k) && k.0 == x ensures Mentions(EntryAt(u, k).expr) <= reach[a] {
        assert Holds(t, k);
      }
    }
  }

  /** Reading the open entry from inside `k` gives what it means there, and a value stays. */
  lemma FirstHolder(t: Table, reach: map<Class, set<Class>>, ks: set<Key>, k: Key, s: State)
    requires Orderly(t, reach, ks, s) && s.resolving == {} && OpenHolder(t, ks, k, s)
    ensures var (o, r) := EvalConst(t, k.0, k.1, s);
            && Correct(t, k, o) && r.resolving == {} && r.compiling == s.compiling && Orderly(t, reach, ks, r)
            && if o.Ok? then t.slots[k] in r.memo && r.memo[t.slots[k]] == o.v else t.slots[k] !in r.memo
  {
    var s1 := s.(resolving := s.resolving + {t.slots[k]}, compiling := Some(k.0));
    assert k.0 in s.declared && k in s.visible by { assert Whole(t, s, k.0); }
    assert Orderly(t, reach, ks, s1) by { SettledToo(t, s, s1); }
    OpenMeans(t, reach, ks, k, s, s1);
    OpenStays(t, reach, ks, k, s, s1);
    Resolving(t, k, s, s1);
  }

  /** What the read leaves. */
  lemma OpenStays(t: Table, reach: map<Class, set<Class>>, ks: set<Key>, k: Key, s: State, s1: State)
    requires Orderly(t, reach, ks, s) && OpenHolder(t, ks, k, s) && s.resolving == {}
    requires Orderly(t, reach, ks, s1) && k.0 in s1.declared
    requires s1 == s.(resolving := s.resolving + {t.slots[k]}, compiling := Some(k.0))
    ensures var (o, r) := EvalExpr(t, EntryAt(t, k).expr, s1);
            var (p, r') := Finish(t.slots[k], EntryAt(t, k), o, r.(resolving := s.resolving, compiling := s.compiling));
            && r'.resolving == {} && r'.compiling == s.compiling && Orderly(t, reach, ks, r')
            && if p.Ok? then t.slots[k] in r'.memo && r'.memo[t.slots[k]] == p.v else t.slots[k] !in r'.memo
  {
    InPart(t, reach, ks, k.0, EntryAt(t, k).expr, s1);
    var (o, r) := EvalExpr(t, EntryAt(t, k).expr, s1);
    ValueStays(t, reach, ks, k, o, s, r);
  }

  lemma OpenMeans(t: Table, reach: map<Class, set<Class>>, ks: set<Key>, k: Key, s: State, s1: State)
    requires OpenHolder(t, ks, k, s) && Orderly(t, reach, ks, s1) && k.0 in s1.declared && s.resolving == {}
    requires s1 == s.(resolving := s.resolving + {t.slots[k]}, compiling := Some(k.0))
    ensures var o := EvalExpr(t, EntryAt(t, k).expr, s1).0;
            Correct(t, k, if o.Ok? then Typed(o.v, EntryAt(t, k).hint) else o)
  {
    InPart(t, reach, ks, k.0, EntryAt(t, k).expr, s1);
    assert s1.resolving == {t.slots[k]};
    OpenIsCorrect(t, ks, k, EvalExpr(t, EntryAt(t, k).expr, s1).0);
  }

  /** What an expression over `ks` gives. */
  lemma InPart(t: Table, reach: map<Class, set<Class>>, ks: set<Key>, cur: Class, e: Expr, s: State)
    requires Orderly(t, reach, ks, s) && s.compiling == Some(cur) && cur in s.declared && LeadsInto(t, cur, e, ks)
    ensures var (o, r) := EvalExpr(t, e, s);
            && OnlyCaches(t, ks, s, r) && Lawful(Part(t, ks), View(t, ks, r))
            && Agrees(Part(t, ks), cur, e, o, s.resolving) && o != Err(NoScope)
  {
    assert Ready(Part(t, ks), reach, View(t, ks, s), {}) && SteadyExprs(Part(t, ks), {}) by {
      PartIsReady(t, reach, ks, s);
    }
    NothingPending(e);
    PartExpr(t, ks, cur, e, s);
    EvalExprAgrees(Part(t, ks), reach, cur, e, View(t, ks, s));
    EvalExprRight(Part(t, ks), cur, e, View(t, ks, s));
  }

  lemma OpenIsCorrect(t: Table, ks: set<Key>, k: Key, o: Outcome)
    requires Holds(t, k) && ClosedSet(t, ks) && t.slots[k] !in Ids(t, ks) && LeadsInto(t, k.0, EntryAt(t, k).expr, ks)
    requires Agrees(Part(t, ks), k.0, EntryAt(t, k).expr, o, {t.slots[k]})
    requires o != Err(NoScope)
    ensures Correct(t, k, if o.Ok? then Typed(o.v, EntryAt(t, k).hint) else o)
  {
    var e := EntryAt(t, k).expr;
    forall f: nat ensures PlainExpr(Part(t, ks), f, k.0, e) == PlainExpr(t, f, k.0, e) {
      PartMeans(t, ks, f, k.0, e);
    }
    if o == Err(SelfReferencing) {
      forall f: nat ensures PlainConst(t, f, k.0, k.1).OutOfFuel? {
        assert k == (k.0, k.1);
        assert f > 0 ==> PlainExpr(Part(t, ks), f - 1, k.0, e) == PlainExpr(t, f - 1, k.0, e);
        assert !Awaits(Part(t, ks), if f > 0 then f - 1 else 0, {t.slots[k]});
      }
    } else {
      var f: nat :| PlainExpr(Part(t, ks), f, k.0, e) == Done(o);
      assert PlainExpr(t, f, k.0, e) == Done(o);
      ConstMeans(t, k, o);
    }
  }

  lemma ValueStays(t: Table, reach: map<Class, set<Class>>, ks: set<Key>, k: Key, o: Outcome, s: State, r: State)
    requires Orderly(t, reach, ks, s) && OpenHolder(t, ks, k, s) && s.resolving == {}
    requires OnlyCaches(t, ks, s.(resolving := s.resolving + {t.slots[k]}, compiling := Some(k.0)), r)
    requires Lawful(Part(t, ks), View(t, ks, r))
    ensures var (p, r') := Finish(t.slots[k], EntryAt(t, k), o, r.(resolving := s.resolving, compiling := s.compiling));
            && r'.resolving == {} && r'.compiling == s.compiling && Orderly(t, reach, ks, r')
            && if p.Ok? then t.slots[k] in r'.memo && r'.memo[t.slots[k]] == p.v else t.slots[k] !in r'.memo
  {
    var r1 := r.(resolving := s.resolving, compiling := s.compiling);
    StoredOutside(t, ks, k, o, r1);
    OrderlyToo(t, reach, ks, s, r, Finish(t.slots[k], EntryAt(t, k), o, r1).1);
  }

  lemma StoredOutside(t: Table, ks: set<Key>, k: Key, o: Outcome, r: State)
    requires Holds(t, k) && t.slots[k] !in Ids(t, ks) && t.slots[k] !in r.memo
    ensures var (p, r') := Finish(t.slots[k], EntryAt(t, k), o, r);
            && View(t, ks, r').memo == View(t, ks, r).memo && r'.(memo := r.memo) == r
            && if p.Ok? then t.slots[k] in r'.memo && r'.memo[t.slots[k]] == p.v else t.slots[k] !in r'.memo
  {
  }

  lemma OrderlyToo(t: Table, reach: map<Class, set<Class>>, ks: set<Key>, s: State, r: State, r': State)
    requires Orderly(t, reach, ks, s) && Lawful(Part(t, ks), View(t, ks, r))
    requires r'.declared == s.declared == r.declared && r'.pending == s.pending == r.pending
    requires r'.links == s.links == r.links && r'.visible == s.visible == r.visible
    requires View(t, ks, r').memo == View(t, ks, r).memo
    ensures Orderly(t, reach, ks, r')
  {
    SettledToo(t, s, r');
  }

  /** Two holders of an open entry are read one after the other, where they mean `v` and `w`: a
      first success decides both answers, and so both are right if and only if the first fails or
      both mean the same. */
  lemma SharersFollowFirst(t: Table, reach: map<Class, set<Class>>, ks: set<Key>, k: Key, l: Key, s: State,
      v: Outcome, w: Outcome)
    requires Orderly(t, reach, ks, s) && s.resolving == {} && s.compiling.None?
    requires OpenHolder(t, ks, k, s) && OpenHolder(t, ks, l, s) && t.slots[k] == t.slots[l]
    requires Correct(t, k, v) && Correct(t, l, w)
    ensures Reads(t, [k, l], s) == [v, if v.Ok? then v else w]
    ensures Reads(t, [k, l], s) == [v, w] <==> v.Err? || v == w
  {
    var (o, r) := EvalConst(t, k.0, k.1, s);
    FirstHolder(t, reach, ks, k, s);
    CorrectIsUnique(t, k, v, o);
    ReadDeclared(t, k.0, k.1, s);
    ReadDeclared(t, l.0, l.1, r);
    if o.Ok? {
      SecondHolder(t, reach, ks, k, l, s);
    } else {
      FirstHolder(t, reach, ks, l, r);
      CorrectIsUnique(t, l, w, EvalConst(t, l.0, l.1, r).0);
    }
    TwoReads(t, k, l, s);
  }

  lemma SecondHolder(t: Table, reach: map<Class, set<Class>>, ks: set<Key>, k: Key, l: Key, s: State)
    requires Orderly(t, reach, ks, s) && s.resolving == {}
    requires OpenHolder(t, ks, k, s) && OpenHolder(t, ks, l, s) && t.slots[k] == t.slots[l]
    requires EvalConst(t, k.0, k.1, s).0.Ok?
    ensures var (o, r) := EvalConst(t, k.0, k.1, s); EvalConst(t, l.0, l.1, r).0 == o
  {
    FirstHolder(t, reach, ks, k, s);
    var (o, r) := EvalConst(t, k.0, k.1, s);
    assert l in r.visible by { assert Whole(t, r, l.0); }
    assert k in s.visible by { assert Whole(t, s, k.0); }
    var s1 := s.(resolving := s.resolving + {t.slots[k]}, compiling := Some(k.0));
    Resolving(t, k, s, s1);
    TypedTwice(t, t.slots[k], EvalExpr(t, EntryAt(t, k).expr, s1).0.v);
    CachedEntry(t, l, r);
  }

  lemma CachedEntry(t: Table, k: Key, s: State)
    requires Holds(t, k) && k in s.visible && t.slots[k] in s.memo
    ensures EvalConst(t, k.0, k.1, s).0 == Typed(s.memo[t.slots[k]], EntryAt(t, k).hint)
  {
    assert k == (k.0, k.1);
  }

  lemma TwoReads(t: Table, k: Key, l: Key, s: State)
    ensures var (o, r) := Read(t, k.0, k.1, s); Reads(t, [k, l], s) == [o, Read(t, l.0, l.1, r).0]
  {
    var (o, r) := Read(t, k.0, k.1, s);
    assert [k, l][1..] == [l] && [l][1..] == [];
    assert Reads(t, [l], r) == [Read(t, l.0, l.1, r).0] + Reads(t, [], Read(t, l.0, l.1, r).1);
  }
}
