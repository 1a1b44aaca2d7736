/** Reading a constant when no declaration is under way gives what the constant means, and nothing
    else but the one error of having lost the compiling class. */
module ClassReads {
  import opened Options
  import opened ClassTables
  import opened ClassConstants
  import opened ClassSoundness
  import opened ClassLinking

  /** Some constant under resolution has an answer within `f`. */
  ghost predicate Awaits(t: Table, f: nat, marks: set<Id>) {
    exists k, g: nat :: Holds(t, k) && t.slots[k] in marks && g <= f && PlainConst(t, g, k.0, k.1).Done?
  }

  /** The evaluator's answer agrees with the plain meaning of the expression; a self-reference
      error says that the plain evaluation can only end after one under resolution has ended. */
  ghost predicate Agrees(t: Table, cur: Class, e: Expr, o: Outcome, marks: set<Id>) {
    && (o != Err(SelfReferencing) && o != Err(NoScope) ==> ExprMeans(t, cur, e, o))
    && (o == Err(SelfReferencing) ==> forall f: nat :: PlainExpr(t, f, cur, e).Done? ==> Awaits(t, f, marks))
  }

  ghost predicate AgreesConst(t: Table, c: Class, n: string, o: Outcome, marks: set<Id>) {
    && (o != Err(SelfReferencing) && o != Err(NoScope) ==> Means(t, c, n, o))
    && (o == Err(SelfReferencing) ==> forall f: nat :: PlainConst(t, f, c, n).Done? ==> Awaits(t, f, marks))
  }

  /** No class is lost on the way through any expression. */
  ghost predicate NeverLost(t: Table, s: State, cur: Class, e: Expr) {
    SteadyExprs(t, s.pending) && Steady(e, s.pending) && (s.compiling == Some(cur) || Scopeless(e))
  }

  // ----- cycles -----

  /** If evaluating the entry of `k` waits on a marked constant or on itself, it waits on a marked
      constant: waiting on itself needs less fuel each time round. */
  lemma {:induction false} CycleUnwinds(t: Table, k: (Class, string), marks: set<Id>, f: nat)
    requires Valid(t) && WellScoped(t) && Holds(t, k) && PlainConst(t, f, k.0, k.1).Done?
    requires forall g: nat :: PlainExpr(t, g, k.0, EntryAt(t, k).expr).Done? ==> Awaits(t, g, marks + {t.slots[k]})
    ensures Awaits(t, f, marks)
    decreases f
  {
    assert k == (k.0, k.1);
    assert PlainExpr(t, f - 1, k.0, EntryAt(t, k).expr).Done?;
    assert Awaits(t, f - 1, marks + {t.slots[k]});
    var l, g: nat :|
      Holds(t, l) && t.slots[l] in marks + {t.slots[k]} && g <= f - 1 && PlainConst(t, g, l.0, l.1).Done?;
    if t.slots[l] !in marks {
      SharedMeaning(t, g, l, k);
      CycleUnwinds(t, k, marks, g);
      var m, h: nat :| Holds(t, m) && t.slots[m] in marks && h <= g && PlainConst(t, h, m.0, m.1).Done?;
    }
  }

  // ----- the evaluator agrees with the plain meaning -----

  lemma {:induction false} EvalConstAgrees(t: Table, reach: map<Class, set<Class>>, c: Class, n: string, s: State)
    requires Ready(t, reach, s, {}) && c in s.declared
    ensures var o := EvalConst(t, c, n, s).0;
            AgreesConst(t, c, n, o, s.resolving) && (SteadyExprs(t, s.pending) ==> o != Err(NoScope))
    decreases s.pending, t.entries.Keys - s.resolving, 1
  {
    var k := (c, n);
    assert Whole(t, s, c);
    if k !in t.slots {
      assert PlainConst(t, 0, c, n) == Done(Err(Undefined));
    } else {
      assert Holds(t, k) && Find(t, s, k) == Some(t.slots[k]);
      var id := t.slots[k];
      if id in s.memo {
        CachedMeans(t, s.memo, k);
      } else if id in s.resolving {
        forall f: nat | PlainConst(t, f, c, n).Done? ensures Awaits(t, f, s.resolving) {
          assert Holds(t, k) && t.slots[k] in s.resolving && f <= f && PlainConst(t, f, k.0, k.1).Done?;
        }
      } else {
        EntryAgrees(t, reach, k, s, s.(resolving := s.resolving + {id}, compiling := Some(c)));
      }
    }
  }

  lemma {:induction false} EntryAgrees(t: Table, reach: map<Class, set<Class>>, k: (Class, string), s: State, s1: State)
    requires Ready(t, reach, s, {}) && k.0 in s.declared && Holds(t, k) && Find(t, s, k) == Some(t.slots[k])
    requires t.slots[k] !in s.memo && t.slots[k] !in s.resolving
    requires s1 == s.(resolving := s.resolving + {t.slots[k]}, compiling := Some(k.0))
    ensures var o := EvalConst(t, k.0, k.1, s).0;
            AgreesConst(t, k.0, k.1, o, s.resolving) && (SteadyExprs(t, s.pending) ==> o != Err(NoScope))
    decreases s.pending, t.entries.Keys - s.resolving, 0
  {
    var e := EntryAt(t, k).expr;
    assert WholeBut(t, s1, {}) by { SameWhole(t, s, s1, {}); }
    EvalExprAgrees(t, reach, k.0, e, s1);
    ResolvedAgrees(t, k, s, s1, EvalExpr(t, e, s1));
  }

  lemma ResolvedAgrees(t: Table, k: (Class, string), s: State, s1: State, r: (Outcome, State))
    requires Valid(t) && WellScoped(t) && Holds(t, k) && Find(t, s, k) == Some(t.slots[k])
    requires t.slots[k] !in s.memo && t.slots[k] !in s.resolving
    requires s1 == s.(resolving := s.resolving + {t.slots[k]}, compiling := Some(k.0))
    requires r == EvalExpr(t, EntryAt(t, k).expr, s1) && Agrees(t, k.0, EntryAt(t, k).expr, r.0, s1.resolving)
    ensures var o := EvalConst(t, k.0, k.1, s).0;
            AgreesConst(t, k.0, k.1, o, s.resolving) && (o == Err(NoScope) ==> r.0 == o)
  {
    assert k == (k.0, k.1);
    if r.0 == Err(SelfReferencing) {
      forall f: nat | PlainConst(t, f, k.0, k.1).Done? ensures Awaits(t, f, s.resolving) {
        CycleUnwinds(t, k, s.resolving, f);
      }
    } else if r.0 != Err(NoScope) {
      ConstMeans(t, k, r.0);
    }
  }

  lemma {:induction false} EvalExprAgrees(t: Table, reach: map<Class, set<Class>>, cur: Class, e: Expr, s: State)
    requires Ready(t, reach, s, {}) && Placed(s, cur, e) && cur in s.declared
    ensures var o := EvalExpr(t, e, s).0;
            Agrees(t, cur, e, o, s.resolving) && (NeverLost(t, s, cur, e) ==> o != Err(NoScope))
    decreases s.pending, t.entries.Keys - s.resolving, 2, e, 1
  {
    match e
    case Literal(v) => assert PlainExpr(t, 0, cur, e) == Done(Ok(v));
    case Ref(_, _) => RefAgrees(t, reach, cur, e, s);
    case Op(_, a, b) => BothAgree(t, reach, cur, e, a, b, s);
    case Cond(c, yes, no) =>
      var x := EvalExpr(t, c, s).0;
      BothAgree(t, reach, cur, e, c, if x.Ok? && !t.truthy(x.v) then no else yes, s);
  }

  lemma {:induction false} RefAgrees(t: Table, reach: map<Class, set<Class>>, cur: Class, e: Expr, s: State)
    requires Ready(t, reach, s, {}) && Placed(s, cur, e) && cur in s.declared && e.Ref?
    ensures var o := EvalExpr(t, e, s).0;
            Agrees(t, cur, e, o, s.resolving) && (NeverLost(t, s, cur, e) ==> o != Err(NoScope))
    decreases s.pending, t.entries.Keys - s.resolving, 2, e, 0
  {
    LookUpRight(t, cur, e.scope, s);
    LookUpAgrees(t, reach, cur, e.scope, s);
    var (f, s1) := LookUp(t, e.scope, s);
    if f.Found? {
      EvalConstAgrees(t, reach, f.c, e.name, s1);
      FewerAllSteady(t, s.pending, s1.pending);
      var o := EvalConst(t, f.c, e.name, s1).0;
      if o != Err(SelfReferencing) && o != Err(NoScope) { RefMeans(t, cur, e, f.c, o); }
    } else if f.e != NoScope {
      NotFoundMeans(t, cur, e, f.e);
    }
  }

  lemma NotFoundMeans(t: Table, cur: Class, e: Expr, err: Error)
    requires e.Ref?
    requires (err == NoParent && e.scope == Parent && ParentOf(t, cur).None?)
             || (err == NoClass && e.scope.Named? && e.scope.c !in t.classes)
    ensures ExprMeans(t, cur, e, Err(err))
  {
    if err == NoClass { assert PlainConst(t, 0, e.scope.c, e.name) == Done(Err(NoClass)); }
    assert PlainExpr(t, 0, cur, e) == Done(Err(err));
  }

  /** A lookup finds what is meant, or fails as it must. */
  lemma LookUpAgrees(t: Table, reach: map<Class, set<Class>>, cur: Class, scope: Scope, s: State)
    requires Ready(t, reach, s, {}) && cur in s.declared
    requires scope.Named? || s.compiling == Some(cur) || (s.compiling.None? && s.caller.None?)
    ensures var (f, s1) := LookUp(t, scope, s);
            && Goes(t, s, s1, {})
            && match f
               case Found(c) => c in s1.declared && ClassOf(t, cur, scope) == Some(c)
               case NotFound(NoParent) => scope == Parent && ParentOf(t, cur) == None
               case NotFound(NoClass) => scope.Named? && scope.c !in t.classes
               case NotFound(err) => err == NoScope && !scope.Named? && s.compiling.None?
  {
    LookUpGoes(t, reach, cur, scope, s, {});
    assert Whole(t, s, cur);
    if scope == Parent && s.compiling == Some(cur) && ParentOf(t, cur).Some? {
      assert ParentOf(t, cur).value in Needs(t, cur);
    }
  }

  lemma {:induction false} BothAgree(t: Table, reach: map<Class, set<Class>>, cur: Class, e: Expr, a: Expr, b: Expr,
      s: State)
    requires Ready(t, reach, s, {}) && Placed(s, cur, e) && cur in s.declared
    requires (e.Op? && a == e.a && b == e.b) || (e.Cond? && a == e.test && (b == e.yes || b == e.no))
    requires e.Cond? && EvalExpr(t, a, s).0.Ok? ==> b == if t.truthy(EvalExpr(t, a, s).0.v) then e.yes else e.no
    ensures var o := EvalExpr(t, e, s).0;
            Agrees(t, cur, e, o, s.resolving) && (NeverLost(t, s, cur, e) ==> o != Err(NoScope))
    decreases s.pending, t.entries.Keys - s.resolving, 2, e, 0
  {
    assert Placed(s, cur, a) && (NeverLost(t, s, cur, e) ==> NeverLost(t, s, cur, a));
    EvalExprAgrees(t, reach, cur, a, s);
    var (x, s1) := EvalExpr(t, a, s);
    TwoOperands(t, e, a, b, s);
    if x.Ok? {
      SecondOperand(t, reach, cur, e, a, b, s);
      EvalExprAgrees(t, reach, cur, b, s1);
      PairAgrees(t, cur, e, b, x, EvalExpr(t, b, s1).0, s.resolving);
    } else if x != Err(SelfReferencing) && x != Err(NoScope) {
      FirstFails(t, cur, e, x);
    }
  }

  lemma TwoOperands(t: Table, e: Expr, a: Expr, b: Expr, s: State)
    requires (e.Op? && a == e.a && b == e.b) || (e.Cond? && a == e.test)
    requires e.Cond? && EvalExpr(t, a, s).0.Ok? ==> b == if t.truthy(EvalExpr(t, a, s).0.v) then e.yes else e.no
    ensures var (x, s1) := EvalExpr(t, a, s);
            EvalExpr(t, e, s).0 ==
              if x.Err? then x
              else var y := EvalExpr(t, b, s1).0; if e.Op? && y.Ok? then Applied(t, e.op, x.v, y.v) else y
  {
  }

  lemma SecondOperand(t: Table, reach: map<Class, set<Class>>, cur: Class, e: Expr, a: Expr, b: Expr, s: State)
    requires Ready(t, reach, s, {}) && Placed(s, cur, e) && cur in s.declared
    requires (e.Op? && a == e.a && b == e.b) || (e.Cond? && a == e.test && (b == e.yes || b == e.no))
    ensures var s1 := EvalExpr(t, a, s).1;
            && Ready(t, reach, s1, {}) && Placed(s1, cur, b) && s1.resolving == s.resolving && cur in s1.declared
            && (NeverLost(t, s, cur, e) ==> NeverLost(t, s1, cur, b))
  {
    var s1 := EvalExpr(t, a, s).1;
    assert Goes(t, s, s1, {}) by { EvalExprGoes(t, reach, cur, a, s, {}); }
    assert ThenReady(t, reach, cur, b, s1, {}) by { NextIsReady(t, reach, cur, a, b, s, {}); }
    if NeverLost(t, s, cur, e) { StaysFound(t, s, cur, e, a, b); }
  }

  lemma StaysFound(t: Table, s: State, cur: Class, e: Expr, a: Expr, b: Expr)
    requires (e.Op? && a == e.a && b == e.b) || (e.Cond? && a == e.test && (b == e.yes || b == e.no))
    requires Valid(t) && WellScoped(t) && Lawful(t, s) && Harmless(t, s) && Placed(s, cur, e) && cur in t.classes
    requires NeverLost(t, s, cur, e)
    ensures NeverLost(t, EvalExpr(t, a, s).1, cur, b)
  {
    EvalExprRight(t, cur, a, s);
    FewerDeclare(b, s.pending, EvalExpr(t, a, s).1.pending);
    FewerAllSteady(t, s.pending, EvalExpr(t, a, s).1.pending);
  }

  lemma PairAgrees(t: Table, cur: Class, e: Expr, b: Expr, x: Outcome, y: Outcome, marks: set<Id>)
    requires x.Ok? && ExprMeans(t, cur, if e.Op? then e.a else if e.Cond? then e.test else e, x)
    requires (e.Op? && b == e.b) || (e.Cond? && b == if t.truthy(x.v) then e.yes else e.no)
    requires Agrees(t, cur, b, y, marks)
    ensures Agrees(t, cur, e, if e.Op? && y.Ok? then Applied(t, e.op, x.v, y.v) else y, marks)
  {
    if y == Err(SelfReferencing) {
      var f: nat :| PlainExpr(t, f, cur, if e.Op? then e.a else e.test) == Done(x);
      forall g: nat | PlainExpr(t, g, cur, e).Done? ensures Awaits(t, g, marks) {
        SameAnswer(t, f, g, cur, if e.Op? then e.a else e.test);
      }
    } else if y != Err(NoScope) {
      if e.Op? { OpMeans(t, cur, e, x, y); } else { CondMeans(t, cur, e, x, y); }
    }
  }

  // ----- reads -----

  /** Nothing is under resolution or being declared. */
  ghost predicate Quiet(t: Table, reach: map<Class, set<Class>>, s: State) {
    Ready(t, reach, s, {}) && s.resolving == {} && s.compiling.None?
  }

  /** What a constant means: a self-reference if evaluating it never ends. */
  ghost predicate Correct(t: Table, k: (Class, string), o: Outcome) {
    if o == Err(SelfReferencing) then Diverges(t, k.0, k.1) else Means(t, k.0, k.1, o)
  }

  lemma CorrectIsUnique(t: Table, k: (Class, string), o: Outcome, r: Outcome)
    requires Correct(t, k, o)
    ensures Correct(t, k, r) <==> r == o
  {
    if Correct(t, k, r) && o != r {
      var x := if o == Err(SelfReferencing) then r else o;
      var f: nat :| PlainConst(t, f, k.0, k.1) == Done(x);
      if o != Err(SelfReferencing) && r != Err(SelfReferencing) {
        var g: nat :| PlainConst(t, g, k.0, k.1) == Done(r);
        if f <= g { MoreFuelConst(t, f, g, k.0, k.1); } else { MoreFuelConst(t, g, f, k.0, k.1); }
      }
      assert false;
    }
  }

  /** The lookup that begins a read. */
  lemma LookUpIsQuiet(t: Table, reach: map<Class, set<Class>>, c: Class, s: State)
    requires Quiet(t, reach, s) && c in t.classes
    ensures var (f, s1) := LookUp(t, Named(c), s);
            && f == Found(c) && c in s1.declared && Quiet(t, reach, s1)
            && (SteadyExprs(t, s.pending) ==> SteadyExprs(t, s1.pending))
  {
    LookUpRight(t, c, Named(c), s);
    LookUpGoes(t, reach, c, Named(c), s, {});
    FewerAllSteady(t, s.pending, LookUp(t, Named(c), s).1.pending);
  }

  lemma ReadIsQuiet(t: Table, reach: map<Class, set<Class>>, c: Class, n: string, s: State)
    requires Quiet(t, reach, s)
    ensures var s' := Read(t, c, n, s).1;
            Quiet(t, reach, s') && Later(s, s') && (SteadyExprs(t, s.pending) ==> SteadyExprs(t, s'.pending))
  {
    if c in t.classes {
      LookUpIsQuiet(t, reach, c, s);
      var s1 := LookUp(t, Named(c), s).1;
      assert Read(t, c, n, s) == EvalConst(t, c, n, s1);
      ConstIsQuiet(t, reach, c, n, s1);
    } else {
      UnknownClass(t, c, n, s);
    }
  }

  lemma ConstIsQuiet(t: Table, reach: map<Class, set<Class>>, c: Class, n: string, s: State)
    requires Quiet(t, reach, s) && c in t.classes
    ensures var s' := EvalConst(t, c, n, s).1;
            Quiet(t, reach, s') && Later(s, s') && (SteadyExprs(t, s.pending) ==> SteadyExprs(t, s'.pending))
  {
    EvalConstRight(t, c, n, s);
    EvalConstGoes(t, reach, c, n, s, {});
    FewerAllSteady(t, s.pending, EvalConst(t, c, n, s).1.pending);
  }

  /** A read gives exactly what the constant means, with whatever was read and declared before and
      whatever it declares itself, or fails because `self` was evaluated behind a declaration. That
      never happens where no expression mentions `self` or `parent` behind a class still to be
      declared; and each time at least one class has been declared. */
  lemma ResolutionIsTransparent(t: Table, reach: map<Class, set<Class>>, c: Class, n: string, s: State)
    requires Quiet(t, reach, s)
    ensures var (o, s') := Read(t, c, n, s);
            && (Correct(t, (c, n), o) || o == Err(NoScope))
            && (SteadyExprs(t, s.pending) ==> Correct(t, (c, n), o))
            && (o == Err(NoScope) ==> s'.pending < s.pending)
  {
    if c !in t.classes {
      UnknownClass(t, c, n, s);
      assert PlainConst(t, 0, c, n) == Done(Err(NoClass));
      assert Means(t, c, n, Err(NoClass));
    } else {
      LookUpIsQuiet(t, reach, c, s);
      var s1 := LookUp(t, Named(c), s).1;
      assert Read(t, c, n, s) == EvalConst(t, c, n, s1);
      EvalConstAgrees(t, reach, c, n, s1);
      var o := EvalConst(t, c, n, s1).0;
      if o != Err(NoScope) { AgreesIsCorrect(t, c, n, o); }
    }
  }

  lemma AgreesIsCorrect(t: Table, c: Class, n: string, o: Outcome)
    requires AgreesConst(t, c, n, o, {}) && o != Err(NoScope)
    ensures Correct(t, (c, n), o)
  {
    if o == Err(SelfReferencing) {
      forall f: nat ensures PlainConst(t, f, c, n).OutOfFuel? {
        assert PlainConst(t, f, c, n).Done? ==> Awaits(t, f, {});
      }
    }
  }

  /** The answers of a run of reads. */
  function Reads(t: Table, keys: seq<(Class, string)>, s: State): (r: seq<Outcome>)
    ensures |r| == |keys|
    decreases keys
  {
    if keys == [] then []
    else
      var (o, s') := Read(t, keys[0].0, keys[0].1, s);
      [o] + Reads(t, keys[1..], s')
  }

  function Lost(answers: seq<Outcome>): nat {
    if answers == [] then 0 else (if answers[0] == Err(NoScope) then 1 else 0) + Lost(answers[1..])
  }

  /** A read keeps `good`, its answer is `right`, and a lost scope costs a class to declare. */
  ghost predicate ReadsOn(t: Table, k: (Class, string), s: State, good: State -> bool,
      right: ((Class, string), Outcome) -> bool) {
    var (o, s') := Read(t, k.0, k.1, s);
    good(s') && right(k, o) && s'.pending <= s.pending && (o == Err(NoScope) ==> s'.pending < s.pending)
  }

  lemma {:induction false} ReadsGoOn(t: Table, keys: seq<(Class, string)>, s: State, good: State -> bool,
      right: ((Class, string), Outcome) -> bool)
    requires good(s)
    requires forall r, k {:trigger ReadsOn(t, k, r, good, right)} :: good(r) ==> ReadsOn(t, k, r, good, right)
    ensures var answers := Reads(t, keys, s);
            (forall i :: 0 <= i < |keys| ==> right(keys[i], answers[i])) && Lost(answers) <= |s.pending|
    decreases keys
  {
    if keys != [] {
      assert ReadsOn(t, keys[0], s, good, right);
      var (o, s') := Read(t, keys[0].0, keys[0].1, s);
      ReadsGoOn(t, keys[1..], s', good, right);
      SmallerSet(s'.pending, s.pending);
      assert Reads(t, keys, s)[1..] == Reads(t, keys[1..], s') && Reads(t, keys, s)[0] == o;
    }
  }

  /** In any run of reads every answer is right but for lost scopes, and there are at most as many
      of these as there are classes to declare. */
  lemma ReadsAreRight(t: Table, reach: map<Class, set<Class>>, keys: seq<(Class, string)>, s: State)
    requires Quiet(t, reach, s)
    ensures var answers := Reads(t, keys, s);
            && (forall i :: 0 <= i < |keys| ==> Correct(t, keys[i], answers[i]) || answers[i] == Err(NoScope))
            && Lost(answers) <= |s.pending|
  {
    var good := (r: State) => Quiet(t, reach, r);
    var right := (k: (Class, string), o: Outcome) => Correct(t, k, o) || o == Err(NoScope);
    forall r, k | good(r) ensures ReadsOn(t, k, r, good, right) {
      assert k == (k.0, k.1);
      ResolutionIsTransparent(t, reach, k.0, k.1, r);
      ReadIsQuiet(t, reach, k.0, k.1, r);
    }
    ReadsGoOn(t, keys, s, good, right);
  }

  /** Where no scope can be lost every answer is right. */
  lemma SteadyReadsAreRight(t: Table, reach: map<Class, set<Class>>, keys: seq<(Class, string)>, s: State)
    requires Quiet(t, reach, s) && SteadyExprs(t, s.pending)
    ensures forall i :: 0 <= i < |keys| ==> Correct(t, keys[i], Reads(t, keys, s)[i])
  {
    var good := (r: State) => Quiet(t, reach, r) && SteadyExprs(t, r.pending);
    var right := (k: (Class, string), o: Outcome) => Correct(t, k, o);
    forall r, k | good(r) ensures ReadsOn(t, k, r, good, right) {
      assert k == (k.0, k.1);
      ResolutionIsTransparent(t, reach, k.0, k.1, r);
      ReadIsQuiet(t, reach, k.0, k.1, r);
    }
    ReadsGoOn(t, keys, s, good, right);
  }

  lemma SmallerSet(a: set<Class>, b: set<Class>)
    requires a <= b
    ensures |a| <= |b| && (a < b ==> |a| < |b|)
  {
    assert b == a + (b - a);
    assert |b| == |a| + |b - a|;
    if a < b { assert b - a != {}; }
  }

  /** Where no scope can be lost, neither the order of reads nor earlier failures matter: any two
      runs give a constant the same answer. */
  lemma ReadsAreIndependent(t: Table, reach: map<Class, set<Class>>, keys: seq<(Class, string)>, s: State,
      others: seq<(Class, string)>, r: State, i: nat, j: nat)
    requires Quiet(t, reach, s) && Quiet(t, reach, r) && SteadyExprs(t, s.pending) && SteadyExprs(t, r.pending)
    requires i < |keys| && j < |others| && keys[i] == others[j]
    ensures Reads(t, keys, s)[i] == Reads(t, others, r)[j]
  {
    SteadyReadsAreRight(t, reach, keys, s);
    SteadyReadsAreRight(t, reach, others, r);
    CorrectIsUnique(t, keys[i], Reads(t, keys, s)[i], Reads(t, others, r)[j]);
  }
}
