/** Reading typed constants: what a hint does to a value (coerceConstToTypeHint and its two uses in
    core/compiler/compile-classref.go). */
module ClassTyping {
  import opened Options
  import opened ConstHints
  import opened ClassTables
  import opened ClassConstants
  import opened ClassSoundness
  import opened ClassLinking
  import opened ClassReads
  import opened ClassRuns

  type Key = (Class, string)

  /** A hint gives a value back as it is, or an int as the float of the same number. */
  lemma CoercedValue(v: Val, h: Hint)
    requires Coerce(v, h).Some?
    ensures Coerce(v, h) == Some(v) || (v.VInt? && Coerce(v, h) == Some(VFloat(v.i as real)))
    ensures DirectFloat(h) && v.VInt? ==> Coerce(v, h) == Some(VFloat(v.i as real))
  {
  }

  // ----- one read -----

  /** The expression of an open constant has the value `v`, and the read resolves it: it gives what
      the hint makes of `v` and stores that, or a type error and stores nothing. */
  lemma OpenTypedRead(t: Table, reach: map<Class, set<Class>>, k: Key, h: Hint, v: Val, s: State)
    requires Quiet(t, reach, s) && SteadyExprs(t, s.pending) && Holds(t, k) && EntryAt(t, k).hint == Some(h)
    requires ExprMeans(t, k.0, EntryAt(t, k).expr, Ok(v))
    ensures var o := Read(t, k.0, k.1, s).0;
            o == if Coerce(v, h).Some? then Ok(Coerce(v, h).value) else Err(TypeMismatch)
  {
    ConstMeans(t, k, Ok(v));
    var o := Read(t, k.0, k.1, s).0;
    ResolutionIsTransparent(t, reach, k.0, k.1, s);
    assert k == (k.0, k.1);
    CorrectIsUnique(t, k, o, if Coerce(v, h).Some? then Ok(Coerce(v, h).value) else Err(TypeMismatch));
  }

  /** The same for a constant without a hint: its value is its expression's. */
  lemma UntypedRead(t: Table, reach: map<Class, set<Class>>, k: Key, v: Val, s: State)
    requires Quiet(t, reach, s) && SteadyExprs(t, s.pending) && Holds(t, k) && EntryAt(t, k).hint == None
    requires ExprMeans(t, k.0, EntryAt(t, k).expr, Ok(v))
    ensures Read(t, k.0, k.1, s).0 == Ok(v)
  {
    ConstMeans(t, k, Ok(v));
    var o := Read(t, k.0, k.1, s).0;
    ResolutionIsTransparent(t, reach, k.0, k.1, s);
    assert k == (k.0, k.1);
    CorrectIsUnique(t, k, o, Ok(v));
  }

  /** What the resolution of one constant does to the cache, once its expression has been evaluated. */
  lemma ResolvedEntry(t: Table, k: Key, h: Hint, v: Val, s: State, s1: State, r: State)
    requires Holds(t, k) && k in s.visible && t.slots[k] !in s.memo && t.slots[k] !in s.resolving
    requires s1 == s.(resolving := s.resolving + {t.slots[k]}, compiling := Some(k.0))
    requires EntryAt(t, k).hint == Some(h) && EvalExpr(t, EntryAt(t, k).expr, s1) == (Ok(v), r)
    ensures var (o, s') := EvalConst(t, k.0, k.1, s);
            && s'.resolving == s.resolving && s'.compiling == s.compiling && s'.pending == r.pending
            && match Coerce(v, h)
               case Some(u) => o == Ok(u) && s'.memo == r.memo[t.slots[k] := u]
               case None => o == Err(TypeMismatch) && s'.memo == r.memo
  {
    Resolving(t, k, s, s1);
  }

  /** `const h X = v`: the whole cache, before and after. */
  lemma LiteralTypedRead(t: Table, k: Key, h: Hint, v: Val, s: State)
    requires Holds(t, k) && k in s.visible && t.slots[k] !in s.memo && t.slots[k] !in s.resolving
    requires EntryAt(t, k).hint == Some(h) && EntryAt(t, k).expr == Literal(v)
    ensures EvalConst(t, k.0, k.1, s) ==
      if Coerce(v, h).Some? then (Ok(Coerce(v, h).value), s.(memo := s.memo[t.slots[k] := Coerce(v, h).value]))
      else (Err(TypeMismatch), s)
  {
    var s1 := s.(resolving := s.resolving + {t.slots[k]}, compiling := Some(k.0));
    Resolving(t, k, s, s1);
  }

  /** A value that is cached already, coerced or not, is coerced at every read, and stays. */
  lemma CachedTypedRead(t: Table, k: Key, h: Hint, s: State)
    requires Holds(t, k) && k in s.visible && t.slots[k] in s.memo && EntryAt(t, k).hint == Some(h)
    ensures var v := s.memo[t.slots[k]];
            EvalConst(t, k.0, k.1, s) ==
              (if Coerce(v, h).Some? then Ok(Coerce(v, h).value) else Err(TypeMismatch), s)
  {
    assert k == (k.0, k.1);
  }

  /** Declared and then read, an int under a float hint is stored as an int and read as a float. */
  lemma DeclaredIntIsFloat(t: Table, k: Key, n: int, s: State)
    requires Holds(t, k) && k in s.visible && t.slots[k] !in s.memo && Order(t, k.0) == [k.1]
    requires EntryAt(t, k).hint == Some(Hint(TFloat, "", false, [], [])) && EntryAt(t, k).expr == Literal(VInt(n))
    ensures var s1 := Pass(t, k.0, Order(t, k.0), s);
            && s1 == s.(memo := s.memo[t.slots[k] := VInt(n)])
            && EvalConst(t, k.0, k.1, s1) == (Ok(VFloat(n as real)), s1)
  {
    var s1 := s.(memo := s.memo[t.slots[k] := VInt(n)]);
    assert k == (k.0, k.1) && Order(t, k.0)[1..] == [];
    assert Pass(t, k.0, Order(t, k.0), s) == Pass(t, k.0, Order(t, k.0)[1..], s1);
    CachedTypedRead(t, k, Hint(TFloat, "", false, [], []), s1);
  }

  // ----- operators -----

  /** The operator is applied to the left and the right value, in this order. */
  lemma OperatorIsApplied(t: Table, cur: Class, e: Expr, a: Val, b: Val, o: Outcome, s: State)
    requires e.Op? && e.a == Literal(a) && e.b == Literal(b)
    requires o == match t.apply(e.op, a, b) case OpOk(v) => Ok(v) case OpErr(code) => Err(OperatorError(code))
    ensures EvalExpr(t, e, s) == (o, s) && ExprMeans(t, cur, e, o)
  {
    assert PlainExpr(t, 0, cur, e) == Done(o);
  }

  // ----- a value read always matches its hint -----

  lemma MeaningMatches(t: Table, k: Key, h: Hint, v: Val)
    requires Valid(t) && Holds(t, k) && EntryAt(t, k).hint == Some(h) && Means(t, k.0, k.1, Ok(v))
    ensures Matches(v, h)
  {
    var f: nat :| PlainConst(t, f, k.0, k.1) == Done(Ok(v));
    assert k == (k.0, k.1);
    var p := PlainExpr(t, f - 1, k.0, EntryAt(t, k).expr);
    assert p.Done? && p.o.Ok? && Coerce(p.o.v, h) == Some(v);
    CoercedMatches(p.o.v, h);
  }

  /** What a step reads matches the hint of the constant, if it has one. */
  ghost predicate MatchingStep(t: Table, known: set<Class>, step: Step, s: State) {
    var u, o := Restrict(t, known), After(t, known, step, s).0;
    step.ReadIn? && o.Some? && o.value.Ok? && Holds(u, (step.c, step.n)) && EntryAt(u, (step.c, step.n)).hint.Some? ==>
      Matches(o.value.v, EntryAt(u, (step.c, step.n)).hint.value)
  }

  ghost predicate MatchingRun(t: Table, known: set<Class>, steps: seq<Step>, s: State)
    decreases steps
  {
    steps != [] ==>
      && MatchingStep(t, known, steps[0], s)
      && MatchingRun(t, Known(t, known, steps[0]), steps[1..], After(t, known, steps[0], s).1)
  }

  /** Over any run every value read for a constant matches its hint. */
  lemma ReadsMatchHints(t: Table, known: set<Class>, steps: seq<Step>, s: State)
    requires HarmlessRun(t, known, steps, s) && Lawful(Restrict(t, known), s)
    ensures MatchingRun(t, known, steps, s)
  {
    EveryValueIsRight(t, known, steps, s);
    RightRunMatches(t, known, steps, s);
  }

  lemma {:induction false} RightRunMatches(t: Table, known: set<Class>, steps: seq<Step>, s: State)
    requires HarmlessRun(t, known, steps, s) && RightRun(t, known, steps, s)
    ensures MatchingRun(t, known, steps, s)
    decreases steps
  {
    if steps != [] {
      RightStepMatches(t, known, steps[0], s);
      RightRunMatches(t, Known(t, known, steps[0]), steps[1..], After(t, known, steps[0], s).1);
    }
  }

  lemma RightStepMatches(t: Table, known: set<Class>, step: Step, s: State)
    requires Valid(Restrict(t, known)) && RightStep(t, known, step, s)
    ensures MatchingStep(t, known, step, s)
  {
    var u, o := Restrict(t, known), After(t, known, step, s).0;
    if step.ReadIn? && o.Some? && o.value.Ok? && Holds(u, (step.c, step.n)) && EntryAt(u, (step.c, step.n)).hint.Some? {
      MeaningMatches(u, (step.c, step.n), EntryAt(u, (step.c, step.n)).hint.value, o.value.v);
    }
  }
}
