/** Whole runs: more classes become known as files are included, and code inside and outside of
    classes reads constants and so declares classes. */
module ClassRuns {
  import opened Options
  import opened ConstHints
  import opened ClassTables
  import opened ClassConstants
  import opened ClassSoundness
  import opened ClassLinking
  import opened ClassReads

  /** Before anything happens. */
  const Empty := State(map[], {}, None, None, {}, {}, {}, {})

  /** All classes are known and none is declared. */
  function Start(t: Table): State {
    Empty.(pending := t.classes.Keys)
  }

  lemma StartIsQuiet(t: Table, reach: map<Class, set<Class>>)
    requires Valid(t) && WellScoped(t) && Closed(t) && Untangled(t, reach)
    ensures Quiet(t, reach, Start(t))
  {
  }

  /** A file is loaded, or code running in a function of class `caller` reads a constant or mentions
      a class. */
  datatype Step =
    | Learn(classes: set<Class>)
    | ReadIn(caller: Option<Class>, c: Class, n: string)
    | MentionIn(caller: Option<Class>, c: Class)

  function Known(t: Table, known: set<Class>, step: Step): set<Class> {
    if step.Learn? then known + step.classes else known
  }

  /** What a step answers, if it reads, and the state after it. */
  function After(t: Table, known: set<Class>, step: Step, s: State): (Option<Outcome>, State) {
    match step
    case Learn(cs) => (None, s.(pending := s.pending + (set c | c in cs && c in t.classes && c !in known)))
    case ReadIn(caller, c, n) =>
      var (o, s') := Read(Restrict(t, known), c, n, s.(caller := caller, compiling := None));
      (Some(o), s')
    case MentionIn(caller, c) =>
      (None, LookUp(Restrict(t, known), Named(c), s.(caller := caller, compiling := None)).1)
  }

  /** What the steps of a run answer. */
  function Answers(t: Table, known: set<Class>, steps: seq<Step>, s: State): seq<Option<Outcome>>
    decreases steps
  {
    if steps == [] then []
    else
      var (o, s') := After(t, known, steps[0], s);
      [o] + Answers(t, Known(t, known, steps[0]), steps[1..], s')
  }

  /** At every step the known classes are well scoped, and the running function is not in a class
      or no scope can be lost. */
  ghost predicate HarmlessRun(t: Table, known: set<Class>, steps: seq<Step>, s: State)
    decreases steps
  {
    var u := Restrict(t, known);
    && Valid(u) && WellScoped(u)
    && (steps != [] ==>
          && (!steps[0].Learn? ==> Harmless(u, s.(caller := steps[0].caller)))
          && HarmlessRun(t, Known(t, known, steps[0]), steps[1..], After(t, known, steps[0], s).1))
  }

  /** A value that a step reads is what the constant means among the classes known then. */
  ghost predicate RightStep(t: Table, known: set<Class>, step: Step, s: State) {
    var o := After(t, known, step, s).0;
    step.ReadIn? && o.Some? && o.value.Ok? ==> Means(Restrict(t, known), step.c, step.n, o.value)
  }

  ghost predicate RightRun(t: Table, known: set<Class>, steps: seq<Step>, s: State)
    decreases steps
  {
    && Sound(Restrict(t, known), s.memo)
    && (steps != [] ==>
          && RightStep(t, known, steps[0], s)
          && RightRun(t, Known(t, known, steps[0]), steps[1..], After(t, known, steps[0], s).1))
  }

  lemma LearnedIsLawful(t: Table, known: set<Class>, more: set<Class>, s: State, r: State)
    requires Valid(Restrict(t, known)) && Lawful(Restrict(t, known), s)
    requires Valid(Restrict(t, more)) && WellScoped(Restrict(t, more)) && known <= more
    requires r.(pending := s.pending) == s && r.pending <= s.pending + (t.classes.Keys * more)
    ensures Lawful(Restrict(t, more), r)
  {
    var u, w := Restrict(t, known), Restrict(t, more);
    forall id | id in s.memo ensures exists k :: Holds(w, k) && w.slots[k] == id {
      var k :| Holds(u, k) && u.slots[k] == id;
      assert Holds(w, k);
    }
    forall k | Holds(w, k) && w.slots[k] in s.memo ensures Stands(w, k, s.memo[w.slots[k]]) {
      var l :| Holds(u, l) && u.slots[l] == w.slots[k];
      ValueStandsOn(t, known, more, l, s.memo[w.slots[k]]);
      SharersStand(w, l, k, s.memo[w.slots[k]]);
    }
    forall l | l in s.links ensures l.1 in Needs(w, l.0) {
      assert Needs(w, l.0) == Needs(u, l.0);
    }
    forall k | k in s.visible ensures Holds(w, k) {
      assert Holds(u, k);
    }
  }

  lemma ValueStandsOn(t: Table, known: set<Class>, more: set<Class>, k: (Class, string), v: Val)
    requires known <= more && Holds(Restrict(t, known), k) && Stands(Restrict(t, known), k, v)
    ensures Holds(Restrict(t, more), k) && Stands(Restrict(t, more), k, v)
  {
    var u := Restrict(t, known);
    var entry := EntryAt(u, k);
    var f: nat, x :| PlainExpr(u, f, k.0, entry.expr) == Done(Ok(x)) && Typed(v, entry.hint) == Typed(x, entry.hint);
    ValueIsKept(t, known, more, f, k.0, entry.expr);
    var w := Restrict(t, more);
    assert Holds(w, k) && EntryAt(w, k) == entry;
    assert PlainExpr(w, f, k.0, EntryAt(w, k).expr) == Done(Ok(x));
  }

  lemma StepIsRight(t: Table, known: set<Class>, step: Step, s: State)
    requires Valid(Restrict(t, known)) && WellScoped(Restrict(t, known)) && Lawful(Restrict(t, known), s)
    requires !step.Learn? ==> Harmless(Restrict(t, known), s.(caller := step.caller))
    ensures RightStep(t, known, step, s)
    ensures !step.Learn? ==> Lawful(Restrict(t, known), After(t, known, step, s).1)
  {
    if !step.Learn? {
      var u, s0 := Restrict(t, known), s.(caller := step.caller, compiling := None);
      if step.c in u.classes {
        LookUpRight(u, step.c, Named(step.c), s0);
        if step.ReadIn? {
          var s1 := LookUp(u, Named(step.c), s0).1;
          FewerAllSteady(u, s0.pending, s1.pending);
          EvalConstRight(u, step.c, step.n, s1);
        }
      } else {
        UnknownClass(u, step.c, if step.ReadIn? then step.n else "", s0);
      }
    }
  }

  /** Over any run, from the start, in any order of declarations and reads, nested in each other in
      any way, with failing declarations and lost scopes: every cached value is one that its
      constants mean, and every value read is the one the constant means. */
  lemma {:induction false} EveryValueIsRight(t: Table, known: set<Class>, steps: seq<Step>, s: State)
    requires HarmlessRun(t, known, steps, s) && Lawful(Restrict(t, known), s)
    ensures RightRun(t, known, steps, s)
    decreases steps
  {
    if steps != [] {
      StepIsRight(t, known, steps[0], s);
      var next, s' := Known(t, known, steps[0]), After(t, known, steps[0], s).1;
      if steps[0].Learn? {
        LearnedIsLawful(t, known, next, s, s');
      }
      EveryValueIsRight(t, next, steps[1..], s');
    }
  }

  /** Loading a file while nothing is being declared leaves nothing being declared. */
  lemma LoadedIsQuiet(t: Table, reach: map<Class, set<Class>>, wide: map<Class, set<Class>>, known: set<Class>,
      more: set<Class>, s: State)
    requires known <= more <= t.classes.Keys && Quiet(Restrict(t, known), reach, s) && s.caller.None?
    requires var w := Restrict(t, more); Valid(w) && WellScoped(w) && Closed(w) && Untangled(w, wide)
    ensures Quiet(Restrict(t, more), wide, s.(pending := s.pending + (more - known)))
  {
    var u, w, r := Restrict(t, known), Restrict(t, more), s.(pending := s.pending + (more - known));
    assert Lawful(w, r) by { LearnedIsLawful(t, known, more, s, r); }
    assert WholeBut(w, r, {}) by { LoadedIsWhole(t, known, more, s, r); }
  }

  lemma LoadedIsWhole(t: Table, known: set<Class>, more: set<Class>, s: State, r: State)
    requires known <= more <= t.classes.Keys && WholeBut(Restrict(t, known), s, {})
    requires r == s.(pending := s.pending + (more - known))
    ensures WholeBut(Restrict(t, more), r, {})
  {
    var u, w := Restrict(t, known), Restrict(t, more);
    assert u.classes.Keys == known && w.classes.Keys == more;
    forall c | c in r.declared ensures Whole(w, r, c) {
      assert c in u.classes.Keys && Whole(u, s, c) && Needs(w, c) == Needs(u, c);
      forall k | Holds(w, k) && k.0 == c ensures k in r.visible {
        assert Holds(u, k);
      }
    }
  }
}
