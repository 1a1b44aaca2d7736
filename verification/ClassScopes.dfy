/** Programs in which a declaration in the middle of another evaluation loses the compiling class. */
module ClassScopes {
  import opened Options
  import opened ConstHints
  import opened ClassTables
  import opened ClassConstants
  import opened ClassSoundness
  import opened ClassRuns

  // ----- one step at a time -----

  lemma PassStep(t: Table, c: Class, names: seq<string>, s: State)
    requires names != [] && (c, names[0]) in s.visible && Holds(t, (c, names[0])) && t.slots[(c, names[0])] !in s.memo
    ensures var id := t.slots[(c, names[0])];
            var (o, s1) := EvalExpr(t, t.entries[id].expr, s);
            Pass(t, c, names, s) == Pass(t, c, names[1..], Settled(id, o, s1))
  {
  }

  lemma PassCached(t: Table, c: Class, names: seq<string>, s: State)
    requires names != [] && (c, names[0]) in t.slots && t.slots[(c, names[0])] in s.memo
    ensures Pass(t, c, names, s) == Pass(t, c, names[1..], s)
  {
  }

  lemma PassHidden(t: Table, c: Class, names: seq<string>, s: State)
    requires names != [] && (c, names[0]) !in s.visible
    ensures Pass(t, c, names, s) == Pass(t, c, names[1..], s)
  {
  }

  lemma PassEnd(t: Table, c: Class, names: seq<string>, s: State)
    requires names == []
    ensures Pass(t, c, names, s) == s
  {
  }

  /** A class that extends and implements nothing. */
  lemma DeclareAlone(t: Table, c: Class, s: State)
    requires c in s.pending && Needs(t, c) == []
    ensures Declare(t, c, s) == (None, Pass(t, c, Order(t, c), Register(t, c, s)).(compiling := None))
  {
  }

  lemma DeclareChild(t: Table, c: Class, ds: seq<Class>, d: Class, s: State)
    requires c in s.pending && ds == Needs(t, c) && ds == [d] && LookUp(t, Named(d), Register(t, c, s)).0.Found?
    ensures var s2 := Link(t, c, d, LookUp(t, Named(d), Register(t, c, s)).1);
            Declare(t, c, s) == (None, Pass(t, c, Order(t, c), s2).(compiling := None))
  {
    var s1 := Register(t, c, s);
    assert ds[1..] == [];
    assert LinkAll(t, c, ds, s1) == LinkAll(t, c, ds[1..], Link(t, c, d, LookUp(t, Named(d), s1).1));
  }

  /** From the class being registered to its constants having been gone through. */
  lemma ChildIsDeclared(t: Table, c: Class, d: Class, s: State, s1: State, s2: State, r: State)
    requires c in s.pending && c !in s.declared && Needs(t, c) == [d] && Register(t, c, s) == s1
    requires LookUp(t, Named(d), s1) == (Found(d), s2)
    requires Pass(t, c, Order(t, c), Link(t, c, d, s2)).(compiling := None) == r
    ensures LookUp(t, Named(c), s) == (Found(c), r)
  {
    DeclareChild(t, c, Needs(t, c), d, s);
  }

  lemma AloneIsDeclared(t: Table, c: Class, s: State, s1: State, r: State)
    requires c in s.pending && c !in s.declared && Needs(t, c) == [] && Register(t, c, s) == s1
    requires Pass(t, c, Order(t, c), s1).(compiling := None) == r
    ensures LookUp(t, Named(c), s) == (Found(c), r)
  {
    DeclareAlone(t, c, s);
  }

  lemma PassOnly(t: Table, c: Class, n: string, s: State, v: Val, s1: State)
    requires Order(t, c) == [n] && (c, n) in s.visible && Holds(t, (c, n)) && t.slots[(c, n)] !in s.memo
    requires EvalExpr(t, EntryAt(t, (c, n)).expr, s) == (Ok(v), s1)
    ensures Pass(t, c, Order(t, c), s) == s1.(memo := s1.memo[t.slots[(c, n)] := v])
  {
    PassStep(t, c, Order(t, c), s);
    PassEnd(t, c, Order(t, c)[1..], Settled(t.slots[(c, n)], Ok(v), s1));
  }

  lemma ReadCached(t: Table, k: (Class, string), s: State)
    requires k in s.visible && Holds(t, k) && t.slots[k] in s.memo && EntryAt(t, k).hint.None?
    ensures EvalConst(t, k.0, k.1, s) == (Ok(s.memo[t.slots[k]]), s)
  {
    assert k == (k.0, k.1);
  }

  /** A class whose only constant is a literal. */
  lemma DeclareLiteral(t: Table, c: Class, n: string, v: Val, s: State)
    requires c in s.pending && c !in s.declared && Needs(t, c) == [] && Order(t, c) == [n]
    requires Holds(t, (c, n)) && Via(t, (c, n)) == c && EntryAt(t, (c, n)).expr == Literal(v)
    requires t.slots[(c, n)] !in s.memo && forall k :: k in t.slots && k.0 == c ==> k == (c, n)
    ensures LookUp(t, Named(c), s) ==
      (Found(c), s.(declared := s.declared + {c}, pending := s.pending - {c}, compiling := None,
                    visible := s.visible + {(c, n)}, memo := s.memo[t.slots[(c, n)] := v]))
  {
    var s1 := Register(t, c, s);
    assert s1.visible == s.visible + {(c, n)};
    DeclareAlone(t, c, s);
    PassStep(t, c, Order(t, c), s1);
    PassEnd(t, c, Order(t, c)[1..], Settled(t.slots[(c, n)], Ok(v), s1));
  }

  /** A class without constants. */
  lemma DeclareEmpty(t: Table, c: Class, s: State)
    requires c in s.pending && c !in s.declared && Needs(t, c) == [] && Order(t, c) == []
    requires forall k :: k in t.slots ==> k.0 != c
    ensures LookUp(t, Named(c), s) ==
      (Found(c), s.(declared := s.declared + {c}, pending := s.pending - {c}, compiling := None))
  {
    DeclareAlone(t, c, s);
    PassEnd(t, c, Order(t, c), Register(t, c, s));
    assert Register(t, c, s).visible == s.visible;
  }

  lemma NothingTaken(t: Table, c: Class, d: Class, s: State)
    requires forall k :: k in t.slots && k.0 == c && Via(t, k) == d ==> (d, k.1) !in s.visible
    ensures Link(t, c, d, s) == s.(links := s.links + {(c, d)})
  {
    assert Taken(t, c, d, s) == {};
    assert Copies(t, c, d, s) == {};
    assert Copied(t, {}, s.memo) == map[];
  }

  /** One constant is taken over, with its entry. */
  lemma TakesOne(t: Table, c: Class, d: Class, k: (Class, string), s: State)
    requires k in t.slots && k.0 == c && Via(t, k) == d && (d, k.1) in s.visible && (d, k.1) in t.slots
    requires t.slots[k] == t.slots[(d, k.1)]
    requires forall l :: l in t.slots && l != k && l.0 == c ==> Via(t, l) != d
    ensures Link(t, c, d, s) == s.(links := s.links + {(c, d)}, visible := s.visible + {k})
  {
    assert Taken(t, c, d, s) == {k};
    assert Copies(t, c, d, s) == {};
    assert Copied(t, {}, s.memo) == map[];
  }

  /** One constant is taken over as a copy, with the value that it has. */
  lemma TakesCopy(t: Table, c: Class, d: Class, k: (Class, string), s: State)
    requires Holds(t, k) && k.0 == c && Via(t, k) == d && (d, k.1) in s.visible && (d, k.1) in t.slots
    requires EntryAt(t, k).of == Some(t.slots[(d, k.1)]) && t.slots[k] != t.slots[(d, k.1)]
    requires t.slots[k] !in s.memo && t.slots[(d, k.1)] in s.memo
    requires forall l :: l in t.slots && l != k && l.0 == c ==> Via(t, l) != d
    ensures Link(t, c, d, s) == s.(links := s.links + {(c, d)}, visible := s.visible + {k},
                                   memo := s.memo[t.slots[k] := s.memo[t.slots[(d, k.1)]]])
  {
    assert Taken(t, c, d, s) == {k};
    assert Copies(t, c, d, s) == {t.slots[k]};
    assert Copied(t, {t.slots[k]}, s.memo) == map[t.slots[k] := s.memo[t.slots[(d, k.1)]]];
  }

  lemma AllKnown(t: Table, known: set<Class>)
    requires t.classes.Keys <= known
    ensures Restrict(t, known) == t
  {
    assert Restrict(t, known).classes == t.classes;
  }

  lemma NextAnswer(t: Table, known: set<Class>, step: Step, rest: seq<Step>, steps: seq<Step>, s: State)
    requires steps == [step] + rest
    ensures var (o, s') := After(t, known, step, s);
            Answers(t, known, steps, s) == [o] + Answers(t, Known(t, known, step), rest, s')
  {
    assert steps[0] == step && steps[1..] == rest;
  }

  lemma LearnNext(t: Table, known: set<Class>, cs: set<Class>, rest: seq<Step>, steps: seq<Step>, s: State,
      next: set<Class>, r: State)
    requires steps == [Learn(cs)] + rest && cs <= t.classes.Keys && cs !! known
    requires next == known + cs && r == s.(pending := s.pending + cs)
    ensures Answers(t, known, steps, s) == [None] + Answers(t, next, rest, r)
  {
    NextAnswer(t, known, Learn(cs), rest, steps, s);
    assert (set c | c in cs && c in t.classes && c !in known) == cs;
  }

  lemma MentionNext(t: Table, known: set<Class>, u: Table, c: Class, rest: seq<Step>, steps: seq<Step>, s: State,
      r: State)
    requires steps == [MentionIn(None, c)] + rest && u == Restrict(t, known) && s.caller.None? && s.compiling.None?
    requires r == LookUp(u, Named(c), s).1
    ensures Answers(t, known, steps, s) == [None] + Answers(t, known, rest, r)
  {
    NextAnswer(t, known, MentionIn(None, c), rest, steps, s);
    assert s.(caller := None, compiling := None) == s;
  }

  lemma ReadNext(t: Table, known: set<Class>, u: Table, caller: Option<Class>, k: (Class, string), rest: seq<Step>,
      steps: seq<Step>, s: State, o: Outcome, r: State)
    requires steps == [ReadIn(caller, k.0, k.1)] + rest && u == Restrict(t, known)
    requires (o, r) == Read(u, k.0, k.1, s.(caller := caller, compiling := None))
    ensures Answers(t, known, steps, s) == [Some(o)] + Answers(t, known, rest, r)
  {
    NextAnswer(t, known, ReadIn(caller, k.0, k.1), rest, steps, s);
  }

  lemma ThreeAnswers(a: seq<Option<Outcome>>, b: seq<Option<Outcome>>, c: seq<Option<Outcome>>, d: seq<Option<Outcome>>)
    requires a == [None] + b && b == [None] + c && c == [None] + d
    ensures a == [None, None, None] + d
  {
  }

  lemma NoAnswers(t: Table, known: set<Class>, steps: seq<Step>, s: State)
    requires steps == []
    ensures Answers(t, known, steps, s) == []
  {
  }

  // ----- `self` read against the class of the running function -----

  /** `echo (new Q)->f();
      class Q { const Y = 100; function f() { return B::X; } }
      class B extends A { const X = self::Y; const Y = 1; }  class A {}` */
  function Method(): Table {
    Table(map["Q" := Decl(None, [], ["Y"]), "B" := Decl(Some("A"), [], ["X", "Y"]), "A" := Decl(None, [], [])],
          map[("Q", "Y") := 0, ("B", "X") := 1, ("B", "Y") := 2], map[],
          map[0 := Entry(Literal(VInt(100)), None, None), 1 := Entry(Ref(Self, "Y"), None, None),
              2 := Entry(Literal(VInt(1)), None, None)],
          Sum, _ => true)
  }

  function Sum(op: nat, a: Val, b: Val): OpResult {
    if a.VInt? && b.VInt? then OpOk(VInt(a.i + b.i)) else OpErr(0)
  }

  /** Q is declared, and a method of it is running. */
  function InMethod(): State {
    State(map[0 := VInt(100)], {}, None, Some("Q"), {"Q"}, {"A", "B"}, {}, {("Q", "Y")})
  }

  /** B while its constants are gone through: the compiling class is lost to A. */
  function InB(): State {
    State(map[0 := VInt(100)], {}, None, Some("Q"), {"Q", "A", "B"}, {}, {("B", "A")},
          {("Q", "Y"), ("B", "X"), ("B", "Y")})
  }

  lemma QIsDeclared(t: Table, s: State)
    requires t == Method() && s == Empty.(pending := {"A", "B", "Q"})
    ensures LookUp(t, Named("Q"), s) == (Found("Q"), InMethod().(caller := None))
  {
    DeclareLiteral(t, "Q", "Y", VInt(100), s);
    assert s.pending - {"Q"} == {"A", "B"} && s.declared + {"Q"} == {"Q"};
    assert s.visible + {("Q", "Y")} == {("Q", "Y")} && s.memo[0 := VInt(100)] == map[0 := VInt(100)];
  }

  lemma BIsLinked(t: Table, s: State)
    requires t == Method() && s == InMethod()
    ensures "B" in s.pending && Declare(t, "B", s) == (None, Pass(t, "B", Order(t, "B"), InB()).(compiling := None))
  {
    var c, d := "B", "A";
    var s1 := Register(t, c, s);
    assert s1.visible == {("Q", "Y"), ("B", "X"), ("B", "Y")};
    assert s1.pending == {"A"};
    DeclareEmpty(t, d, s1);
    var s3 := LookUp(t, Named(d), s1).1;
    NothingTaken(t, c, d, s3);
    assert Link(t, c, d, s3) == InB();
    DeclareChild(t, c, Needs(t, c), d, s);
  }

  /** B::X takes its value from Q. */
  lemma BIsDeclared(t: Table, s: State)
    requires t == Method() && s == InMethod()
    ensures LookUp(t, Named("B"), s) ==
      (Found("B"), InB().(memo := map[0 := VInt(100), 1 := VInt(100), 2 := VInt(1)]))
  {
    var order, s2 := Order(t, "B"), InB();
    BIsLinked(t, s);
    PassStep(t, "B", order, s2);
    ReadCached(t, ("Q", "Y"), s2);
    assert EvalExpr(t, Ref(Self, "Y"), s2) == (Ok(VInt(100)), s2);
    var s3 := Settled(1, Ok(VInt(100)), s2);
    PassStep(t, "B", order[1..], s3);
    assert EvalExpr(t, Literal(VInt(1)), s3) == (Ok(VInt(1)), s3);
    PassEnd(t, "B", order[1..][1..], Settled(2, Ok(VInt(1)), s3));
  }

  /** The constant means 1, and is 100 from there on. */
  lemma SelfIsTheCaller(t: Table, all: set<Class>, steps: seq<Step>)
    requires t == Method() && all == {"Q", "B", "A"}
    requires steps == [Learn(all), MentionIn(None, "Q"), ReadIn(Some("Q"), "B", "X"), ReadIn(None, "B", "X")]
    ensures Answers(t, {}, steps, Empty) == [None, None, Some(Ok(VInt(100))), Some(Ok(VInt(100)))]
    ensures Means(t, "B", "X", Ok(VInt(1)))
  {
    var s1 := Empty.(pending := {"A", "B", "Q"});
    LearnNext(t, {}, all, steps[1..], steps, Empty, all, s1);
    AfterQ(t, all, steps, s1, InMethod().(caller := None));
    BothAreHundred(t, all, steps[2..], InMethod().(caller := None));
    OneInB(t, "B");
  }

  lemma AfterQ(t: Table, all: set<Class>, steps: seq<Step>, s: State, r: State)
    requires t == Method() && all == {"Q", "B", "A"} && s == Empty.(pending := {"A", "B", "Q"})
    requires |steps| > 2 && steps[1] == MentionIn(None, "Q") && r == InMethod().(caller := None)
    ensures Answers(t, all, steps[1..], s) == [None] + Answers(t, all, steps[2..], r)
  {
    AllKnown(t, all);
    QIsDeclared(t, s);
    MentionNext(t, all, t, "Q", steps[2..], steps[1..], s, r);
  }

  lemma BothAreHundred(t: Table, all: set<Class>, steps: seq<Step>, s: State)
    requires t == Method() && all == {"Q", "B", "A"} && s == InMethod().(caller := None)
    requires steps == [ReadIn(Some("Q"), "B", "X"), ReadIn(None, "B", "X")]
    ensures Answers(t, all, steps, s) == [Some(Ok(VInt(100))), Some(Ok(VInt(100)))]
  {
    var k, s3 := ("B", "X"), InB().(memo := map[0 := VInt(100), 1 := VInt(100), 2 := VInt(1)]);
    AllKnown(t, all);
    BIsDeclared(t, InMethod());
    ReadCached(t, k, s3);
    assert Read(t, "B", "X", InMethod()) == EvalConst(t, "B", "X", s3);
    ReadNext(t, all, t, Some("Q"), k, steps[1..], steps, s, Ok(VInt(100)), s3);
    ReadDeclared(t, "B", "X", s3.(caller := None));
    ReadCached(t, k, s3.(caller := None));
    ReadNext(t, all, t, None, k, steps[2..], steps[1..], s3, Ok(VInt(100)), s3.(caller := None));
    NoAnswers(t, all, steps[2..], s3.(caller := None));
  }

  lemma OneInB(t: Table, c: Class)
    requires t == Method() && c == "B"
    ensures Means(t, c, "X", Ok(VInt(1)))
  {
    assert PlainConst(t, 1, c, "Y") == Done(Ok(VInt(1)));
    assert PlainExpr(t, 1, c, Ref(Self, "Y")) == Done(Ok(VInt(1)));
    assert PlainConst(t, 2, c, "X") == Done(Ok(VInt(1)));
  }

  // ----- a scope lost once -----

  /** `class A { const X = D::Z + self::Y; const Y = 1; }`, and in a file loaded later
      `class D { const Z = 10; }` */
  function LateFirst(): Table {
    Table(map["A" := Decl(None, [], ["X", "Y"]), "D" := Decl(None, [], ["Z"])],
          map[("A", "X") := 0, ("A", "Y") := 1, ("D", "Z") := 2], map[],
          map[0 := Entry(Op(0, Ref(Named("D"), "Z"), Ref(Self, "Y")), None, None),
              1 := Entry(Literal(VInt(1)), None, None), 2 := Entry(Literal(VInt(10)), None, None)],
          Sum, _ => true)
  }

  /** A is declared without D. */
  function WithoutD(): State {
    State(map[1 := VInt(1)], {}, None, None, {"A"}, {}, {}, {("A", "X"), ("A", "Y")})
  }

  /** D has been declared. */
  function WithD(): State {
    State(map[1 := VInt(1), 2 := VInt(10)], {}, None, None, {"A", "D"}, {}, {},
          {("A", "X"), ("A", "Y"), ("D", "Z")})
  }

  lemma AIsDeclared(t: Table, u: Table, s: State)
    requires t == LateFirst() && u == Restrict(t, {"A"}) && s == Empty.(pending := {"A"})
    ensures LookUp(u, Named("A"), s) == (Found("A"), WithoutD())
  {
    var c := "A";
    DeclareAlone(u, c, s);
    var s1 := Register(u, c, s);
    assert s1.visible == {("A", "X"), ("A", "Y")} && s1.declared == {"A"} && s1.pending == {};
    var order := Order(u, c);
    PassStep(u, c, order, s1);
    UnknownClass(u, "D", "Z", s1);
    assert EvalExpr(u, Ref(Named("D"), "Z"), s1) == (Err(NoClass), s1);
    PassStep(u, c, order[1..], s1);
    assert EvalExpr(u, Literal(VInt(1)), s1) == (Ok(VInt(1)), s1);
    var s2 := Settled(1, Ok(VInt(1)), s1);
    assert s2.memo == map[1 := VInt(1)];
    PassEnd(u, c, order[1..][1..], s2);
  }

  /** The first operand declares D, and `self` has no class any more. */
  lemma FirstReadFails(t: Table, s: State, r: State)
    requires t == LateFirst() && s == WithoutD().(pending := {"D"}) && r == WithD()
    ensures Read(t, "A", "X", s) == (Err(NoScope), r)
  {
    var s1 := s.(resolving := s.resolving + {0}, compiling := Some("A"));
    ReadDeclared(t, "A", "X", s);
    Resolving(t, ("A", "X"), s, s1);
    LosesScope(t, s1, r.(resolving := {0}));
  }

  lemma LosesScope(t: Table, s: State, r: State)
    requires t == LateFirst() && r == WithD().(resolving := {0})
    requires s == WithoutD().(pending := {"D"}, resolving := {0}, compiling := Some("A"))
    ensures EvalExpr(t, t.entries[0].expr, s) == (Err(NoScope), r)
  {
    DeclareLiteral(t, "D", "Z", VInt(10), s);
    assert s.declared + {"D"} == r.declared && s.pending - {"D"} == {};
    assert s.visible + {("D", "Z")} == r.visible && s.memo[2 := VInt(10)] == r.memo;
    assert LookUp(t, Named("D"), s) == (Found("D"), r);
    ReadCached(t, ("D", "Z"), r);
    assert EvalExpr(t, Ref(Named("D"), "Z"), s) == (Ok(VInt(10)), r);
    assert EvalExpr(t, Ref(Self, "Y"), r) == (Err(NoScope), r);
    SecondFails(t, t.entries[0].expr, s, r);
  }

  lemma SecondFails(t: Table, e: Expr, s1: State, s2: State)
    requires e.Op? && EvalExpr(t, e.a, s1).0.Ok? && EvalExpr(t, e.a, s1).1 == s2
    requires EvalExpr(t, e.b, s2) == (Err(NoScope), s2)
    ensures EvalExpr(t, e, s1) == (Err(NoScope), s2)
  {
  }

  lemma LaterReadSucceeds(t: Table, s: State)
    requires t == LateFirst() && s == WithD()
    ensures Read(t, "A", "X", s).0 == Ok(VInt(11))
  {
    ReadDeclared(t, "A", "X", s);
    var s1 := s.(resolving := {0}, compiling := Some("A"));
    assert s.resolving + {0} == {0};
    ReadDeclared(t, "D", "Z", s1);
    ReadCached(t, ("D", "Z"), s1);
    ReadCached(t, ("A", "Y"), s1);
    assert EvalExpr(t, Ref(Self, "Y"), s1) == (Ok(VInt(1)), s1);
  }

  /** The first read of A::X fails, the second gives 11. */
  lemma ScopeIsLostOnce(t: Table, all: set<Class>, steps: seq<Step>)
    requires t == LateFirst() && all == {"A", "D"}
    requires steps == [Learn({"A"}), MentionIn(None, "A"), Learn({"D"}), ReadIn(None, "A", "X"), ReadIn(None, "A", "X")]
    ensures Answers(t, {}, steps, Empty) == [None, None, None, Some(Err(NoScope)), Some(Ok(VInt(11)))]
  {
    var s1, s2 := Empty.(pending := {"A"}), WithoutD().(pending := {"D"});
    LearnNext(t, {}, {"A"}, steps[1..], steps, Empty, {"A"}, s1);
    AfterA(t, {"A"}, Restrict(t, {"A"}), steps, s1);
    AfterLateD(t, {"A"}, all, steps, s2);
    FailsThenSucceeds(t, all, steps[3..], s2);
    ThreeAnswers(Answers(t, {}, steps, Empty), Answers(t, {"A"}, steps[1..], s1),
      Answers(t, {"A"}, steps[2..], WithoutD()), Answers(t, all, steps[3..], s2));
  }

  lemma AfterA(t: Table, known: set<Class>, u: Table, steps: seq<Step>, s: State)
    requires t == LateFirst() && known == {"A"} && u == Restrict(t, known) && s == Empty.(pending := {"A"})
    requires |steps| > 2 && steps[1] == MentionIn(None, "A")
    ensures Answers(t, known, steps[1..], s) == [None] + Answers(t, known, steps[2..], WithoutD())
  {
    AIsDeclared(t, u, s);
    MentionNext(t, known, u, "A", steps[2..], steps[1..], s, WithoutD());
  }

  lemma AfterLateD(t: Table, known: set<Class>, all: set<Class>, steps: seq<Step>, s: State)
    requires t == LateFirst() && known == {"A"} && all == {"A", "D"} && s == WithoutD().(pending := {"D"})
    requires |steps| > 2 && steps[2] == Learn({"D"})
    ensures Answers(t, known, steps[2..], WithoutD()) == [None] + Answers(t, all, steps[3..], s)
  {
    LearnNext(t, known, {"D"}, steps[3..], steps[2..], WithoutD(), all, s);
  }

  lemma FailsThenSucceeds(t: Table, all: set<Class>, steps: seq<Step>, s: State)
    requires t == LateFirst() && all == {"A", "D"} && s == WithoutD().(pending := {"D"})
    requires steps == [ReadIn(None, "A", "X"), ReadIn(None, "A", "X")]
    ensures Answers(t, all, steps, s) == [Some(Err(NoScope)), Some(Ok(VInt(11)))]
  {
    var k, r := ("A", "X"), Read(t, "A", "X", WithD()).1;
    AllKnown(t, all);
    FirstReadFails(t, s, WithD());
    ReadNext(t, all, t, None, k, steps[1..], steps, s, Err(NoScope), WithD());
    LaterReadSucceeds(t, WithD());
    ReadNext(t, all, t, None, k, steps[2..], steps[1..], WithD(), Ok(VInt(11)), r);
    NoAnswers(t, all, steps[2..], r);
  }

  /** What the first two programs break: the pass over B reads `self` behind the declaration of A,
      and the expression of A::X reads it behind D. */
  lemma NeitherIsSteady(t: Table, u: Table)
    requires t == Method() && u == LateFirst()
    ensures !SteadyClass(t, "B", {"A", "B"}) && !SteadyExprs(u, {"D"})
  {
    var order := Order(t, "B");
    assert "A" in Needs(t, "B");
    assert !SteadyPass(t, "B", order, {"A", "B"}, true);
    assert Holds(u, ("A", "X")) && !Steady(EntryAt(u, ("A", "X")).expr, {"D"});
  }
}
