/** A program in which a class is declared on behalf of one that it extends, and loses a constant. */
module ClassTangles {
  import opened Options
  import opened ConstHints
  import opened ClassTables
  import opened ClassConstants
  import opened ClassLinking
  import opened ClassRuns
  import opened ClassScopes

  /** `class A extends B {}  class B { const K = E::Q; }  class C extends A {}
      class E extends C { const Q = 1; }` */
  function Tangle(): Table {
    Table(map["A" := Decl(Some("B"), [], ["K"]), "B" := Decl(None, [], ["K"]),
              "C" := Decl(Some("A"), [], ["K"]), "E" := Decl(Some("C"), [], ["Q", "K"])],
          map[("B", "K") := 0, ("A", "K") := 1, ("C", "K") := 1, ("E", "K") := 1, ("E", "Q") := 2],
          map[("A", "K") := "B", ("C", "K") := "A", ("E", "K") := "C"],
          map[0 := Entry(Ref(Named("E"), "Q"), None, None), 1 := Entry(Ref(Named("E"), "Q"), None, Some(0)),
              2 := Entry(Literal(VInt(1)), None, None)],
          Sum, _ => true)
  }

  /** A waits for B, and B's constant for E. */
  function ForE(): State {
    State(map[], {}, Some("E"), None, {"A", "B", "E"}, {"C"}, {}, {("B", "K"), ("E", "Q")})
  }

  /** C has been linked to A, which has nothing yet. */
  function CIsBare(): State {
    State(map[], {}, None, None, {"A", "B", "C", "E"}, {}, {("C", "A")}, {("B", "K"), ("E", "Q")})
  }

  function EIsBare(): State {
    State(map[2 := VInt(1)], {}, None, None, {"A", "B", "C", "E"}, {}, {("C", "A"), ("E", "C")},
          {("B", "K"), ("E", "Q")})
  }

  function BIsDone(): State {
    State(map[0 := VInt(1), 2 := VInt(1)], {}, None, None, {"A", "B", "C", "E"}, {}, {("C", "A"), ("E", "C")},
          {("B", "K"), ("E", "Q")})
  }

  function AtTheEnd(): State {
    State(map[0 := VInt(1), 1 := VInt(1), 2 := VInt(1)], {}, None, None, {"A", "B", "C", "E"}, {},
          {("C", "A"), ("E", "C"), ("A", "B")}, {("B", "K"), ("E", "Q"), ("A", "K")})
  }

  /** The pass over B comes to K. */
  function BTries(): State {
    State(map[], {}, Some("B"), None, {"A", "B"}, {"C", "E"}, {}, {("B", "K")})
  }

  lemma CIsDeclared(t: Table, s: State, r: State)
    requires t == Tangle() && s == ForE() && r == CIsBare()
    ensures LookUp(t, Named("C"), s) == (Found("C"), r)
  {
    var c, d := "C", "A";
    var s1 := CIsBare().(compiling := Some("C"), links := {});
    assert Register(t, c, s).visible == s.visible && s.declared + {c} == s1.declared && s.pending - {c} == {};
    assert Register(t, c, s) == s1 && LookUp(t, Named(d), s1) == (Found(d), s1);
    NothingTaken(t, c, d, s1);
    DeclareChild(t, c, Needs(t, c), d, s);
    var s2 := Link(t, c, d, s1);
    assert s2.links == {("C", "A")};
    PassHidden(t, c, Order(t, c), s2);
    PassEnd(t, c, Order(t, c)[1..], s2);
  }

  lemma EIsDeclared(t: Table, s: State, r: State)
    requires t == Tangle() && s == BTries() && r == EIsBare()
    ensures LookUp(t, Named("E"), s) == (Found("E"), r)
  {
    var s1, s2 := ForE(), CIsBare();
    assert Register(t, "E", s) == s1 by { EIsRegistered(t, "E", s, s1); }
    assert LookUp(t, Named("C"), s1) == (Found("C"), s2) by { CIsDeclared(t, s1, s2); }
    assert Pass(t, "E", Order(t, "E"), Link(t, "E", "C", s2)) == r by { EIsLinked(t, "E", "C", s2); }
    assert Needs(t, "E") == ["C"] by { ENeedsC(t); }
    ChildIsDeclared(t, "E", "C", s, s1, s2, r);
  }

  lemma ENeedsC(t: Table)
    requires t == Tangle()
    ensures Needs(t, "E") == ["C"]
  {
  }

  lemma EIsRegistered(t: Table, c: Class, s: State, r: State)
    requires t == Tangle() && c == "E" && r == ForE()
    requires s == BTries()
    ensures Register(t, c, s) == r
  {
    assert Register(t, c, s).visible == r.visible && s.declared + {c} == r.declared && s.pending - {c} == {"C"};
  }

  lemma EIsLinked(t: Table, c: Class, d: Class, s: State)
    requires t == Tangle() && c == "E" && d == "C" && s == CIsBare()
    ensures Pass(t, c, Order(t, c), Link(t, c, d, s)) == EIsBare()
  {
    NothingTaken(t, c, d, s);
    var s2 := Link(t, c, d, s);
    PassStep(t, c, Order(t, c), s2);
    assert EvalExpr(t, Literal(VInt(1)), s2) == (Ok(VInt(1)), s2);
    var s3 := Settled(2, Ok(VInt(1)), s2);
    assert s3.memo == EIsBare().memo && s3.links == EIsBare().links;
    PassHidden(t, c, Order(t, c)[1..], s3);
    PassEnd(t, c, Order(t, c)[1..][1..], s3);
  }

  lemma BIsDeclared(t: Table, s: State, r: State)
    requires t == Tangle() && r == BIsDone()
    requires s == State(map[], {}, Some("A"), None, {"A"}, {"B", "C", "E"}, {}, {})
    ensures LookUp(t, Named("B"), s) == (Found("B"), r)
  {
    var s1 := BTries();
    BIsRegistered(t, "B", s, s1);
    BIsPassed(t, s1, r);
    AloneIsDeclared(t, "B", s, s1, r);
  }

  lemma BIsPassed(t: Table, s: State, r: State)
    requires t == Tangle() && s == BTries() && r == BIsDone()
    ensures Needs(t, "B") == [] && Pass(t, "B", Order(t, "B"), s) == r
  {
    BReadsE(t, s, EIsBare());
    PassOnly(t, "B", "K", s, VInt(1), EIsBare());
    assert EIsBare().memo[0 := VInt(1)] == r.memo;
  }

  lemma BIsRegistered(t: Table, c: Class, s: State, r: State)
    requires t == Tangle() && c == "B" && r == BTries()
    requires s == State(map[], {}, Some("A"), None, {"A"}, {"B", "C", "E"}, {}, {})
    ensures Register(t, c, s) == r
  {
    assert Register(t, c, s).visible == r.visible && s.declared + {c} == r.declared && s.pending - {c} == {"C", "E"};
  }

  lemma BReadsE(t: Table, s: State, r: State)
    requires t == Tangle() && s == BTries() && r == EIsBare()
    ensures EvalExpr(t, Ref(Named("E"), "Q"), s) == (Ok(VInt(1)), r)
  {
    EIsDeclared(t, s, r);
    ReadCached(t, ("E", "Q"), r);
  }

  /** A has the copy that C and E should have from it. */
  lemma AIsLinked(t: Table, c: Class, d: Class, s: State)
    requires t == Tangle() && c == "A" && d == "B" && s == BIsDone()
    ensures Pass(t, c, Order(t, c), Link(t, c, d, s)) == AtTheEnd()
  {
    TakesCopy(t, c, d, (c, "K"), s);
    var s1 := Link(t, c, d, s);
    assert s1.memo == AtTheEnd().memo && s1.links == AtTheEnd().links && s1.visible == AtTheEnd().visible;
    PassCached(t, c, Order(t, c), s1);
    PassEnd(t, c, Order(t, c)[1..], s1);
  }

  lemma AIsDeclared(t: Table, s: State, r: State)
    requires t == Tangle() && s == Empty.(pending := {"A", "B", "C", "E"}) && r == AtTheEnd()
    ensures LookUp(t, Named("A"), s) == (Found("A"), r)
  {
    var s1, s2 := State(map[], {}, Some("A"), None, {"A"}, {"B", "C", "E"}, {}, {}), BIsDone();
    AIsRegistered(t, "A", s, s1);
    BIsDeclared(t, s1, s2);
    AIsLinked(t, "A", "B", s2);
    ANeedsB(t);
    ChildIsDeclared(t, "A", "B", s, s1, s2, r);
  }

  lemma ANeedsB(t: Table)
    requires t == Tangle()
    ensures Needs(t, "A") == ["B"]
  {
  }

  lemma AIsRegistered(t: Table, c: Class, s: State, r: State)
    requires t == Tangle() && c == "A" && s == Empty.(pending := {"A", "B", "C", "E"})
    requires r == State(map[], {}, Some("A"), None, {"A"}, {"B", "C", "E"}, {}, {})
    ensures Register(t, c, s) == r
  {
    assert Register(t, c, s).visible == {} && s.declared + {c} == {"A"} && s.pending - {c} == {"B", "C", "E"};
  }

  lemma EHasNoK(t: Table, s: State)
    requires t == Tangle() && s == AtTheEnd()
    ensures Read(t, "E", "K", s) == (Err(Undefined), s) && Read(t, "A", "K", s) == (Ok(VInt(1)), s)
  {
    ReadDeclared(t, "E", "K", s);
    assert Find(t, s, ("E", "K")) == None;
    ReadDeclared(t, "A", "K", s);
    ReadCached(t, ("A", "K"), s);
  }

  /** A::K is read as 1; E, which is declared by then, never gets the K it inherits. */
  lemma TangleLosesConstant(t: Table, all: set<Class>, steps: seq<Step>)
    requires t == Tangle() && all == {"A", "B", "C", "E"}
    requires steps == [Learn(all), ReadIn(None, "A", "K"), ReadIn(None, "E", "K")]
    ensures Answers(t, {}, steps, Empty) == [None, Some(Ok(VInt(1))), Some(Err(Undefined))]
    ensures Means(t, "E", "K", Ok(VInt(1)))
  {
    var s1 := Empty.(pending := {"A", "B", "C", "E"});
    LearnNext(t, {}, all, steps[1..], steps, Empty, all, s1);
    BothReads(t, all, steps[1..], s1);
    OneInE(t, "E");
  }

  lemma BothReads(t: Table, all: set<Class>, steps: seq<Step>, s: State)
    requires t == Tangle() && all == {"A", "B", "C", "E"} && s == Empty.(pending := {"A", "B", "C", "E"})
    requires steps == [ReadIn(None, "A", "K"), ReadIn(None, "E", "K")]
    ensures Answers(t, all, steps, s) == [Some(Ok(VInt(1))), Some(Err(Undefined))]
  {
    var r := AtTheEnd();
    AllKnown(t, all);
    EHasNoK(t, r);
    assert Read(t, "A", "K", s) == (Ok(VInt(1)), r) by { AIsReadFirst(t, s, r); }
    ReadNext(t, all, t, None, ("A", "K"), steps[1..], steps, s, Ok(VInt(1)), r);
    ReadNext(t, all, t, None, ("E", "K"), steps[2..], steps[1..], r, Err(Undefined), r);
    NoAnswers(t, all, steps[2..], r);
  }

  lemma AIsReadFirst(t: Table, s: State, r: State)
    requires t == Tangle() && s == Empty.(pending := {"A", "B", "C", "E"}) && r == AtTheEnd()
    ensures Read(t, "A", "K", s) == (Ok(VInt(1)), r)
  {
    AIsDeclared(t, s, r);
    EHasNoK(t, r);
    ReadDeclared(t, "A", "K", r);
    assert Read(t, "A", "K", s) == EvalConst(t, "A", "K", r);
  }

  lemma OneInE(t: Table, c: Class)
    requires t == Tangle() && c == "E"
    ensures Means(t, c, "K", Ok(VInt(1)))
  {
    assert PlainConst(t, 1, c, "Q") == Done(Ok(VInt(1)));
    assert PlainExpr(t, 1, c, Ref(Named("E"), "Q")) == Done(Ok(VInt(1)));
    assert PlainConst(t, 2, c, "K") == Done(Ok(VInt(1)));
  }

  /** What the program breaks: C extends A, and is declared while A looks up B. */
  lemma TangleIsTangled(t: Table, reach: map<Class, set<Class>>)
    requires t == Tangle()
    ensures !Untangled(t, reach)
  {
    assert "A" in t.classes && "B" in Needs(t, "A") && "C" in t.classes && "A" in Needs(t, "C");
    if "A" in reach && "B" in reach["A"]
      && (forall x :: x in reach["A"] && x in t.classes ==> Within(t, x, reach["A"])) {
      ReachesC(t, reach["A"]);
    }
  }

  lemma ReachesC(t: Table, classes: set<Class>)
    requires t == Tangle() && "B" in classes && forall x :: x in classes && x in t.classes ==> Within(t, x, classes)
    ensures "C" in classes
  {
    assert Holds(t, ("B", "K")) && Mentions(EntryAt(t, ("B", "K")).expr) == {"E"};
    assert Within(t, "B", classes) && "E" in {"E"};
    assert Within(t, "E", classes) && "C" in Needs(t, "E");
  }
}
