/** Entries that an interface and the classes implementing it hold together. */
module ClassSharing {
  import opened Options
  import opened ConstHints
  import opened ClassTables
  import opened ClassConstants
  import opened ClassSoundness
  import opened ClassLinking
  import opened ClassReads
  import opened ClassRuns
  import opened ClassScopes

  // ----- an entry whose value depends on who both it first -----

  /** `interface I { const X = self::Y + D::Z; const Y = 1; }  class C implements I { const Y = 2; }`,
      and in a file loaded later `class D { const Z = 10; }` */
  function LateOperand(): Table {
    Table(map["I" := Decl(None, [], ["X", "Y"]), "C" := Decl(None, ["I"], ["Y"]), "D" := Decl(None, [], ["Z"])],
          map[("I", "X") := 0, ("C", "X") := 0, ("I", "Y") := 1, ("C", "Y") := 2, ("D", "Z") := 3],
          map[("C", "X") := "I"],
          map[0 := Entry(Op(0, Ref(Self, "Y"), Ref(Named("D"), "Z")), None, None),
              1 := Entry(Literal(VInt(1)), None, None), 2 := Entry(Literal(VInt(2)), None, None),
              3 := Entry(Literal(VInt(10)), None, None)],
          Sum, _ => true)
  }

  /** I and C are declared without D; X is open. */
  function Waiting(): State {
    State(map[1 := VInt(1), 2 := VInt(2)], {}, None, None, {"I", "C"}, {}, {("C", "I")},
          {("I", "X"), ("I", "Y"), ("C", "Y"), ("C", "X")})
  }

  /** I is declared on behalf of C, which waits for it. */
  function ForC(): State {
    State(map[1 := VInt(1)], {}, None, None, {"C", "I"}, {}, {}, {("C", "Y"), ("I", "X"), ("I", "Y")})
  }

  lemma IIsDeclared(t: Table, u: Table, s: State)
    requires t == LateOperand() && u == Restrict(t, {"I", "C"})
    requires s == State(map[], {}, Some("C"), None, {"C"}, {"I"}, {}, {("C", "Y")})
    ensures LookUp(u, Named("I"), s) == (Found("I"), ForC())
  {
    var c := "I";
    var s1 := ForC().(memo := map[], compiling := Some(c));
    assert Register(u, c, s).visible == s1.visible && s.declared + {c} == s1.declared && s.pending - {c} == {};
    DeclareAlone(u, c, s);
    var order := Order(u, c);
    PassStep(u, c, order, s1);
    XWithoutD(t, u, s1);
    var s2 := s1.(memo := map[1 := VInt(1)]);
    PassCached(u, c, order[1..], s2);
    PassEnd(u, c, order[1..][1..], s2);
  }

  /** Trying X resolves Y and fails at D. */
  lemma XWithoutD(t: Table, u: Table, s: State)
    requires t == LateOperand() && u == Restrict(t, {"I", "C"})
    requires s == ForC().(memo := map[], compiling := Some("I"))
    ensures EvalExpr(u, u.entries[0].expr, s) == (Err(NoClass), s.(memo := map[1 := VInt(1)]))
  {
    var s1 := s.(memo := map[1 := VInt(1)]);
    ReadLiteral(u, ("I", "Y"), VInt(1), s);
    assert EvalExpr(u, Ref(Self, "Y"), s) == (Ok(VInt(1)), s1);
    UnknownClass(u, "D", "Z", s1);
    assert EvalExpr(u, Ref(Named("D"), "Z"), s1) == (Err(NoClass), s1);
  }

  lemma ReadLiteral(t: Table, k: (Class, string), v: Val, s: State)
    requires k in s.visible && Holds(t, k) && EntryAt(t, k).expr == Literal(v) && EntryAt(t, k).hint.None?
    requires t.slots[k] !in s.memo && t.slots[k] !in s.resolving
    ensures EvalConst(t, k.0, k.1, s) == (Ok(v), s.(memo := s.memo[t.slots[k] := v]))
  {
    assert k == (k.0, k.1);
  }

  lemma CIsDeclared(t: Table, u: Table, s: State)
    requires t == LateOperand() && u == Restrict(t, {"I", "C"}) && s == Empty.(pending := {"I", "C"})
    ensures LookUp(u, Named("C"), s) == (Found("C"), Waiting())
  {
    var c, d := "C", "I";
    var s1 := State(map[], {}, Some("C"), None, {"C"}, {"I"}, {}, {("C", "Y")});
    assert Register(u, c, s) == s1 by { CIsRegistered(u, c, s, s1); }
    IIsDeclared(t, u, s1);
    CIsLinked(t, u, c, d, ForC());
    DeclareChild(u, c, Needs(u, c), d, s);
    CIsPassed(u, c, Waiting().(memo := map[1 := VInt(1)]));
  }

  lemma CIsRegistered(u: Table, c: Class, s: State, r: State)
    requires u == Restrict(LateOperand(), {"I", "C"}) && c == "C" && s == Empty.(pending := {"I", "C"})
    requires r == State(map[], {}, Some("C"), None, {"C"}, {"I"}, {}, {("C", "Y")})
    ensures Register(u, c, s) == r
  {
    assert Register(u, c, s).visible == r.visible && s.declared + {c} == r.declared && s.pending - {c} == {"I"};
  }

  lemma CIsPassed(u: Table, c: Class, s: State)
    requires u == Restrict(LateOperand(), {"I", "C"}) && c == "C" && s == Waiting().(memo := map[1 := VInt(1)])
    ensures Pass(u, c, Order(u, c), s) == Waiting()
  {
    PassStep(u, c, Order(u, c), s);
    assert EvalExpr(u, Literal(VInt(2)), s) == (Ok(VInt(2)), s);
    var s1 := Settled(2, Ok(VInt(2)), s);
    assert s1.memo == Waiting().memo;
    PassEnd(u, c, Order(u, c)[1..], s1);
  }

  lemma CIsLinked(t: Table, u: Table, c: Class, d: Class, s: State)
    requires t == LateOperand() && u == Restrict(t, {"I", "C"}) && c == "C" && d == "I" && s == ForC()
    ensures Link(u, c, d, s) == Waiting().(memo := map[1 := VInt(1)])
  {
    TakesOne(u, c, d, (c, "X"), s);
    assert s.visible + {(c, "X")} == Waiting().visible && s.declared == Waiting().declared;
  }

  /** The sum, where Y is cached and D still to be declared. */
  lemma SumOfX(t: Table, c: Class, y: int, s: State)
    requires t == LateOperand() && ((c == "I" && y == 1) || (c == "C" && y == 2)) && s.compiling == Some(c)
    requires (c, "Y") in s.visible && 1 in s.memo && s.memo[1] == VInt(1) && 2 in s.memo && s.memo[2] == VInt(2)
    requires "D" in s.pending && "D" !in s.declared && 3 !in s.memo
    ensures EvalExpr(t, t.entries[0].expr, s) ==
      (Ok(VInt(y + 10)), s.(declared := s.declared + {"D"}, pending := s.pending - {"D"}, compiling := None,
                            visible := s.visible + {("D", "Z")}, memo := s.memo[3 := VInt(10)]))
  {
    ReadCached(t, (c, "Y"), s);
    assert EvalExpr(t, Ref(Self, "Y"), s) == (Ok(VInt(y)), s);
    DeclareLiteral(t, "D", "Z", VInt(10), s);
    DIsAdded(t, y, s, LookUp(t, Named("D"), s).1);
  }

  lemma DIsAdded(t: Table, y: int, s: State, s1: State)
    requires t == LateOperand() && EvalExpr(t, Ref(Self, "Y"), s) == (Ok(VInt(y)), s)
    requires LookUp(t, Named("D"), s) == (Found("D"), s1)
    requires ("D", "Z") in s1.visible && 3 in s1.memo && s1.memo[3] == VInt(10)
    ensures EvalExpr(t, t.entries[0].expr, s) == (Ok(VInt(y + 10)), s1)
  {
    ReadCached(t, ("D", "Z"), s1);
    assert EvalExpr(t, Ref(Named("D"), "Z"), s) == (Ok(VInt(10)), s1);
  }

  /** D is known by now, and X is read from inside `c`. */
  lemma FirstReadOfX(t: Table, c: Class, y: int, s: State)
    requires t == LateOperand() && s == Waiting().(pending := {"D"}) && ((c == "I" && y == 1) || (c == "C" && y == 2))
    ensures var (o, s') := Read(t, c, "X", s);
            o == Ok(VInt(y + 10)) && XIsRead(s, s', y)
  {
    var s1 := s.(resolving := s.resolving + {0}, compiling := Some(c));
    ReadDeclared(t, c, "X", s);
    Resolving(t, (c, "X"), s, s1);
    SumOfX(t, c, y, s1);
  }

  predicate XIsRead(s: State, r: State, y: int) {
    r.declared == s.declared + {"D"} && 0 in r.memo && r.memo[0] == VInt(y + 10) && s.visible <= r.visible
  }

  /** What was read first is the answer for both. */
  lemma SecondReadOfX(t: Table, d: Class, y: int, s: State, r: State)
    requires t == LateOperand() && s == Waiting().(pending := {"D"}) && d in {"I", "C"} && XIsRead(s, r, y)
    ensures Read(t, d, "X", r).0 == Ok(VInt(y + 10))
  {
    ReadDeclared(t, d, "X", r);
    assert (d, "X") in s.visible;
    ReadCached(t, (d, "X"), r);
  }

  lemma BothReads(t: Table, all: set<Class>, c: Class, d: Class, y: int, steps: seq<Step>, s: State)
    requires t == LateOperand() && all == {"I", "C", "D"} && s == Waiting().(pending := {"D"})
    requires (c == "I" && d == "C" && y == 1) || (c == "C" && d == "I" && y == 2)
    requires steps == [ReadIn(None, c, "X"), ReadIn(None, d, "X")]
    ensures Answers(t, all, steps, s) == [Some(Ok(VInt(y + 10))), Some(Ok(VInt(y + 10)))]
  {
    AllKnown(t, all);
    FirstReadOfX(t, c, y, s);
    var r := Read(t, c, "X", s).1;
    ReadNext(t, all, t, None, (c, "X"), steps[1..], steps, s, Ok(VInt(y + 10)), r);
    var r1 := r.(caller := None, compiling := None);
    SecondReadOfX(t, d, y, s, r1);
    ReadNext(t, all, t, None, (d, "X"), steps[2..], steps[1..], r, Ok(VInt(y + 10)), Read(t, d, "X", r1).1);
    NoAnswers(t, all, steps[2..], Read(t, d, "X", r1).1);
  }

  /** With D loaded after I and C, X is 11 for both when I::X is read first, and 12 when C::X is. */
  lemma SharedSelfDependsOnReadOrder(t: Table, all: set<Class>, c: Class, d: Class, y: int, steps: seq<Step>)
    requires t == LateOperand() && all == {"I", "C", "D"}
    requires (c == "I" && d == "C" && y == 1) || (c == "C" && d == "I" && y == 2)
    requires steps ==
      [Learn({"I", "C"}), MentionIn(None, "C"), Learn({"D"}), ReadIn(None, c, "X"), ReadIn(None, d, "X")]
    ensures Answers(t, {}, steps, Empty) == [None, None, None, Some(Ok(VInt(y + 10))), Some(Ok(VInt(y + 10)))]
  {
    DIsLoaded(t, all, steps);
    BothReads(t, all, c, d, y, steps[3..], Waiting().(pending := {"D"}));
  }

  lemma DIsLoaded(t: Table, all: set<Class>, steps: seq<Step>)
    requires t == LateOperand() && all == {"I", "C", "D"} && |steps| > 2
    requires steps[0] == Learn({"I", "C"}) && steps[1] == MentionIn(None, "C") && steps[2] == Learn({"D"})
    ensures Answers(t, {}, steps, Empty) ==
      [None, None, None] + Answers(t, all, steps[3..], Waiting().(pending := {"D"}))
  {
    var known, s1, s2 := {"I", "C"}, Empty.(pending := {"I", "C"}), Waiting().(pending := {"D"});
    assert Answers(t, {}, steps, Empty) == [None] + Answers(t, known, steps[1..], s1) by {
      LearnNext(t, {}, known, steps[1..], steps, Empty, known, s1);
    }
    AfterC(t, known, Restrict(t, known), steps, s1);
    AfterD(t, known, all, steps, s2);
    ThreeAnswers(Answers(t, {}, steps, Empty), Answers(t, known, steps[1..], s1),
      Answers(t, known, steps[2..], Waiting()), Answers(t, all, steps[3..], s2));
  }

  lemma AfterC(t: Table, known: set<Class>, u: Table, steps: seq<Step>, s: State)
    requires t == LateOperand() && known == {"I", "C"} && u == Restrict(t, known) && s == Empty.(pending := {"I", "C"})
    requires |steps| > 2 && steps[1] == MentionIn(None, "C")
    ensures Answers(t, known, steps[1..], s) == [None] + Answers(t, known, steps[2..], Waiting())
  {
    CIsDeclared(t, u, s);
    MentionNext(t, known, u, "C", steps[2..], steps[1..], s, Waiting());
  }

  lemma AfterD(t: Table, known: set<Class>, all: set<Class>, steps: seq<Step>, s: State)
    requires t == LateOperand() && known == {"I", "C"} && all == {"I", "C", "D"} && s == Waiting().(pending := {"D"})
    requires |steps| > 2 && steps[2] == Learn({"D"})
    ensures Answers(t, known, steps[2..], Waiting()) == [None] + Answers(t, all, steps[3..], s)
  {
    LearnNext(t, known, {"D"}, steps[3..], steps[2..], Waiting(), all, s);
  }

  /** Known from the start, D is declared in the middle of I, and X is 11 before anyone both it. */
  lemma KnownOperandIsSettled(t: Table, s: State)
    requires t == LateOperand() && s == Empty.(pending := {"I", "C", "D"})
    ensures var m := LookUp(t, Named("I"), s).1.memo; 0 in m && m[0] == VInt(11)
  {
    var c, s1 := "I", Register(t, "I", s);
    DeclareAlone(t, c, s);
    PassStep(t, c, Order(t, c), s1);
    SettlesX(t, s1);
    var s2 := EvalExpr(t, t.entries[0].expr, s1).1;
    var s3 := Settled(0, Ok(VInt(11)), s2);
    PassCached(t, c, Order(t, c)[1..], s3);
    PassEnd(t, c, Order(t, c)[1..][1..], s3);
  }

  lemma SettlesX(t: Table, s: State)
    requires t == LateOperand() && s == Register(t, "I", Empty.(pending := {"I", "C", "D"}))
    ensures var (o, s1) := EvalExpr(t, t.entries[0].expr, s); o == Ok(VInt(11)) && 1 in s1.memo
  {
    ReadLiteral(t, ("I", "Y"), VInt(1), s);
    var s1 := s.(memo := s.memo[1 := VInt(1)]);
    assert EvalExpr(t, Ref(Self, "Y"), s) == (Ok(VInt(1)), s1);
    ReadsZ(t, s1);
    SumIs(t, t.entries[0].expr, 1, 10, s);
  }

  lemma SumIs(t: Table, e: Expr, a: int, b: int, s: State)
    requires e.Op? && t.apply == Sum && EvalExpr(t, e.a, s).0 == Ok(VInt(a))
    requires EvalExpr(t, e.b, EvalExpr(t, e.a, s).1).0 == Ok(VInt(b))
    ensures EvalExpr(t, e, s) == (Ok(VInt(a + b)), EvalExpr(t, e.b, EvalExpr(t, e.a, s).1).1)
  {
  }

  lemma ReadsZ(t: Table, s: State)
    requires t == LateOperand() && "D" in s.pending && "D" !in s.declared && 3 !in s.memo
    ensures var (o, r) := EvalExpr(t, Ref(Named("D"), "Z"), s); o == Ok(VInt(10)) && s.memo.Keys <= r.memo.Keys
  {
    DeclareLiteral(t, "D", "Z", VInt(10), s);
    var r := LookUp(t, Named("D"), s).1;
    ReadCached(t, ("D", "Z"), r);
    assert EvalExpr(t, Ref(Named("D"), "Z"), s) == (Ok(VInt(10)), r);
  }

  /** What the program breaks: I and C hold X together, and its `self::Y` reads different entries. */
  lemma LateOperandIsNotScoped(t: Table)
    requires t == LateOperand()
    ensures Valid(t) && !WellScoped(t)
  {
    var k, l := ("I", "X"), ("C", "X");
    assert Holds(t, k) && Holds(t, l) && t.slots[k] == t.slots[l];
    assert LeadOf(t, "I", Self, "Y") != LeadOf(t, "C", Self, "Y");
    assert !SameLeads(t, k.0, l.0, EntryAt(t, k).expr);
  }
}
