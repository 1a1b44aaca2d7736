/** A program that passes the static check and still ends a function in a break. */
module StatementLeak {
  import opened Options
  import opened Variables
  import opened Statements
  import opened StatementLevels

  /** function f(&$d) {
        while (true) {
          try { while (true) { try { break 2; } finally { if ($d) throw; } } }
          finally { if (!$d) { try { $d = 1; f($d); } catch (E) {} } }
        }
      } */
  const Innermost := Try(2, Break(7, 2), [], Some(If(1, Act(0), Skip)))
  const InnerLoop := Loop(WhileLoop, None, Some(0), None, Innermost)
  const Recurse := Try(3, Seq(Act(1), Call(0)), [CatchClause(0, Skip)], None)
  const OuterTry := Try(1, InnerLoop, [], Some(If(1, Skip, Recurse)))
  const LeakyBody := Loop(WhileLoop, None, Some(0), None, OuterTry)

  function LeakyWorld(): World {
    World((a, _) => if a == 0 then (Some(Throws(9)), []) else (None, [Assign(0, 1)]),
          (t, cells: Cells) => (Holds(t == 0 || (0 in cells && cells[0] == 1)), []),
          (_, _) => 0, (_, _) => true, map[0 := LeakyBody], _ => [0], false)
  }

  lemma LeakyTests(st: State)
    ensures Check(LeakyWorld(), Some(0), st) == (Holds(true), st)
    ensures Check(LeakyWorld(), Some(1), st) == (Holds(Lookup(st.mem, 0) == 1), st)
  {
  }

  const Jump := Raise(Err(BreakTo(7), false))
  const Throw := Raise(Err(Thrown(9), false))

  /** The innermost try: the break is pending with level 2, or, with `$d` set, overridden. */
  lemma InnermostRuns(f: nat, st: State)
    ensures var st' := Log(SetLevel(Log(st, Entered(2)), 7, 2), Finally(2));
            Exec(LeakyWorld(), f, Innermost, st) == (if Lookup(st.mem, 0) == 1 then Throw else Jump, st')
  {
    var w := LeakyWorld();
    var st1 := Log(st, Entered(2));
    var st2 := Log(SetLevel(st1, 7, 2), Finally(2));
    LeakyTests(st2);
    assert Exec(w, f, Break(7, 2), st1) == (Jump, SetLevel(st1, 7, 2));
    assert Exec(w, f, Act(0), st2) == (Throw, st2);
    assert Exec(w, f, Skip, st2) == (Done, st2);
  }

  /** The inner loop takes one level off the break, and nothing off the throw. */
  lemma InnerLoopRuns(f: nat, st: State)
    requires f > 0
    ensures var (c, st') := Exec(LeakyWorld(), f, InnerLoop, st);
            && st'.mem == st.mem
            && (if Lookup(st.mem, 0) == 1 then c == Throw && Level(st', 7) == 2 else c == Jump && Level(st', 7) == 1)
  {
    LeakyTests(st);
    InnermostRuns(f - 1, st);
    assert Exec(LeakyWorld(), f, InnerLoop, st) == ExecLoop(LeakyWorld(), f, InnerLoop, st);
  }

  /** A try without catches keeps a pending jump or throw when its finally block ends normally. */
  lemma PendingIsKept(w: World, f: nat, id: nat, body: Stmt, fin: Stmt, st: State)
    ensures var (c, st1) := Exec(w, f, body, Log(st, Entered(id)));
            var (q, st2) := Exec(w, f, fin, Log(st1, Finally(id)));
            q.Done? && c.Raise? && !c.err.wrapped && (Jumps(c) || c.err.sig.Thrown?) ==>
              Exec(w, f, Try(id, body, [], Some(fin)), st) == (c, st2)
  {
  }

  lemma OuterTryRethrows(f: nat, st: State)
    requires f > 0 && Lookup(st.mem, 0) == 1
    ensures var (c, st') := Exec(LeakyWorld(), f, OuterTry, st);
            c == Throw && Level(st', 7) == 2
  {
    var w, fin := LeakyWorld(), If(1, Skip, Recurse);
    InnerLoopRuns(f, Log(st, Entered(1)));
    var st1 := Log(Exec(w, f, InnerLoop, Log(st, Entered(1))).1, Finally(1));
    LeakyTests(st1);
    assert Exec(w, f, Skip, st1) == (Done, st1);
    assert Exec(w, f, fin, st1) == (Done, st1);
    PendingIsKept(w, f, 1, InnerLoop, fin, st);
  }

  /** With `$d` set the throw leaves the function, and level 2 stays behind in the node. */
  lemma SecondCall(st: State)
    requires Lookup(st.mem, 0) == 1
    ensures var (c, st') := Exec(LeakyWorld(), 2, LeakyBody, st);
            c == Throw && Level(st', 7) == 2
  {
    LeakyTests(st);
    OuterTryRethrows(1, st);
    LeakyUnfolds(2, st);
  }

  lemma LeakyUnfolds(f: nat, st: State)
    requires f > 0
    ensures var (c, st') := Exec(LeakyWorld(), f - 1, OuterTry, st);
            var (v, st'') := AfterLoopBody(WhileLoop, c, st');
            v.Leave? ==> Exec(LeakyWorld(), f, LeakyBody, st) == (v.c, st'')
  {
    LeakyTests(st);
    assert Exec(LeakyWorld(), f, LeakyBody, st) == ExecLoop(LeakyWorld(), f, LeakyBody, st);
  }

  /** The shared variable is 1 inside the call. */
  lemma SharedVariable(m: Memory)
    requires InHeap(m)
    ensures Lookup(EnterCall(Apply(m, Assign(0, 1)), [0]), 0) == 1
  {
    var n := Apply(m, Assign(0, 1));
    assert [0][1..] == [];
    assert MakeReferences(n, [0]) == MakeReferences(MakeReference(n, 0), []);
  }

  /** `$d = 1; f($d);` ends in the throw of the second call. */
  lemma CallBackThrows(f: nat, st: State)
    requires f == 3 && InHeap(st.mem)
    ensures var (c, st') := Exec(LeakyWorld(), f, Seq(Act(1), Call(0)), st);
            c == Throw && Level(st', 7) == 2
  {
    var w := LeakyWorld();
    var st1 := st.(mem := Apply(st.mem, Assign(0, 1)));
    SharedVariable(st.mem);
    assert [Assign(0, 1)][1..] == [];
    assert Exec(w, f, Act(1), st) == (Done, st1);
    CallThrows(w, f, st1);
  }

  lemma CallThrows(w: World, f: nat, st: State)
    requires w == LeakyWorld() && f == 3 && Lookup(Enter(w, 0, st).mem, 0) == 1
    ensures var (c, st') := Exec(w, f, Call(0), st); c == Throw && Level(st', 7) == 2
  {
    SecondCall(Enter(w, 0, st));
  }

  lemma RecurseRuns(f: nat, st: State)
    requires f == 3 && InHeap(st.mem)
    ensures var (c, st') := Exec(LeakyWorld(), f, Recurse, st);
            c.Done? && Level(st', 7) == 2
  {
    CallBackThrows(f, st);
    CatchesThrow(LeakyWorld(), f, 3, Seq(Act(1), Call(0)), st);
  }

  /** `try { body } catch (E) {}` swallows the throw. */
  lemma CatchesThrow(w: World, f: nat, id: nat, body: Stmt, st: State)
    requires w.catches(0, 9) && Exec(w, f, body, st).0 == Throw
    ensures Exec(w, f, Try(id, body, [CatchClause(0, Skip)], None), st) == (Done, Exec(w, f, body, st).1)
  {
    var st2 := Exec(w, f, body, st).1;
    assert FirstMatch(w, [CatchClause(0, Skip)], 9) == 0;
    assert Exec(w, f, Skip, st2) == (Done, st2);
  }

  lemma OuterTryKeepsJump(f: nat, st: State)
    requires f == 3 && Lookup(st.mem, 0) != 1 && InHeap(st.mem)
    ensures var (c, st') := Exec(LeakyWorld(), f, OuterTry, st);
            c == Jump && Level(st', 7) == 2
  {
    var w, fin := LeakyWorld(), If(1, Skip, Recurse);
    InnerLoopRuns(f, Log(st, Entered(1)));
    var st1 := Log(Exec(w, f, InnerLoop, Log(st, Entered(1))).1, Finally(1));
    LeakyTests(st1);
    RecurseRuns(f, st1);
    assert Exec(w, f, fin, st1) == Exec(w, f, Recurse, st1);
    PendingIsKept(w, f, 1, InnerLoop, fin, st);
  }

  /** The static check accepts the program, yet its body ends in a `break`: the finally block
      called back into the function, which reset the level kept in the pending break's node. */
  lemma ReentrantFinallyLeaksBreak(st: State)
    requires Lookup(st.mem, 0) != 1 && InHeap(st.mem)
    ensures Validate(LeakyBody, 0, false).None?
    ensures Exec(LeakyWorld(), 4, LeakyBody, st).0 == Jump
  {
    LeakyIsValid();
    OuterTryKeepsJump(3, st);
    LeakyUnfolds(4, st);
  }

  lemma LeakyIsValid()
    ensures Validate(LeakyBody, 0, false).None?
  {
    assert Validate(Innermost, 2, false).None?;
    assert Validate(InnerLoop, 1, false).None?;
    assert Validate(Recurse, 0, true).None?;
    assert Validate(OuterTry, 1, false).None?;
  }
}
