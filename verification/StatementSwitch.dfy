/** Where a switch starts (runSwitch.Run in core/compiler/compile-switch.go), read off its cases and
    tests. */
module StatementSwitch {
  import opened Options
  import opened Statements

  /** The state once the first `n` tests have been evaluated; a default block has none. */
  function AfterTests(w: World, cases: seq<CaseBlock>, n: nat, st: State): State
    requires n <= |cases|
  {
    if n == 0 then st
    else
      var before := AfterTests(w, cases, n - 1, st);
      if cases[n - 1].test.None? then before else Check(w, cases[n - 1].test, before).1
  }

  /** What the test of the i-th case says when its turn comes. */
  function Answer(w: World, cases: seq<CaseBlock>, i: nat, st: State): Option<TestResult>
    requires i < |cases|
  {
    if cases[i].test.None? then None else Some(Check(w, cases[i].test, AfterTests(w, cases, i, st)).0)
  }

  /** The first `n` cases are defaults, or have tests that do not hold. */
  ghost predicate NoneHolds(w: World, cases: seq<CaseBlock>, n: nat, st: State)
    requires n <= |cases|
  {
    forall i :: 0 <= i < n ==> Answer(w, cases, i, st) == None || Answer(w, cases, i, st) == Some(Holds(false))
  }

  /** The default blocks among the first `n`: the last of them. */
  ghost predicate LastDefault(cases: seq<CaseBlock>, n: nat, default: Option<nat>)
    requires n <= |cases|
  {
    match default
    case None => forall i :: 0 <= i < n ==> cases[i].test.Some?
    case Some(d) => d < n && cases[d].test.None? && forall i :: d < i < n ==> cases[i].test.Some?
  }

  /** Behind `n` cases of which none holds the search goes on with what they left. */
  lemma {:induction false} SearchPasses(w: World, cases: seq<CaseBlock>, n: nat, st: State)
      returns (default: Option<nat>)
    requires n <= |cases| && NoneHolds(w, cases, n, st)
    ensures LastDefault(cases, n, default)
    ensures FindCase(w, cases, 0, None, st) == FindCase(w, cases, n, default, AfterTests(w, cases, n, st))
    decreases n
  {
    if n == 0 {
      default := None;
    } else {
      default := SearchPasses(w, cases, n - 1, st);
      assert Answer(w, cases, n - 1, st) == None || Answer(w, cases, n - 1, st) == Some(Holds(false));
      if cases[n - 1].test.None? { default := Some(n - 1); }
    }
  }

  /** The switch starts at the first case whose test holds, in the state that the tests before it
      left; no test behind it is evaluated, and no default before it counts. */
  lemma StartsAtFirstMatch(w: World, f: nat, subject: nat, cases: seq<CaseBlock>, m: nat, st: State, st1: State)
    requires Perform(w, Some(subject), st) == (Done, st1) && m < |cases|
    requires NoneHolds(w, cases, m, st1) && Answer(w, cases, m, st1) == Some(Holds(true))
    ensures FindCase(w, cases, 0, None, st1) == (Done, Some(m), AfterTests(w, cases, m + 1, st1))
    ensures Exec(w, f, Switch(subject, cases), st) ==
      ExecCases(w, f, Switch(subject, cases), m, AfterTests(w, cases, m + 1, st1))
  {
    var default := SearchPasses(w, cases, m, st1);
    SearchStops(w, cases, m, default, AfterTests(w, cases, m, st1));
    SwitchStarts(w, f, subject, cases, m, st, st1, AfterTests(w, cases, m + 1, st1));
  }

  lemma SearchStops(w: World, cases: seq<CaseBlock>, m: nat, default: Option<nat>, st: State)
    requires m < |cases| && (default.Some? ==> default.value < |cases|)
    requires cases[m].test.Some? && Check(w, cases[m].test, st).0 == Holds(true)
    ensures FindCase(w, cases, m, default, st) == (Done, Some(m), Check(w, cases[m].test, st).1)
  {
  }

  lemma SwitchStarts(w: World, f: nat, subject: nat, cases: seq<CaseBlock>, m: nat, st: State, st1: State, st2: State)
    requires Perform(w, Some(subject), st) == (Done, st1) && m < |cases|
    requires FindCase(w, cases, 0, None, st1) == (Done, Some(m), st2)
    ensures Exec(w, f, Switch(subject, cases), st) == ExecCases(w, f, Switch(subject, cases), m, st2)
  {
  }

  /** Where every test has been evaluated and none holds, it starts at the last default, if any. */
  lemma StartsAtDefault(w: World, f: nat, subject: nat, cases: seq<CaseBlock>, st: State, st1: State)
      returns (default: Option<nat>)
    requires Perform(w, Some(subject), st) == (Done, st1) && NoneHolds(w, cases, |cases|, st1)
    ensures LastDefault(cases, |cases|, default)
    ensures FindCase(w, cases, 0, None, st1) == (Done, default, AfterTests(w, cases, |cases|, st1))
    ensures Exec(w, f, Switch(subject, cases), st) ==
      if default.None? then (Done, AfterTests(w, cases, |cases|, st1))
      else ExecCases(w, f, Switch(subject, cases), default.value, AfterTests(w, cases, |cases|, st1))
  {
    default := SearchPasses(w, cases, |cases|, st1);
  }

  /** A test that faults, with none holding before it, ends the switch. */
  lemma EndsAtFault(w: World, f: nat, subject: nat, cases: seq<CaseBlock>, m: nat, fault: Fault, st: State, st1: State)
    requires Perform(w, Some(subject), st) == (Done, st1) && m < |cases|
    requires NoneHolds(w, cases, m, st1) && Answer(w, cases, m, st1) == Some(Faults(fault))
    ensures Exec(w, f, Switch(subject, cases), st) == (Raise(Raised(fault)), AfterTests(w, cases, m + 1, st1))
  {
    var default := SearchPasses(w, cases, m, st1);
  }

  /** `switch (...) { default: a; case c: b }` where the test holds runs b only. */
  lemma DefaultBeforeMatch(w: World, f: nat, subject: nat, t: nat, a: Stmt, b: Stmt, st: State, st1: State)
    requires Perform(w, Some(subject), st) == (Done, st1) && Check(w, Some(t), st1).0 == Holds(true)
    ensures var cases := [CaseBlock(None, a), CaseBlock(Some(t), b)];
            Exec(w, f, Switch(subject, cases), st) ==
              ExecCases(w, f, Switch(subject, cases), 1, Check(w, Some(t), st1).1)
  {
    var cases := [CaseBlock(None, a), CaseBlock(Some(t), b)];
    assert AfterTests(w, cases, 1, st1) == st1;
    StartsAtFirstMatch(w, f, subject, cases, 1, st, st1);
  }
}
