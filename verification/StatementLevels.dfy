/** Break and continue levels: the static check, when the levels kept inside the AST nodes are
    right at run time, and a valid program in which they are not. */
module StatementLevels {
  import opened Options
  import opened Statements

  // ----- the static check (validate-break.go) -----

  datatype LevelError = JumpOutOfFinally | NotInLoop | TooManyLevels(level: nat)

  function CheckLevel(level: nat, depth: nat, inFinally: bool): Option<LevelError> {
    if level <= depth then None
    else if inFinally then Some(JumpOutOfFinally)
    else if depth == 0 then Some(NotInLoop)
    else Some(TooManyLevels(level))
  }

  function OrElse(a: Option<LevelError>, b: Option<LevelError>): Option<LevelError> {
    if a.Some? then a else b
  }

  /** validateBreakContinueImpl: the first misplaced break or continue, in program order. */
  function Validate(s: Stmt, depth: nat, inFinally: bool): Option<LevelError>
    decreases s
  {
    match s
    case Break(_, level) => CheckLevel(level, depth, inFinally)
    case Continue(_, level) => CheckLevel(level, depth, inFinally)
    case Seq(a, b) => OrElse(Validate(a, depth, inFinally), Validate(b, depth, inFinally))
    case If(_, a, b) => OrElse(Validate(a, depth, inFinally), Validate(b, depth, inFinally))
    case Loop(_, _, _, _, body) => Validate(body, depth + 1, inFinally)
    case DoWhile(body, _) => Validate(body, depth + 1, inFinally)
    case Switch(_, cases) => ValidateCases(s, 0, depth, inFinally)
    case Try(_, body, _, fin) =>
      OrElse(OrElse(Validate(body, depth, inFinally), ValidateCatches(s, 0, depth, inFinally)),
             if fin.Some? then Validate(fin.value, 0, true) else None)
    case _ => None
  }

  function ValidateCases(s: Stmt, i: nat, depth: nat, inFinally: bool): Option<LevelError>
    requires s.Switch? && i <= |s.cases|
    decreases s, |s.cases| - i
  {
    if i == |s.cases| then None
    else OrElse(Validate(s.cases[i].code, depth + 1, inFinally), ValidateCases(s, i + 1, depth, inFinally))
  }

  function ValidateCatches(s: Stmt, i: nat, depth: nat, inFinally: bool): Option<LevelError>
    requires s.Try? && i <= |s.catches|
    decreases s, |s.catches| - i
  {
    if i == |s.catches| then None
    else OrElse(Validate(s.catches[i].body, depth, inFinally), ValidateCatches(s, i + 1, depth, inFinally))
  }

  /** What is wrong with a misplaced break or continue: it would leave a finally block, it stands in
      no loop, or it has more levels than there are. */
  lemma Misplaced(jump: Stmt, level: Positive, depth: nat, inFinally: bool)
    requires exists n :: jump == Break(n, level) || jump == Continue(n, level)
    ensures Validate(jump, depth, inFinally) == Some(JumpOutOfFinally) <==> inFinally && level > depth
    ensures Validate(jump, depth, inFinally) == Some(NotInLoop) <==> !inFinally && depth == 0
    ensures Validate(jump, depth, inFinally) == Some(TooManyLevels(level)) <==> !inFinally && level > depth > 0
  {
  }

  /** The first of two misplaced ones is reported. */
  lemma FirstIsReported(a: Stmt, b: Stmt, depth: nat, inFinally: bool)
    requires Validate(a, depth, inFinally).Some?
    ensures Validate(Seq(a, b), depth, inFinally) == Validate(a, depth, inFinally)
  {
  }

  /** Every level is at most the nesting of loops and switches around it, counted from the
      innermost finally block. */
  ghost predicate Fits(s: Stmt, depth: nat) {
    match s
    case Break(_, level) => level <= depth
    case Continue(_, level) => level <= depth
    case Seq(a, b) => Fits(a, depth) && Fits(b, depth)
    case If(_, a, b) => Fits(a, depth) && Fits(b, depth)
    case Loop(_, _, _, _, body) => Fits(body, depth + 1)
    case DoWhile(body, _) => Fits(body, depth + 1)
    case Switch(_, cases) => forall i :: 0 <= i < |cases| ==> Fits(cases[i].code, depth + 1)
    case Try(_, body, catches, fin) =>
      && Fits(body, depth)
      && (forall i :: 0 <= i < |catches| ==> Fits(catches[i].body, depth))
      && (fin.Some? ==> Fits(fin.value, 0))
    case _ => true
  }

  lemma {:induction false} ValidateDecidesFits(s: Stmt, depth: nat, inFinally: bool)
    ensures Validate(s, depth, inFinally).None? <==> Fits(s, depth)
    decreases s
  {
    match s
    case Seq(a, b) => ValidateDecidesFits(a, depth, inFinally); ValidateDecidesFits(b, depth, inFinally);
    case If(_, a, b) => ValidateDecidesFits(a, depth, inFinally); ValidateDecidesFits(b, depth, inFinally);
    case Loop(_, _, _, _, body) => ValidateDecidesFits(body, depth + 1, inFinally);
    case DoWhile(body, _) => ValidateDecidesFits(body, depth + 1, inFinally);
    case Switch(_, _) => CasesFit(s, 0, depth, inFinally);
    case Try(_, body, _, fin) =>
      ValidateDecidesFits(body, depth, inFinally);
      CatchesFit(s, 0, depth, inFinally);
      if fin.Some? { ValidateDecidesFits(fin.value, 0, true); }
    case _ =>
  }

  lemma {:induction false} CasesFit(s: Stmt, i: nat, depth: nat, inFinally: bool)
    requires s.Switch? && i <= |s.cases|
    ensures ValidateCases(s, i, depth, inFinally).None? <==>
              forall k :: i <= k < |s.cases| ==> Fits(s.cases[k].code, depth + 1)
    decreases s, |s.cases| - i
  {
    if i < |s.cases| {
      ValidateDecidesFits(s.cases[i].code, depth + 1, inFinally);
      CasesFit(s, i + 1, depth, inFinally);
    }
  }

  lemma {:induction false} CatchesFit(s: Stmt, i: nat, depth: nat, inFinally: bool)
    requires s.Try? && i <= |s.catches|
    ensures ValidateCatches(s, i, depth, inFinally).None? <==>
              forall k :: i <= k < |s.catches| ==> Fits(s.catches[k].body, depth)
    decreases s, |s.catches| - i
  {
    if i < |s.catches| {
      ValidateDecidesFits(s.catches[i].body, depth, inFinally);
      CatchesFit(s, i + 1, depth, inFinally);
    }
  }

  // ----- which nodes a statement may run -----

  /** For each function the nodes a call may run, and nodes that are written with level 1 wherever
      they stand. */
  datatype Limits = Limits(calls: (nat, nat) -> bool, ones: nat -> bool)

  /** Running `s` may run node `n`; `lim` bounds what each function may run. */
  ghost predicate Touches(lim: Limits, s: Stmt, n: nat) {
    match s
    case Break(m, _) => m == n
    case Continue(m, _) => m == n
    case Seq(a, b) => Touches(lim, a, n) || Touches(lim, b, n)
    case If(_, a, b) => Touches(lim, a, n) || Touches(lim, b, n)
    case Loop(_, _, _, _, body) => Touches(lim, body, n)
    case DoWhile(body, _) => Touches(lim, body, n)
    case Switch(_, cases) => exists i :: 0 <= i < |cases| && Touches(lim, cases[i].code, n)
    case Try(_, body, catches, fin) =>
      || Touches(lim, body, n)
      || (exists i :: 0 <= i < |catches| && Touches(lim, catches[i].body, n))
      || (fin.Some? && Touches(lim, fin.value, n))
    case Call(fn) => lim.calls(fn, n)
    case _ => false
  }

  /** Node `n` stands in `s`, and its level exceeds by `r` the loops and switches of `s` around it. */
  ghost predicate Stands(s: Stmt, n: nat, r: int)
    decreases s
  {
    match s
    case Break(m, level) => m == n && r == level
    case Continue(m, level) => m == n && r == level
    case Seq(a, b) => Stands(a, n, r) || Stands(b, n, r)
    case If(_, a, b) => Stands(a, n, r) || Stands(b, n, r)
    case Loop(_, _, _, _, body) => Stands(body, n, r + 1)
    case DoWhile(body, _) => Stands(body, n, r + 1)
    case Switch(_, cases) => exists i :: 0 <= i < |cases| && Stands(cases[i].code, n, r + 1)
    case Try(_, body, catches, fin) =>
      || Stands(body, n, r)
      || (exists i :: 0 <= i < |catches| && Stands(catches[i].body, n, r))
      || (fin.Some? && Stands(fin.value, n, r))
    case _ => false
  }

  /** Node `n` has level 1 wherever it stands in `s`. */
  ghost predicate AlwaysOne(s: Stmt, n: nat) {
    match s
    case Break(m, level) => m == n ==> level == 1
    case Continue(m, level) => m == n ==> level == 1
    case Seq(a, b) => AlwaysOne(a, n) && AlwaysOne(b, n)
    case If(_, a, b) => AlwaysOne(a, n) && AlwaysOne(b, n)
    case Loop(_, _, _, _, body) => AlwaysOne(body, n)
    case DoWhile(body, _) => AlwaysOne(body, n)
    case Switch(_, cases) => forall i :: 0 <= i < |cases| ==> AlwaysOne(cases[i].code, n)
    case Try(_, body, catches, fin) =>
      && AlwaysOne(body, n)
      && (forall i :: 0 <= i < |catches| ==> AlwaysOne(catches[i].body, n))
      && (fin.Some? ==> AlwaysOne(fin.value, n))
    case _ => true
  }

  /** A jump of `s` that may leave it with a level that a nested run could change. */
  ghost predicate AtRisk(lim: Limits, s: Stmt, n: nat, r: int) {
    Stands(s, n, r) && 1 <= r && !lim.ones(n)
  }

  /** No finally block can, even through calls, run a node whose jump may be pending behind it. */
  ghost predicate NoReentry(lim: Limits, s: Stmt)
    decreases s
  {
    match s
    case Seq(a, b) => NoReentry(lim, a) && NoReentry(lim, b)
    case If(_, a, b) => NoReentry(lim, a) && NoReentry(lim, b)
    case Loop(_, _, _, _, body) => NoReentry(lim, body)
    case DoWhile(body, _) => NoReentry(lim, body)
    case Switch(_, cases) => forall i :: 0 <= i < |cases| ==> NoReentry(lim, cases[i].code)
    case Try(_, body, catches, fin) =>
      && NoReentry(lim, body)
      && (forall i :: 0 <= i < |catches| ==> NoReentry(lim, catches[i].body))
      && (fin.Some? ==>
            && NoReentry(lim, fin.value)
            && (forall n, r :: AtRisk(lim, body, n, r) ==> !Touches(lim, fin.value, n))
            && (forall n, r, i :: 0 <= i < |catches| && AtRisk(lim, catches[i].body, n, r) ==>
              !Touches(lim, fin.value, n)))
    case _ => true
  }

  ghost predicate OnesIn(lim: Limits, s: Stmt) {
    forall n :: lim.ones(n) ==> AlwaysOne(s, n)
  }

  ghost predicate CallsBound(w: World, lim: Limits) {
    forall fn :: fn in w.bodies ==>
      forall n :: Touches(lim, w.bodies[fn], n) ==> lim.calls(fn, n)
  }

  /** Every function passed the static check, and its finally blocks spare what may be pending. */
  ghost predicate Sane(w: World, lim: Limits) {
    && CallsBound(w, lim)
    && forall fn :: fn in w.bodies ==>
        Fits(w.bodies[fn], 0) && NoReentry(lim, w.bodies[fn]) && OnesIn(lim, w.bodies[fn])
  }

  predicate Jumps(c: Completion) {
    c.Raise? && (c.err.sig.BreakTo? || c.err.sig.ContinueTo?)
  }

  // ----- nodes a statement does not touch keep their level -----

  ghost predicate Framed(lim: Limits, s: Stmt, st: State, r: (Completion, State), n: nat) {
    && (Jumps(r.0) ==> Touches(lim, s, r.0.err.sig.node))
    && (!Touches(lim, s, n) ==> Level(r.1, n) == Level(st, n))
  }

  lemma {:induction false} Frame(w: World, lim: Limits, f: nat, s: Stmt, st: State, n: nat)
    requires CallsBound(w, lim)
    ensures Framed(lim, s, st, Exec(w, f, s, st), n)
    decreases f, s
  {
    match s
    case Skip =>
    case Act(_) =>
    case Seq(a, b) =>
      Frame(w, lim, f, a, st, n);
      var (c, st1) := Exec(w, f, a, st);
      if c.Done? { Frame(w, lim, f, b, st1, n); }
    case If(t, yes, no) =>
      var (r, st1) := Check(w, Some(t), st);
      if r.Holds? {
        if r.b { Frame(w, lim, f, yes, st1, n); } else { Frame(w, lim, f, no, st1, n); }
      }
    case Loop(_, start, _, _, _) =>
      var (c, st1) := Perform(w, start, st);
      if c.Done? { FrameLoop(w, lim, f, s, st1, n); }
    case DoWhile(_, _) => FrameDo(w, lim, f, s, st, n);
    case Switch(subject, cases) =>
      var (c, st1) := Perform(w, Some(subject), st);
      if c.Done? {
        var (c', start, st2) := FindCase(w, cases, 0, None, st1);
        if c'.Done? && start.Some? { FrameCases(w, lim, f, s, start.value, st2, n); }
      }
    case Try(_, _, _, _) => FrameTry(w, lim, f, s, st, n);
    case Break(_, _) =>
    case Continue(_, _) =>
    case Return(_, _) =>
    case Call(fn) =>
      if fn in w.bodies && f > 0 {
        Frame(w, lim, f - 1, w.bodies[fn], Enter(w, fn, st), n);
        assert Touches(lim, w.bodies[fn], n) ==> lim.calls(fn, n);
      }
  }

  lemma {:induction false} FrameTry(w: World, lim: Limits, f: nat, s: Stmt, st: State, n: nat)
    requires CallsBound(w, lim) && s.Try?
    ensures Framed(lim, s, st, Exec(w, f, s, st), n)
    decreases f, s, 1
  {
    var Try(own, body, catches, fin) := s;
    var st0 := if fin.Some? then Log(st, Entered(own)) else st;
    Frame(w, lim, f, body, st0, n);
    var (c, st1) := Exec(w, f, body, st0);
    if c.Raise? && c.err.sig.Thrown? && !c.err.wrapped {
      FrameCaught(w, lim, f, s, st, n);
    } else if fin.Some? {
      Frame(w, lim, f, fin.value, Log(st1, Finally(own)), n);
      var (q, st2) := Exec(w, f, fin.value, Log(st1, Finally(own)));
      assert Jumps(q) ==> Touches(lim, s, q.err.sig.node);
      assert Jumps(c) ==> Touches(lim, s, c.err.sig.node);
    }
  }

  lemma {:induction false} FrameCaught(w: World, lim: Limits, f: nat, s: Stmt, st: State, n: nat)
    requires CallsBound(w, lim) && s.Try?
    requires var st0 := if s.fin.Some? then Log(st, Entered(s.id)) else st;
             var (c, st1) := Exec(w, f, s.body, st0);
             c.Raise? && c.err.sig.Thrown? && !c.err.wrapped
             && (!Touches(lim, s, n) ==> Level(st1, n) == Level(st, n))
    ensures Framed(lim, s, st, Exec(w, f, s, st), n)
    decreases f, s, 0
  {
    var Try(own, body, catches, fin) := s;
    var (c, st1) := Exec(w, f, body, if fin.Some? then Log(st, Entered(own)) else st);
    var i := FirstMatch(w, catches, c.err.sig.exn);
    var (p, st2) := if i < |catches| then Exec(w, f, catches[i].body, st1) else (c, st1);
    if i < |catches| {
      Frame(w, lim, f, catches[i].body, st1, n);
      assert Jumps(p) ==> Touches(lim, s, p.err.sig.node);
    }
    if fin.Some? {
      Frame(w, lim, f, fin.value, Log(st2, Finally(own)), n);
      var (q, st3) := Exec(w, f, fin.value, Log(st2, Finally(own)));
      assert Jumps(q) ==> Touches(lim, s, q.err.sig.node);
    }
  }

  lemma {:induction false} FrameLoop(w: World, lim: Limits, f: nat, s: Stmt, st: State, n: nat)
    requires CallsBound(w, lim) && s.Loop?
    ensures Framed(lim, s, st, ExecLoop(w, f, s, st), n)
    decreases f, s, 0
  {
    var (t, st1) := Check(w, s.cond, st);
    if t == Holds(true) && f > 0 {
      Frame(w, lim, f - 1, s.body, st1, n);
      var (c, st2) := Exec(w, f - 1, s.body, st1);
      var (v, st3) := AfterLoopBody(s.kind, c, st2);
      if v.Again? {
        var (c', st4) := Perform(w, s.each, st3);
        if !(c'.Raise? && !s.kind.ForeachLoop?) { FrameLoop(w, lim, f - 1, s, st4, n); }
      }
    }
  }

  lemma {:induction false} FrameDo(w: World, lim: Limits, f: nat, s: Stmt, st: State, n: nat)
    requires CallsBound(w, lim) && s.DoWhile?
    ensures Framed(lim, s, st, ExecDo(w, f, s, st), n)
    decreases f, s, 0
  {
    if f > 0 {
      Frame(w, lim, f - 1, s.body, st, n);
      var (c, st1) := Exec(w, f - 1, s.body, st);
      var (v, st2) := AfterLoopBody(WhileLoop, c, st1);
      if v.Again? {
        var (t, st3) := Check(w, Some(s.until), st2);
        if t == Holds(true) { FrameDo(w, lim, f - 1, s, st3, n); }
      }
    }
  }

  lemma {:induction false} FrameCases(w: World, lim: Limits, f: nat, s: Stmt, i: nat, st: State, n: nat)
    requires CallsBound(w, lim) && s.Switch? && i <= |s.cases|
    ensures Framed(lim, s, st, ExecCases(w, f, s, i, st), n)
    decreases f, s, |s.cases| - i
  {
    if i < |s.cases| {
      Frame(w, lim, f, s.cases[i].code, st, n);
      var (c, st1) := Exec(w, f, s.cases[i].code, st);
      var (v, st2) := AfterCase(c, st1);
      if v.Again? { FrameCases(w, lim, f, s, i + 1, st2, n); }
    }
  }

  // ----- the level of an escaping jump is the static one -----

  ghost predicate Exact(s: Stmt, r: (Completion, State)) {
    Jumps(r.0) ==>
      var n := r.0.err.sig.node;
      !r.0.err.wrapped && 1 <= Level(r.1, n) && Stands(s, n, Level(r.1, n))
  }

  // ----- nodes of level 1 keep it -----

  ghost predicate OnesEverywhere(w: World, n: nat) {
    forall fn :: fn in w.bodies ==> AlwaysOne(w.bodies[fn], n)
  }

  /** A node that is always written with level 1 keeps level 1. */
  lemma {:induction false} OneIsKept(w: World, f: nat, s: Stmt, st: State, n: nat)
    requires OnesEverywhere(w, n) && AlwaysOne(s, n) && Level(st, n) == 1
    ensures Level(Exec(w, f, s, st).1, n) == 1
    decreases f, s
  {
    match s
    case Skip =>
    case Act(_) =>
    case Seq(a, b) =>
      OneIsKept(w, f, a, st, n);
      var (c, st1) := Exec(w, f, a, st);
      if c.Done? { OneIsKept(w, f, b, st1, n); }
    case If(t, yes, no) =>
      var (r, st1) := Check(w, Some(t), st);
      if r.Holds? {
        if r.b { OneIsKept(w, f, yes, st1, n); } else { OneIsKept(w, f, no, st1, n); }
      }
    case Loop(_, start, _, _, _) =>
      var (c, st1) := Perform(w, start, st);
      if c.Done? { OneIsKeptLoop(w, f, s, st1, n); }
    case DoWhile(_, _) => OneIsKeptDo(w, f, s, st, n);
    case Switch(subject, cases) =>
      var (c, st1) := Perform(w, Some(subject), st);
      if c.Done? {
        var (c', start, st2) := FindCase(w, cases, 0, None, st1);
        if c'.Done? && start.Some? { OneIsKeptCases(w, f, s, start.value, st2, n); }
      }
    case Try(_, _, _, _) => OneIsKeptTry(w, f, s, st, n);
    case Break(_, _) =>
    case Continue(_, _) =>
    case Return(_, _) =>
    case Call(fn) => if fn in w.bodies && f > 0 { OneIsKept(w, f - 1, w.bodies[fn], Enter(w, fn, st), n); }
  }

  lemma {:induction false} OneIsKeptTry(w: World, f: nat, s: Stmt, st: State, n: nat)
    requires OnesEverywhere(w, n) && AlwaysOne(s, n) && Level(st, n) == 1 && s.Try?
    ensures Level(Exec(w, f, s, st).1, n) == 1
    decreases f, s, 0
  {
    var st0 := if s.fin.Some? then Log(st, Entered(s.id)) else st;
    OneIsKept(w, f, s.body, st0, n);
    var (c, st1) := Exec(w, f, s.body, st0);
    if c.Raise? && c.err.sig.Thrown? && !c.err.wrapped {
      var i := FirstMatch(w, s.catches, c.err.sig.exn);
      if i < |s.catches| { OneIsKept(w, f, s.catches[i].body, st1, n); }
      var st2 := if i < |s.catches| then Exec(w, f, s.catches[i].body, st1).1 else st1;
      if s.fin.Some? { OneIsKept(w, f, s.fin.value, Log(st2, Finally(s.id)), n); }
    } else if s.fin.Some? {
      OneIsKept(w, f, s.fin.value, Log(st1, Finally(s.id)), n);
    }
  }

  lemma {:induction false} OneIsKeptLoop(w: World, f: nat, s: Stmt, st: State, n: nat)
    requires OnesEverywhere(w, n) && AlwaysOne(s, n) && Level(st, n) == 1 && s.Loop?
    ensures Level(ExecLoop(w, f, s, st).1, n) == 1
    decreases f, s, 0
  {
    var (t, st1) := Check(w, s.cond, st);
    if t == Holds(true) && f > 0 {
      OneIsKept(w, f - 1, s.body, st1, n);
      var (c, st2) := Exec(w, f - 1, s.body, st1);
      var (v, st3) := AfterLoopBody(s.kind, c, st2);
      if v.Again? {
        var (c', st4) := Perform(w, s.each, st3);
        if !(c'.Raise? && !s.kind.ForeachLoop?) { OneIsKeptLoop(w, f - 1, s, st4, n); }
      }
    }
  }

  lemma {:induction false} OneIsKeptDo(w: World, f: nat, s: Stmt, st: State, n: nat)
    requires OnesEverywhere(w, n) && AlwaysOne(s, n) && Level(st, n) == 1 && s.DoWhile?
    ensures Level(ExecDo(w, f, s, st).1, n) == 1
    decreases f, s, 0
  {
    if f > 0 {
      OneIsKept(w, f - 1, s.body, st, n);
      var (c, st1) := Exec(w, f - 1, s.body, st);
      var (v, st2) := AfterLoopBody(WhileLoop, c, st1);
      if v.Again? {
        var (t, st3) := Check(w, Some(s.until), st2);
        if t == Holds(true) { OneIsKeptDo(w, f - 1, s, st3, n); }
      }
    }
  }

  lemma {:induction false} OneIsKeptCases(w: World, f: nat, s: Stmt, i: nat, st: State, n: nat)
    requires OnesEverywhere(w, n) && AlwaysOne(s, n) && Level(st, n) == 1 && s.Switch? && i <= |s.cases|
    ensures Level(ExecCases(w, f, s, i, st).1, n) == 1
    decreases f, s, |s.cases| - i
  {
    if i < |s.cases| {
      OneIsKept(w, f, s.cases[i].code, st, n);
      var (c, st1) := Exec(w, f, s.cases[i].code, st);
      var (v, st2) := AfterCase(c, st1);
      if v.Again? { OneIsKeptCases(w, f, s, i + 1, st2, n); }
    }
  }

  lemma {:induction false} OneStandsAtOne(s: Stmt, n: nat, r: int)
    requires AlwaysOne(s, n) && Stands(s, n, r)
    ensures r <= 1
    decreases s
  {
    match s
    case Break(_, _) =>
    case Continue(_, _) =>
    case Seq(a, b) => if Stands(a, n, r) { OneStandsAtOne(a, n, r); } else { OneStandsAtOne(b, n, r); }
    case If(_, a, b) => if Stands(a, n, r) { OneStandsAtOne(a, n, r); } else { OneStandsAtOne(b, n, r); }
    case Loop(_, _, _, _, body) => OneStandsAtOne(body, n, r + 1);
    case DoWhile(body, _) => OneStandsAtOne(body, n, r + 1);
    case Switch(_, cases) =>
      var i :| 0 <= i < |cases| && Stands(cases[i].code, n, r + 1);
      OneStandsAtOne(cases[i].code, n, r + 1);
    case Try(_, body, catches, fin) =>
      if Stands(body, n, r) { OneStandsAtOne(body, n, r); }
      else if fin.Some? && Stands(fin.value, n, r) { OneStandsAtOne(fin.value, n, r); }
      else {
        var i :| 0 <= i < |catches| && Stands(catches[i].body, n, r);
        OneStandsAtOne(catches[i].body, n, r);
      }
  }

  // ----- the level of a jump that escapes -----

  /** A break or continue that escapes from a statement carries exactly its own level minus the
      number of loops and switches of that statement around it, and at least one. */
  lemma {:induction false} EscapingLevel(w: World, lim: Limits, f: nat, s: Stmt, st: State)
    requires Sane(w, lim) && NoReentry(lim, s) && OnesIn(lim, s)
    ensures Exact(s, Exec(w, f, s, st))
    decreases f, s
  {
    match s
    case Skip =>
    case Act(_) =>
    case Seq(a, b) =>
      EscapingLevel(w, lim, f, a, st);
      var (c, st1) := Exec(w, f, a, st);
      if c.Done? { EscapingLevel(w, lim, f, b, st1); }
    case If(t, yes, no) =>
      var (r, st1) := Check(w, Some(t), st);
      if r.Holds? {
        if r.b { EscapingLevel(w, lim, f, yes, st1); } else { EscapingLevel(w, lim, f, no, st1); }
      }
    case Loop(_, start, _, _, _) =>
      var (c, st1) := Perform(w, start, st);
      if c.Done? { LoopLevel(w, lim, f, s, st1); }
    case DoWhile(_, _) => DoLevel(w, lim, f, s, st);
    case Switch(subject, cases) =>
      var (c, st1) := Perform(w, Some(subject), st);
      if c.Done? {
        var (c', start, st2) := FindCase(w, cases, 0, None, st1);
        if c'.Done? && start.Some? { CasesLevel(w, lim, f, s, start.value, st2); }
      }
    case Try(_, _, _, _) => TryLevel(w, lim, f, s, st);
    case Break(_, _) =>
    case Continue(_, _) =>
    case Return(_, _) =>
    case Call(fn) =>
      if fn in w.bodies && f > 0 {
        EscapingLevel(w, lim, f - 1, w.bodies[fn], Enter(w, fn, st));
        var (c, st1) := Exec(w, f - 1, w.bodies[fn], Enter(w, fn, st));
        if Jumps(c) {
          FitsBounds(w.bodies[fn], 0, c.err.sig.node, Level(st1, c.err.sig.node));
        }
      }
  }

  /** A level that fits its nesting exceeds it by at most the outer depth. */
  lemma {:induction false} FitsBounds(s: Stmt, depth: nat, n: nat, r: int)
    requires Fits(s, depth) && Stands(s, n, r)
    ensures r <= depth
    decreases s
  {
    match s
    case Break(_, _) =>
    case Continue(_, _) =>
    case Seq(a, b) => if Stands(a, n, r) { FitsBounds(a, depth, n, r); } else { FitsBounds(b, depth, n, r); }
    case If(_, a, b) => if Stands(a, n, r) { FitsBounds(a, depth, n, r); } else { FitsBounds(b, depth, n, r); }
    case Loop(_, _, _, _, body) => FitsBounds(body, depth + 1, n, r + 1);
    case DoWhile(body, _) => FitsBounds(body, depth + 1, n, r + 1);
    case Switch(_, cases) =>
      var i :| 0 <= i < |cases| && Stands(cases[i].code, n, r + 1);
      FitsBounds(cases[i].code, depth + 1, n, r + 1);
    case Try(_, body, catches, fin) =>
      if Stands(body, n, r) { FitsBounds(body, depth, n, r); }
      else if fin.Some? && Stands(fin.value, n, r) { FitsBounds(fin.value, 0, n, r); }
      else {
        var i :| 0 <= i < |catches| && Stands(catches[i].body, n, r);
        FitsBounds(catches[i].body, depth, n, r);
      }
  }

  /** A pending jump of `inner` keeps its level through the finally block. */
  lemma PendingKeepsLevel(w: World, lim: Limits, f: nat, inner: Stmt, fin: Stmt, n: nat, st: State)
    requires Sane(w, lim) && OnesIn(lim, inner) && OnesIn(lim, fin) && 1 <= Level(st, n)
      && Stands(inner, n, Level(st, n))
    requires forall r :: AtRisk(lim, inner, n, r) ==> !Touches(lim, fin, n)
    ensures Level(Exec(w, f, fin, st).1, n) == Level(st, n)
  {
    if lim.ones(n) {
      OneStandsAtOne(inner, n, Level(st, n));
      OneIsKept(w, f, fin, st, n);
    } else {
      assert AtRisk(lim, inner, n, Level(st, n));
      Frame(w, lim, f, fin, st, n);
    }
  }

  lemma {:induction false} TryLevel(w: World, lim: Limits, f: nat, s: Stmt, st: State)
    requires s.Try? && Sane(w, lim) && NoReentry(lim, s) && OnesIn(lim, s)
    ensures Exact(s, Exec(w, f, s, st))
    decreases f, s, 2
  {
    var st0 := if s.fin.Some? then Log(st, Entered(s.id)) else st;
    EscapingLevel(w, lim, f, s.body, st0);
    var (c, st1) := Exec(w, f, s.body, st0);
    if c.Raise? && c.err.sig.Thrown? && !c.err.wrapped {
      CaughtLevel(w, lim, f, s, st, c, st1);
    } else if s.fin.Some? {
      FinallyLevel(w, lim, f, s, s.body, c, st1);
      var (q, st2) := Exec(w, f, s.fin.value, Log(st1, Finally(s.id)));
      var (r, st') := Exec(w, f, s, st);
      assert Jumps(r) ==> st' == st2 && (r == q || (q.Done? && r == c));
    }
  }

  /** The finally block behind a body or catch block that ended with `c`. */
  lemma {:induction false} FinallyLevel(w: World, lim: Limits, f: nat, s: Stmt, inner: Stmt, c: Completion, st1: State)
    requires s.Try? && s.fin.Some? && Sane(w, lim) && NoReentry(lim, s) && OnesIn(lim, s)
    requires inner == s.body || exists i :: 0 <= i < |s.catches| && inner == s.catches[i].body
    requires Exact(inner, (c, st1))
    ensures var (q, st2) := Exec(w, f, s.fin.value, Log(st1, Finally(s.id)));
            Exact(s, (q, st2)) && (q.Done? ==> Exact(s, (c, st2)))
    decreases f, s, 0
  {
    var fin := s.fin.value;
    var st1' := Log(st1, Finally(s.id));
    EscapingLevel(w, lim, f, fin, st1');
    if Jumps(c) {
      PendingKeepsLevel(w, lim, f, inner, fin, c.err.sig.node, st1');
    }
  }

  lemma {:induction false} CaughtLevel(w: World, lim: Limits, f: nat, s: Stmt, st: State, c: Completion, st1: State)
    requires s.Try? && Sane(w, lim) && NoReentry(lim, s) && OnesIn(lim, s)
    requires (c, st1) == Exec(w, f, s.body, if s.fin.Some? then Log(st, Entered(s.id)) else st)
    requires c.Raise? && c.err.sig.Thrown? && !c.err.wrapped
    ensures Exact(s, Exec(w, f, s, st))
    decreases f, s, 1
  {
    var i := FirstMatch(w, s.catches, c.err.sig.exn);
    var inner := if i < |s.catches| then s.catches[i].body else s.body;
    if i < |s.catches| { EscapingLevel(w, lim, f, inner, st1); }
    var (p, st2) := if i < |s.catches| then Exec(w, f, inner, st1) else (c, st1);
    if s.fin.Some? {
      FinallyLevel(w, lim, f, s, inner, p, st2);
    }
  }

  lemma {:induction false} LoopLevel(w: World, lim: Limits, f: nat, s: Stmt, st: State)
    requires s.Loop? && Sane(w, lim) && NoReentry(lim, s) && OnesIn(lim, s)
    ensures Exact(s, ExecLoop(w, f, s, st))
    decreases f, s, 0
  {
    var (t, st1) := Check(w, s.cond, st);
    if t == Holds(true) && f > 0 {
      EscapingLevel(w, lim, f - 1, s.body, st1);
      var (c, st2) := Exec(w, f - 1, s.body, st1);
      var (v, st3) := AfterLoopBody(s.kind, c, st2);
      if v.Again? {
        var (c', st4) := Perform(w, s.each, st3);
        if !(c'.Raise? && !s.kind.ForeachLoop?) { LoopLevel(w, lim, f - 1, s, st4); }
      }
    }
  }

  lemma {:induction false} DoLevel(w: World, lim: Limits, f: nat, s: Stmt, st: State)
    requires s.DoWhile? && Sane(w, lim) && NoReentry(lim, s) && OnesIn(lim, s)
    ensures Exact(s, ExecDo(w, f, s, st))
    decreases f, s, 0
  {
    if f > 0 {
      EscapingLevel(w, lim, f - 1, s.body, st);
      var (c, st1) := Exec(w, f - 1, s.body, st);
      var (v, st2) := AfterLoopBody(WhileLoop, c, st1);
      if v.Again? {
        var (t, st3) := Check(w, Some(s.until), st2);
        if t == Holds(true) { DoLevel(w, lim, f - 1, s, st3); }
      }
    }
  }

  lemma {:induction false} CasesLevel(w: World, lim: Limits, f: nat, s: Stmt, i: nat, st: State)
    requires s.Switch? && i <= |s.cases| && Sane(w, lim) && NoReentry(lim, s) && OnesIn(lim, s)
    ensures Exact(s, ExecCases(w, f, s, i, st))
    decreases f, s, |s.cases| - i
  {
    if i < |s.cases| {
      EscapingLevel(w, lim, f, s.cases[i].code, st);
      var (c, st1) := Exec(w, f, s.cases[i].code, st);
      var (v, st2) := AfterCase(c, st1);
      if v.Again? { CasesLevel(w, lim, f, s, i + 1, st2); }
    }
  }

  // ----- breaks do not leak -----

  /** In a validated program without re-entrant finally blocks, a jump that escapes at outer
      depth `depth` has a level between one and `depth`; so no function body ends in a jump. */
  lemma JumpsStayInside(w: World, lim: Limits, f: nat, s: Stmt, depth: nat, st: State)
    requires Sane(w, lim) && NoReentry(lim, s) && OnesIn(lim, s) && Validate(s, depth, false).None?
    ensures var (c, st') := Exec(w, f, s, st);
            Jumps(c) ==> 1 <= Level(st', c.err.sig.node) <= depth
    ensures depth == 0 ==> !Jumps(Exec(w, f, s, st).0)
  {
    ValidateDecidesFits(s, depth, false);
    EscapingLevel(w, lim, f, s, st);
    var (c, st') := Exec(w, f, s, st);
    if Jumps(c) {
      FitsBounds(s, depth, c.err.sig.node, Level(st', c.err.sig.node));
    }
  }

  /** Every break and continue is written with level 1. */
  ghost predicate SingleLevels(s: Stmt) {
    forall n :: AlwaysOne(s, n)
  }

  lemma {:induction false} NothingAtRisk(lim: Limits, s: Stmt)
    requires forall n :: lim.ones(n)
    ensures NoReentry(lim, s)
    decreases s
  {
    match s
    case Seq(a, b) => NothingAtRisk(lim, a); NothingAtRisk(lim, b);
    case If(_, a, b) => NothingAtRisk(lim, a); NothingAtRisk(lim, b);
    case Loop(_, _, _, _, body) => NothingAtRisk(lim, body);
    case DoWhile(body, _) => NothingAtRisk(lim, body);
    case Switch(_, cases) =>
      forall i | 0 <= i < |cases| ensures NoReentry(lim, cases[i].code) { NothingAtRisk(lim, cases[i].code); }
    case Try(_, body, catches, fin) =>
      NothingAtRisk(lim, body);
      forall i | 0 <= i < |catches| ensures NoReentry(lim, catches[i].body) { NothingAtRisk(lim, catches[i].body); }
      if fin.Some? { NothingAtRisk(lim, fin.value); }
    case _ =>
  }

  /** A program that uses only `break;` and `continue;` never leaks one, whatever its finally
      blocks call. */
  lemma SingleLevelsStayInside(w: World, f: nat, s: Stmt, depth: nat, st: State)
    requires forall fn :: fn in w.bodies ==> Validate(w.bodies[fn], 0, false).None? && SingleLevels(w.bodies[fn])
    requires Validate(s, depth, false).None? && SingleLevels(s)
    ensures Jumps(Exec(w, f, s, st).0) ==> depth > 0
  {
    var lim := Limits((_, _) => true, _ => true);
    forall fn | fn in w.bodies ensures Fits(w.bodies[fn], 0) && NoReentry(lim, w.bodies[fn]) {
      ValidateDecidesFits(w.bodies[fn], 0, false);
      NothingAtRisk(lim, w.bodies[fn]);
    }
    NothingAtRisk(lim, s);
    JumpsStayInside(w, lim, f, s, depth, st);
  }
}
