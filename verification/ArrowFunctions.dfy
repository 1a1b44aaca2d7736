/** Automatic capture of variables by arrow functions: the syntactic collector
    (collectVarsWalk, compileArrowFunction in core/compiler/compile-func.go) against evaluation
    with captured values (ZClosure.Run, callBody in core/compiler/closure.go). */
module ArrowFunctions {

  type Name = string

  /** Expressions of an arrow body. `AssignOp` stands for `+=`, `-=`, `??=` and the other compound
      assignments with the `skipA` flag; `ConcatAssign` for `.=`, the one without it; `Unwalked` for
      nodes the collector does not look into, such as interpolated strings. */
  datatype Expr =
    | Var(x: Name)
    | Lit(n: int)
    | Bin(op: nat, a: Expr, b: Expr)
    | Assign(x: Name, e: Expr)
    | AssignOp(op: nat, x: Name, e: Expr)
    | ConcatAssign(x: Name, e: Expr)
    | AssignDim(x: Name, key: Expr, e: Expr)
    | Index(a: Expr, key: Expr)
    | CallFn(fn: nat, args: seq<Expr>)
    | Apply(f: Expr, args: seq<Expr>)
    | Ternary(test: Expr, yes: Expr, no: Expr)
    | Arrow(params: seq<Name>, body: Expr)
    | Unwalked(part: Expr)

  datatype Value = Null | Int(n: int) | Other(tag: nat, parts: seq<Value>)
    | Closure(params: seq<Name>, body: Expr, captured: map<Name, Value>)

  type Env = map<Name, Value>

  datatype World = World(
    op: (nat, Value, Value) -> Value,
    index: (Value, Value) -> Value,
    setDim: (Value, Value, Value) -> Value,
    call: (nat, seq<Value>) -> Value,
    truthy: Value -> bool,
    thisValue: Value)

  // ----- the collector -----

  function Add(seen: seq<Name>, x: Name): seq<Name> {
    if x in seen then seen else seen + [x]
  }

  function AddAll(seen: seq<Name>, xs: seq<Name>): seq<Name>
    decreases xs
  {
    if xs == [] then seen else AddAll(Add(seen, xs[0]), xs[1..])
  }

  /** collectVarsWalk: the names found so far, in order of first occurrence. */
  function Walk(e: Expr, seen: seq<Name>): seq<Name>
    decreases e
  {
    match e
    case Var(x) => Add(seen, x)
    case Lit(_) => seen
    case Bin(_, a, b) => Walk(b, Walk(a, seen))
    case Assign(_, r) => Walk(r, seen)
    case AssignOp(_, _, r) => Walk(r, seen)
    case ConcatAssign(x, r) => Walk(r, Add(seen, x))
    case AssignDim(x, k, r) => Walk(r, Walk(k, Add(seen, x)))
    case Index(a, k) => Walk(k, Walk(a, seen))
    case CallFn(_, _) => WalkArgs(e, 0, seen)
    case Apply(f, _) => WalkArgs(e, 0, Walk(f, seen))
    case Ternary(c, a, b) => Walk(b, Walk(a, Walk(c, seen)))
    case Arrow(ps, body) => AddAll(seen, Excluding(Walk(body, []), ps))
    case Unwalked(_) => seen
  }

  function WalkArgs(e: Expr, i: nat, seen: seq<Name>): seq<Name>
    requires (e.CallFn? || e.Apply?) && i <= |e.args|
    decreases e, |e.args| - i
  {
    if i == |e.args| then seen else WalkArgs(e, i + 1, Walk(e.args[i], seen))
  }

  function Excluding(names: seq<Name>, params: seq<Name>): seq<Name> {
    if names == [] then []
    else if names[0] in params || names[0] == "this" then Excluding(names[1..], params)
    else [names[0]] + Excluding(names[1..], params)
  }

  /** The `use` list compiled for an arrow function. */
  function Uses(params: seq<Name>, body: Expr): seq<Name> {
    Excluding(Walk(body, []), params)
  }

  // ----- evaluation -----

  datatype Result = Ok(v: Value) | Error | OutOfFuel

  function Lookup(w: World, env: Env, x: Name): Value {
    if x == "this" then w.thisValue else if x in env then env[x] else Null
  }

  /** What ZClosure.Run stores: the current values of the used variables, null when undefined. */
  function Capture(w: World, env: Env, uses: seq<Name>): Env {
    map x | x in uses :: Lookup(w, env, x)
  }

  function Bind(env: Env, params: seq<Name>, args: seq<Value>): Env
    requires |params| <= |args|
    decreases params
  {
    if params == [] then env else Bind(env[params[0] := args[0]], params[1..], args[1..])
  }

  function Eval(w: World, fuel: nat, e: Expr, env: Env): (Result, Env)
    decreases fuel, 1, e
  {
    match e
    case Var(x) => (Ok(Lookup(w, env, x)), env)
    case Lit(n) => (Ok(Int(n)), env)
    case Bin(op, a, b) =>
      var (x, env1) := Eval(w, fuel, a, env);
      if !x.Ok? then (x, env1)
      else
        var (y, env2) := Eval(w, fuel, b, env1);
        (if y.Ok? then Ok(w.op(op, x.v, y.v)) else y, env2)
    case Assign(x, r) =>
      var (v, env1) := Eval(w, fuel, r, env);
      (v, if v.Ok? then env1[x := v.v] else env1)
    case AssignOp(op, x, r) => Update(w, op, x, Lookup(w, env, x), Eval(w, fuel, r, env))
    case ConcatAssign(x, r) => Update(w, 0, x, Lookup(w, env, x), Eval(w, fuel, r, env))
    case AssignDim(x, k, r) =>
      var (key, env1) := Eval(w, fuel, k, env);
      if !key.Ok? then (key, env1)
      else
        var (v, env2) := Eval(w, fuel, r, env1);
        (v, if v.Ok? then env2[x := w.setDim(Lookup(w, env2, x), key.v, v.v)] else env2)
    case Index(a, k) =>
      var (x, env1) := Eval(w, fuel, a, env);
      if !x.Ok? then (x, env1)
      else
        var (y, env2) := Eval(w, fuel, k, env1);
        (if y.Ok? then Ok(w.index(x.v, y.v)) else y, env2)
    case CallFn(fn, args) =>
      var (vs, r, env1) := EvalArgs(w, fuel, e, 0, env);
      (if r.Ok? then Ok(w.call(fn, vs)) else r, env1)
    case Apply(f, args) =>
      var (c, env1) := Eval(w, fuel, f, env);
      if !c.Ok? then (c, env1)
      else
        var (vs, r, env2) := EvalArgs(w, fuel, e, 0, env1);
        (if r.Ok? then Invoke(w, fuel, c.v, vs) else r, env2)
    case Ternary(c, a, b) =>
      var (x, env1) := Eval(w, fuel, c, env);
      if !x.Ok? then (x, env1)
      else if w.truthy(x.v) then Eval(w, fuel, a, env1) else Eval(w, fuel, b, env1)
    case Arrow(ps, body) => (Ok(Closure(ps, body, Capture(w, env, Uses(ps, body)))), env)
    case Unwalked(p) => Eval(w, fuel, p, env)
  }

  function Update(w: World, op: nat, x: Name, old_: Value, r: (Result, Env)): (Result, Env) {
    if !r.0.Ok? then r
    else
      var v := w.op(op, old_, r.0.v);
      (Ok(v), r.1[x := v])
  }

  function EvalArgs(w: World, fuel: nat, e: Expr, i: nat, env: Env): (seq<Value>, Result, Env)
    requires (e.CallFn? || e.Apply?) && i <= |e.args|
    decreases fuel, 1, e, |e.args| - i
  {
    if i == |e.args| then ([], Ok(Null), env)
    else
      var (v, env1) := Eval(w, fuel, e.args[i], env);
      if !v.Ok? then ([], v, env1)
      else
        var (vs, r, env2) := EvalArgs(w, fuel, e, i + 1, env1);
        ([v.v] + vs, r, env2)
  }

  /** callBody: a fresh scope holding the captured values, then the arguments. */
  function Invoke(w: World, fuel: nat, f: Value, args: seq<Value>): Result
    decreases fuel, 0
  {
    if !f.Closure? || |args| < |f.params| then Error
    else if fuel == 0 then OutOfFuel
    else Eval(w, fuel - 1, f.body, Bind(f.captured, f.params, args)).0
  }

  // ----- what is collected, what is needed -----

  /** The names the collector finds. */
  function Collected(e: Expr): set<Name>
    decreases e
  {
    match e
    case Var(x) => {x}
    case Lit(_) => {}
    case Bin(_, a, b) => Collected(a) + Collected(b)
    case Assign(_, r) => Collected(r)
    case AssignOp(_, _, r) => Collected(r)
    case ConcatAssign(x, r) => {x} + Collected(r)
    case AssignDim(x, k, r) => {x} + Collected(k) + Collected(r)
    case Index(a, k) => Collected(a) + Collected(k)
    case CallFn(_, _) => CollectedInArgs(e, 0)
    case Apply(f, _) => Collected(f) + CollectedInArgs(e, 0)
    case Ternary(c, a, b) => Collected(c) + Collected(a) + Collected(b)
    case Arrow(ps, body) => set x | x in Collected(body) && x !in ps && x != "this"
    case Unwalked(_) => {}
  }

  function CollectedInArgs(e: Expr, i: nat): set<Name>
    requires (e.CallFn? || e.Apply?) && i <= |e.args|
    decreases e, |e.args| - i
  {
    if i == |e.args| then {} else Collected(e.args[i]) + CollectedInArgs(e, i + 1)
  }

  /** The names that have been assigned whenever the evaluation succeeds. */
  function Sets(e: Expr): set<Name>
    decreases e
  {
    match e
    case Var(_) => {}
    case Lit(_) => {}
    case Bin(_, a, b) => Sets(a) + Sets(b)
    case Assign(x, r) => {x} + Sets(r)
    case AssignOp(_, x, r) => {x} + Sets(r)
    case ConcatAssign(x, r) => {x} + Sets(r)
    case AssignDim(x, k, r) => {x} + Sets(k) + Sets(r)
    case Index(a, k) => Sets(a) + Sets(k)
    case CallFn(_, _) => SetsInArgs(e, 0)
    case Apply(f, _) => Sets(f) + SetsInArgs(e, 0)
    case Ternary(c, a, b) => Sets(c) + Sets(a) * Sets(b)
    case Arrow(_, _) => {}
    case Unwalked(p) => Sets(p)
  }

  function SetsInArgs(e: Expr, i: nat): set<Name>
    requires (e.CallFn? || e.Apply?) && i <= |e.args|
    decreases e, |e.args| - i
  {
    if i == |e.args| then {} else Sets(e.args[i]) + SetsInArgs(e, i + 1)
  }

  /** Every name that an evaluation may read is in `names` or has been assigned before. */
  predicate ReadsWithin(e: Expr, names: set<Name>)
    decreases e
  {
    match e
    case Var(x) => x in names
    case Lit(_) => true
    case Bin(_, a, b) => ReadsWithin(a, names) && ReadsWithin(b, names + Sets(a))
    case Assign(_, r) => ReadsWithin(r, names)
    case AssignOp(_, x, r) => x in names && ReadsWithin(r, names)
    case ConcatAssign(x, r) => x in names && ReadsWithin(r, names)
    case AssignDim(x, k, r) =>
      ReadsWithin(k, names) && ReadsWithin(r, names + Sets(k)) && x in names + Sets(k) + Sets(r)
    case Index(a, k) => ReadsWithin(a, names) && ReadsWithin(k, names + Sets(a))
    case CallFn(_, _) => ArgsReadWithin(e, 0, names)
    case Apply(f, _) => ReadsWithin(f, names) && ArgsReadWithin(e, 0, names + Sets(f))
    case Ternary(c, a, b) =>
      ReadsWithin(c, names) && ReadsWithin(a, names + Sets(c)) && ReadsWithin(b, names + Sets(c))
    case Arrow(ps, body) => forall x :: x in Collected(body) && x !in ps && x != "this" ==> x in names
    case Unwalked(p) => ReadsWithin(p, names)
  }

  predicate ArgsReadWithin(e: Expr, i: nat, names: set<Name>)
    requires (e.CallFn? || e.Apply?) && i <= |e.args|
    decreases e, |e.args| - i
  {
    i == |e.args| || (ReadsWithin(e.args[i], names) && ArgsReadWithin(e, i + 1, names + Sets(e.args[i])))
  }

  ghost predicate NoRepeats(s: seq<Name>) {
    forall i, j :: 0 <= i < j < |s| ==> s[i] != s[j]
  }

  function Names(s: seq<Name>): set<Name> {
    set x | x in s
  }

  lemma AddAdds(seen: seq<Name>, x: Name)
    requires NoRepeats(seen)
    ensures NoRepeats(Add(seen, x)) && Names(Add(seen, x)) == Names(seen) + {x}
  {
  }

  lemma {:induction false} AddAllAdds(seen: seq<Name>, xs: seq<Name>)
    requires NoRepeats(seen)
    ensures NoRepeats(AddAll(seen, xs)) && Names(AddAll(seen, xs)) == Names(seen) + Names(xs)
    decreases xs
  {
    if xs != [] {
      AddAdds(seen, xs[0]);
      AddAllAdds(Add(seen, xs[0]), xs[1..]);
      assert xs == [xs[0]] + xs[1..];
    }
  }

  lemma {:induction false} ExcludingExcludes(names: seq<Name>, params: seq<Name>)
    ensures forall x :: x in Excluding(names, params) <==> x in names && x !in params && x != "this"
  {
    if names != [] {
      ExcludingExcludes(names[1..], params);
      assert names == [names[0]] + names[1..];
    }
  }

  /** The collector adds exactly the collected names, each once. */
  lemma {:induction false} WalkCollects(e: Expr, seen: seq<Name>)
    requires NoRepeats(seen)
    ensures NoRepeats(Walk(e, seen)) && Names(Walk(e, seen)) == Names(seen) + Collected(e)
    decreases e
  {
    match e
    case Var(x) => AddAdds(seen, x);
    case Lit(_) =>
    case Bin(_, a, b) => WalkCollects(a, seen); WalkCollects(b, Walk(a, seen));
    case Assign(_, r) => WalkCollects(r, seen);
    case AssignOp(_, _, r) => WalkCollects(r, seen);
    case ConcatAssign(x, r) => AddAdds(seen, x); WalkCollects(r, Add(seen, x));
    case AssignDim(x, k, r) =>
      AddAdds(seen, x);
      WalkCollects(k, Add(seen, x));
      WalkCollects(r, Walk(k, Add(seen, x)));
    case Index(a, k) => WalkCollects(a, seen); WalkCollects(k, Walk(a, seen));
    case CallFn(_, _) => WalkArgsCollects(e, 0, seen);
    case Apply(f, _) => WalkCollects(f, seen); WalkArgsCollects(e, 0, Walk(f, seen));
    case Ternary(c, a, b) =>
      WalkCollects(c, seen);
      WalkCollects(a, Walk(c, seen));
      WalkCollects(b, Walk(a, Walk(c, seen)));
    case Arrow(ps, body) =>
      WalkCollects(body, []);
      var uses := Excluding(Walk(body, []), ps);
      ExcludingExcludes(Walk(body, []), ps);
      AddAllAdds(seen, uses);
      assert Names(uses) == Collected(e) by {
        forall x ensures x in Names(uses) <==> x in Collected(e) {
          assert x in Names(Walk(body, [])) <==> x in Walk(body, []);
        }
      }
    case Unwalked(_) =>
  }

  lemma {:induction false} WalkArgsCollects(e: Expr, i: nat, seen: seq<Name>)
    requires NoRepeats(seen) && (e.CallFn? || e.Apply?) && i <= |e.args|
    ensures NoRepeats(WalkArgs(e, i, seen))
    ensures Names(WalkArgs(e, i, seen)) == Names(seen) + CollectedInArgs(e, i)
    decreases e, |e.args| - i
  {
    if i < |e.args| {
      WalkCollects(e.args[i], seen);
      WalkArgsCollects(e, i + 1, Walk(e.args[i], seen));
    }
  }

  /** The compiled `use` list: the collected names other than the parameters and `$this`. */
  lemma UsesAreCollected(params: seq<Name>, body: Expr)
    ensures forall x :: x in Uses(params, body) <==> x in Collected(body) && x !in params && x != "this"
  {
    WalkCollects(body, []);
    ExcludingExcludes(Walk(body, []), params);
    forall x ensures x in Walk(body, []) <==> x in Collected(body) {
      assert x in Names(Walk(body, [])) <==> x in Walk(body, []);
    }
  }

  // ----- evaluation depends only on what is needed -----

  ghost predicate Agree(w: World, env: Env, env': Env, names: set<Name>) {
    forall x :: x in names ==> Lookup(w, env, x) == Lookup(w, env', x)
  }

  /** The same result, and agreement on the names and on what has been assigned. */
  ghost predicate SameRun(w: World, r: (Result, Env), r': (Result, Env), names: set<Name>) {
    r.0 == r'.0 && (r.0.Ok? ==> Agree(w, r.1, r'.1, names))
  }

  /** Scopes that agree on the names an expression may read give the same result and agree
      afterwards on those and on the names it has assigned. */
  lemma {:induction false} EvalAgrees(w: World, fuel: nat, e: Expr, env: Env, env': Env, names: set<Name>)
    requires ReadsWithin(e, names) && Agree(w, env, env', names)
    ensures SameRun(w, Eval(w, fuel, e, env), Eval(w, fuel, e, env'), names + Sets(e))
    decreases fuel, e, 3
  {
    match e
    case Var(x) =>
    case Lit(_) =>
    case Bin(_, _, _) => BinAgrees(w, fuel, e, env, env', names);
    case Assign(_, r) => EvalAgrees(w, fuel, r, env, env', names);
    case AssignOp(_, _, _) => UpdateAgrees(w, fuel, e, env, env', names);
    case ConcatAssign(_, _) => UpdateAgrees(w, fuel, e, env, env', names);
    case AssignDim(_, _, _) => DimAgrees(w, fuel, e, env, env', names);
    case Index(_, _) => BinAgrees(w, fuel, e, env, env', names);
    case CallFn(_, _) => CallAgrees(w, fuel, e, env, env', names);
    case Apply(_, _) => CallAgrees(w, fuel, e, env, env', names);
    case Ternary(_, _, _) => TernaryAgrees(w, fuel, e, env, env', names);
    case Arrow(ps, body) =>
      UsesAreCollected(ps, body);
      assert Capture(w, env, Uses(ps, body)) == Capture(w, env', Uses(ps, body));
    case Unwalked(p) => EvalAgrees(w, fuel, p, env, env', names);
  }

  lemma {:induction false} BinAgrees(w: World, fuel: nat, e: Expr, env: Env, env': Env, names: set<Name>)
    requires (e.Bin? || e.Index?) && ReadsWithin(e, names) && Agree(w, env, env', names)
    ensures SameRun(w, Eval(w, fuel, e, env), Eval(w, fuel, e, env'), names + Sets(e))
    decreases fuel, e, 2
  {
    if e.Bin? {
      BothAgree(w, fuel, e, e.a, e.b, env, env', names);
      assert names + Sets(e.a) + Sets(e.b) == names + Sets(e);
    } else {
      BothAgree(w, fuel, e, e.a, e.key, env, env', names);
      assert names + Sets(e.a) + Sets(e.key) == names + Sets(e);
    }
  }

  lemma {:induction false} UpdateAgrees(w: World, fuel: nat, e: Expr, env: Env, env': Env, names: set<Name>)
    requires (e.AssignOp? || e.ConcatAssign?) && ReadsWithin(e, names) && Agree(w, env, env', names)
    ensures SameRun(w, Eval(w, fuel, e, env), Eval(w, fuel, e, env'), names + Sets(e))
    decreases fuel, e, 2
  {
    EvalAgrees(w, fuel, e.e, env, env', names);
    assert e.x in names;
  }

  lemma {:induction false} DimAgrees(w: World, fuel: nat, e: Expr, env: Env, env': Env, names: set<Name>)
    requires e.AssignDim? && ReadsWithin(e, names) && Agree(w, env, env', names)
    ensures SameRun(w, Eval(w, fuel, e, env), Eval(w, fuel, e, env'), names + Sets(e))
    decreases fuel, e, 2
  {
    BothAgree(w, fuel, e, e.key, e.e, env, env', names);
    assert e.x in names + Sets(e.key) + Sets(e.e);
  }

  lemma {:induction false} TernaryAgrees(w: World, fuel: nat, e: Expr, env: Env, env': Env, names: set<Name>)
    requires e.Ternary? && ReadsWithin(e, names) && Agree(w, env, env', names)
    ensures SameRun(w, Eval(w, fuel, e, env), Eval(w, fuel, e, env'), names + Sets(e))
    decreases fuel, e, 2
  {
    BothAgree(w, fuel, e, e.test, e.yes, env, env', names);
    BothAgree(w, fuel, e, e.test, e.no, env, env', names);
  }

  lemma {:induction false} BothAgree(w: World, fuel: nat, e: Expr, a: Expr, b: Expr, env: Env, env': Env,
      names: set<Name>)
    requires a < e && b < e
    requires ReadsWithin(a, names) && ReadsWithin(b, names + Sets(a)) && Agree(w, env, env', names)
    ensures var (r, r') := (Eval(w, fuel, a, env), Eval(w, fuel, a, env'));
            && SameRun(w, r, r', names + Sets(a))
            && (r.0.Ok? ==> SameRun(w, Eval(w, fuel, b, r.1), Eval(w, fuel, b, r'.1), names + Sets(a) + Sets(b)))
    decreases fuel, e, 1
  {
    EvalAgrees(w, fuel, a, env, env', names);
    if Eval(w, fuel, a, env).0.Ok? {
      EvalAgrees(w, fuel, b, Eval(w, fuel, a, env).1, Eval(w, fuel, a, env').1, names + Sets(a));
    }
  }

  lemma {:induction false} CallAgrees(w: World, fuel: nat, e: Expr, env: Env, env': Env, names: set<Name>)
    requires (e.CallFn? || e.Apply?) && ReadsWithin(e, names) && Agree(w, env, env', names)
    ensures SameRun(w, Eval(w, fuel, e, env), Eval(w, fuel, e, env'), names + Sets(e))
    decreases fuel, e, 2
  {
    if e.CallFn? {
      ArgsAgree(w, fuel, e, 0, env, env', names);
    } else {
      EvalAgrees(w, fuel, e.f, env, env', names);
      if Eval(w, fuel, e.f, env).0.Ok? {
        ArgsAgree(w, fuel, e, 0, Eval(w, fuel, e.f, env).1, Eval(w, fuel, e.f, env').1, names + Sets(e.f));
        assert names + Sets(e.f) + SetsInArgs(e, 0) == names + Sets(e);
      }
    }
  }

  lemma {:induction false} ArgsAgree(w: World, fuel: nat, e: Expr, i: nat, env: Env, env': Env, names: set<Name>)
    requires (e.CallFn? || e.Apply?) && i <= |e.args|
    requires ArgsReadWithin(e, i, names) && Agree(w, env, env', names)
    ensures var (vs, r, env1) := EvalArgs(w, fuel, e, i, env);
            var (vs', r', env1') := EvalArgs(w, fuel, e, i, env');
            vs == vs' && SameRun(w, (r, env1), (r', env1'), names + SetsInArgs(e, i))
    decreases fuel, e, 0, |e.args| - i
  {
    if i < |e.args| {
      var arg := e.args[i];
      EvalAgrees(w, fuel, arg, env, env', names);
      if Eval(w, fuel, arg, env).0.Ok? {
        ArgsAgree(w, fuel, e, i + 1, Eval(w, fuel, arg, env).1, Eval(w, fuel, arg, env').1, names + Sets(arg));
        assert names + Sets(arg) + SetsInArgs(e, i + 1) == names + SetsInArgs(e, i);
      }
    }
  }

  // ----- capture preserves meaning -----

  /** The names that a call has right from the start: collected ones, parameters, `$this`. */
  function Given(params: seq<Name>, body: Expr): set<Name> {
    Collected(body) + Names(params) + {"this"}
  }

  /** Everything the body may read is given, or assigned by the body before. */
  predicate Covered(params: seq<Name>, body: Expr) {
    ReadsWithin(body, Given(params, body))
  }

  /** A parameter has its argument's value, whatever the scope; other names keep theirs. */
  lemma {:induction false} BindBinds(env: Env, env': Env, params: seq<Name>, args: seq<Value>, x: Name)
    requires |params| <= |args|
    ensures var (r, r') := (Bind(env, params, args), Bind(env', params, args));
            if x in params then x in r && x in r' && r[x] == r'[x]
            else (x in r <==> x in env) && (x in env ==> r[x] == env[x])
    decreases params
  {
    if params != [] {
      BindBinds(env[params[0] := args[0]], env'[params[0] := args[0]], params[1..], args[1..], x);
      assert params == [params[0]] + params[1..];
      if params[0] == x && x !in params[1..] {
        BindBinds(env'[params[0] := args[0]], env[params[0] := args[0]], params[1..], args[1..], x);
      }
    }
  }

  /** The scope of a call: a parameter has the argument at its place, the last place of that name,
      and every other name the value it had. */
  lemma {:induction false} ScopeOfCall(env: Env, params: seq<Name>, args: seq<Value>)
    requires |params| <= |args|
    ensures var r := Bind(env, params, args);
            && (forall i :: 0 <= i < |params| && (forall j :: i < j < |params| ==> params[j] != params[i]) ==>
                  params[i] in r && r[params[i]] == args[i])
            && (forall x :: x !in params ==> (x in r <==> x in env) && (x in env ==> r[x] == env[x]))
            && r.Keys == env.Keys + Names(params)
    decreases params
  {
    if params != [] {
      var r := Bind(env, params, args);
      ScopeOfCall(env[params[0] := args[0]], params[1..], args[1..]);
      assert params == [params[0]] + params[1..];
      forall i | 0 <= i < |params| && (forall j :: i < j < |params| ==> params[j] != params[i])
        ensures params[i] in r && r[params[i]] == args[i]
      {
        if i == 0 {
          assert params[0] !in params[1..];
        } else {
          assert params[1..][i - 1] == params[i] && args[1..][i - 1] == args[i];
          assert forall j :: i - 1 < j < |params[1..]| ==> params[1..][j] == params[j + 1];
        }
      }
    }
  }

  /** A call gives back the argument of the parameter that its body names, and otherwise what was
      captured. */
  lemma ParameterIsArgument(w: World, fuel: nat, params: seq<Name>, captured: Env, args: seq<Value>, i: nat)
    requires NoRepeats(params) && i < |params| <= |args| && params[i] != "this"
    ensures Invoke(w, fuel + 1, Closure(params, Var(params[i]), captured), args) == Ok(args[i])
  {
    ScopeOfCall(captured, params, args);
  }

  lemma CapturedIsSeen(w: World, fuel: nat, params: seq<Name>, captured: Env, args: seq<Value>, x: Name)
    requires |params| <= |args| && x !in params && x != "this"
    ensures Invoke(w, fuel + 1, Closure(params, Var(x), captured), args) ==
      Ok(if x in captured then captured[x] else Null)
  {
    ScopeOfCall(captured, params, args);
  }

  // ----- what the operations are given -----

  /** Operands are handed over in order, and a condition picks its branch. */
  lemma OperandsInOrder(w: World, fuel: nat, env: Env, op: nat, m: int, n: int, k: int)
    ensures Eval(w, fuel, Bin(op, Lit(m), Lit(n)), env) == (Ok(w.op(op, Int(m), Int(n))), env)
    ensures Eval(w, fuel, Index(Lit(m), Lit(n)), env) == (Ok(w.index(Int(m), Int(n))), env)
    ensures Eval(w, fuel, Ternary(Lit(k), Lit(m), Lit(n)), env) == (Ok(Int(if w.truthy(Int(k)) then m else n)), env)
  {
  }

  /** `$x op= e` is `$x = $x op e`, and `.=` is the same with its own operator. */
  lemma CompoundIsAssignment(w: World, fuel: nat, env: Env, op: nat, x: Name, e: Expr)
    ensures Eval(w, fuel, AssignOp(op, x, e), env) == Eval(w, fuel, Assign(x, Bin(op, Var(x), e)), env)
    ensures Eval(w, fuel, ConcatAssign(x, e), env) == Eval(w, fuel, AssignOp(0, x, e), env)
  {
    var (v, env1) := Eval(w, fuel, e, env);
    assert Eval(w, fuel, Var(x), env) == (Ok(Lookup(w, env, x)), env);
    assert Eval(w, fuel, Bin(op, Var(x), e), env) == (if v.Ok? then Ok(w.op(op, Lookup(w, env, x), v.v)) else v, env1);
  }

  /** An assignment is its value and is seen behind it, and nothing else changes. */
  lemma AssignmentIsSeen(w: World, fuel: nat, env: Env, x: Name, n: int, y: Name)
    requires x != "this"
    ensures var (r, env') := Eval(w, fuel, Assign(x, Lit(n)), env);
            && r == Ok(Int(n)) && Lookup(w, env', x) == Int(n)
            && (y != x ==> Lookup(w, env', y) == Lookup(w, env, y))
  {
  }

  /** Storing an element changes the variable to what the store makes of it. */
  lemma ElementIsStored(w: World, fuel: nat, env: Env, x: Name, k: int, n: int)
    requires x != "this"
    ensures var (r, env') := Eval(w, fuel, AssignDim(x, Lit(k), Lit(n)), env);
            r == Ok(Int(n)) && env' == env[x := w.setDim(Lookup(w, env, x), Int(k), Int(n))]
  {
  }

  /** A function is called with its arguments in order. */
  lemma {:induction false} LiteralArguments(w: World, fuel: nat, env: Env, e: Expr, i: nat, ns: seq<int>)
    requires (e.CallFn? || e.Apply?) && i <= |e.args| && |ns| == |e.args|
    requires forall j :: 0 <= j < |ns| ==> e.args[j] == Lit(ns[j])
    ensures var (vs, r, env') := EvalArgs(w, fuel, e, i, env);
            && r.Ok? && env' == env && |vs| == |ns| - i
            && forall j :: i <= j < |ns| ==> vs[j - i] == Int(ns[j])
    decreases |ns| - i
  {
    if i < |ns| {
      LiteralArguments(w, fuel, env, e, i + 1, ns);
      assert Eval(w, fuel, e.args[i], env) == (Ok(Int(ns[i])), env);
      assert EvalArgs(w, fuel, e, i, env).0 == [Int(ns[i])] + EvalArgs(w, fuel, e, i + 1, env).0;
    }
  }

  lemma CalledWithArguments(w: World, fuel: nat, env: Env, e: Expr, ns: seq<int>)
    requires e.CallFn? && |ns| == |e.args| && forall j :: 0 <= j < |ns| ==> e.args[j] == Lit(ns[j])
    ensures Eval(w, fuel, e, env) == (Ok(w.call(e.fn, seq(|ns|, j requires 0 <= j < |ns| => Int(ns[j])))), env)
  {
    LiteralArguments(w, fuel, env, e, 0, ns);
    assert EvalArgs(w, fuel, e, 0, env).0 == seq(|ns|, j requires 0 <= j < |ns| => Int(ns[j]));
  }

  /** `(fn($a, $b, ...) => $p)(m, n, ...)` is the argument at the place of `$p`. */
  lemma ArrowOfArguments(w: World, fuel: nat, env: Env, params: seq<Name>, e: Expr, ns: seq<int>, i: nat)
    requires NoRepeats(params) && i < |params| == |ns| && params[i] != "this"
    requires e.Apply? && e.f == Arrow(params, Var(params[i])) && |e.args| == |ns|
    requires forall j :: 0 <= j < |ns| ==> e.args[j] == Lit(ns[j])
    ensures Eval(w, fuel + 1, e, env) == (Ok(Int(ns[i])), env)
  {
    var c := Eval(w, fuel + 1, e.f, env).0;
    LiteralArguments(w, fuel + 1, env, e, 0, ns);
    var vs := EvalArgs(w, fuel + 1, e, 0, env).0;
    ParameterIsArgument(w, fuel, params, c.v.captured, vs, i);
  }

  /** Calling an arrow function made in `env` gives what evaluating its body in the whole of
      `env`, with the parameters bound, would give. */
  lemma CapturePreservesMeaning(w: World, fuel: nat, params: seq<Name>, body: Expr, env: Env, args: seq<Value>)
    requires Covered(params, body) && |params| <= |args|
    ensures var f := Eval(w, fuel + 1, Arrow(params, body), env).0;
            f.Ok? && Invoke(w, fuel + 1, f.v, args) == Eval(w, fuel, body, Bind(env, params, args)).0
  {
    var captured := Capture(w, env, Uses(params, body));
    UsesAreCollected(params, body);
    forall x | x in Given(params, body)
      ensures Lookup(w, Bind(captured, params, args), x) == Lookup(w, Bind(env, params, args), x)
    {
      BindBinds(captured, env, params, args, x);
      BindBinds(env, captured, params, args, x);
    }
    EvalAgrees(w, fuel, body, Bind(captured, params, args), Bind(env, params, args), Given(params, body));
  }

  /** A body built only from nodes the collector looks into, without `skipA` compound assignments. */
  ghost predicate Walkable(e: Expr)
    decreases e
  {
    match e
    case AssignOp(_, _, _) => false
    case Unwalked(_) => false
    case Var(_) => true
    case Lit(_) => true
    case Bin(_, a, b) => Walkable(a) && Walkable(b)
    case Assign(_, r) => Walkable(r)
    case ConcatAssign(_, r) => Walkable(r)
    case AssignDim(_, k, r) => Walkable(k) && Walkable(r)
    case Index(a, k) => Walkable(a) && Walkable(k)
    case CallFn(_, args) => forall i :: 0 <= i < |args| ==> Walkable(args[i])
    case Apply(f, args) => Walkable(f) && forall i :: 0 <= i < |args| ==> Walkable(args[i])
    case Ternary(c, a, b) => Walkable(c) && Walkable(a) && Walkable(b)
    case Arrow(_, _) => true
  }

  /** Such bodies are always covered. */
  lemma {:induction false} WalkableIsCovered(e: Expr, names: set<Name>)
    requires Walkable(e) && Collected(e) <= names
    ensures ReadsWithin(e, names)
    decreases e
  {
    match e
    case Var(_) =>
    case Lit(_) =>
    case Bin(_, a, b) => WalkableIsCovered(a, names); WalkableIsCovered(b, names + Sets(a));
    case Assign(_, r) => WalkableIsCovered(r, names);
    case ConcatAssign(_, r) => WalkableIsCovered(r, names);
    case AssignDim(_, k, r) => WalkableIsCovered(k, names); WalkableIsCovered(r, names + Sets(k));
    case Index(a, k) => WalkableIsCovered(a, names); WalkableIsCovered(k, names + Sets(a));
    case CallFn(_, _) => WalkableArgs(e, 0, names);
    case Apply(f, _) => WalkableIsCovered(f, names); WalkableArgs(e, 0, names + Sets(f));
    case Ternary(c, a, b) =>
      WalkableIsCovered(c, names);
      WalkableIsCovered(a, names + Sets(c));
      WalkableIsCovered(b, names + Sets(c));
    case Arrow(_, _) =>
  }

  lemma {:induction false} WalkableArgs(e: Expr, i: nat, names: set<Name>)
    requires (e.CallFn? || e.Apply?) && i <= |e.args| && CollectedInArgs(e, i) <= names
    requires forall k :: 0 <= k < |e.args| ==> Walkable(e.args[k])
    ensures ArgsReadWithin(e, i, names)
    decreases e, |e.args| - i
  {
    if i < |e.args| {
      WalkableIsCovered(e.args[i], names);
      WalkableArgs(e, i + 1, names + Sets(e.args[i]));
    }
  }

  /** `fn() => ($t = m) + ($t += n)` collects nothing and is covered: `$t` is set before it is read. */
  lemma AssignedFirstIsCovered(op: nat, t: Name, m: int, n: int)
    ensures var body := Bin(op, Assign(t, Lit(m)), AssignOp(op, t, Lit(n)));
            Collected(body) == {} && Covered([], body)
  {
    var first, second := Assign(t, Lit(m)), AssignOp(op, t, Lit(n));
    assert Collected(first) == Collected(Lit(m)) && Collected(second) == Collected(Lit(n));
    assert Sets(first) == {t} + Sets(Lit(m));
    var names := Given([], Bin(op, first, second));
    assert ReadsWithin(Lit(n), names + Sets(first)) && ReadsWithin(second, names + Sets(first));
    assert ReadsWithin(Lit(m), names) && ReadsWithin(first, names);
  }

  // ----- where capture fails -----

  /** `fn() => $x op= n` never captures `$x`: it computes with null instead, so it gives the value
      the enclosing scope calls for if and only if the operator does not tell the two apart. */
  lemma CompoundAssignmentLosesVariable(w: World, fuel: nat, op: nat, x: Name, n: int, env: Env)
    requires x != "this"
    ensures var body := AssignOp(op, x, Lit(n));
            var f := Closure([], body, Capture(w, env, Uses([], body)));
            && Invoke(w, fuel + 1, f, []) == Ok(w.op(op, Null, Int(n)))
            && (Invoke(w, fuel + 1, f, []) == Eval(w, fuel, body, env).0
                <==> w.op(op, Null, Int(n)) == w.op(op, Lookup(w, env, x), Int(n)))
  {
    NothingCaptured(w, env, AssignOp(op, x, Lit(n)));
    assert Eval(w, fuel, Lit(n), map[]) == (Ok(Int(n)), map[]) && Eval(w, fuel, Lit(n), env) == (Ok(Int(n)), env);
  }

  /** `fn() => "$x"` sees null for the same reason: the collector does not look into the string. */
  lemma InterpolationLosesVariable(w: World, fuel: nat, x: Name, env: Env)
    requires x != "this"
    ensures var body := Unwalked(Var(x));
            var f := Closure([], body, Capture(w, env, Uses([], body)));
            && Invoke(w, fuel + 1, f, []) == Ok(Null)
            && (Invoke(w, fuel + 1, f, []) == Eval(w, fuel, body, env).0 <==> Lookup(w, env, x).Null?)
  {
    NothingCaptured(w, env, Unwalked(Var(x)));
    assert Eval(w, fuel, Var(x), map[]) == (Ok(Null), map[]);
  }

  lemma NothingCaptured(w: World, env: Env, body: Expr)
    requires Walk(body, []) == []
    ensures Capture(w, env, Uses([], body)) == map[] && Bind(map[], [], []) == map[]
  {
    assert Uses([], body) == [];
  }

  // ----- the collector as the source runs it -----

  class Collector {
    var seen: set<Name>
    var result: seq<Name>

    ghost predicate Valid()
      reads this
    {
      seen == Names(result) && NoRepeats(result)
    }

    constructor ()
      ensures Valid() && result == []
    {
      seen, result := {}, [];
    }

    method Note(x: Name)
      requires Valid()
      modifies this
      ensures Valid() && result == Add(old(result), x)
    {
      AddAdds(result, x);
      if x !in seen {
        seen := seen + {x};
        result := result + [x];
      }
    }

    method Visit(e: Expr)
      requires Valid()
      modifies this
      ensures Valid() && result == Walk(e, old(result))
      decreases e, 1
    {
      match e
      case Var(x) => Note(x);
      case Lit(_) =>
      case Bin(_, a, b) => Visit(a); Visit(b);
      case Assign(_, r) => Visit(r);
      case AssignOp(_, _, r) => Visit(r);
      case ConcatAssign(x, r) => Note(x); Visit(r);
      case AssignDim(x, k, r) => Note(x); Visit(k); Visit(r);
      case Index(a, k) => Visit(a); Visit(k);
      case CallFn(_, _) => VisitArgs(e);
      case Apply(f, _) => Visit(f); VisitArgs(e);
      case Ternary(c, a, b) => Visit(c); Visit(a); Visit(b);
      case Arrow(ps, body) =>
        var uses := CompiledUses(ps, body);
        for i := 0 to |uses|
          invariant Valid() && AddAll(old(result), uses) == AddAll(result, uses[i..])
        {
          Note(uses[i]);
        }
      case Unwalked(_) =>
    }

    method VisitArgs(e: Expr)
      requires Valid() && (e.CallFn? || e.Apply?)
      modifies this
      ensures Valid() && result == WalkArgs(e, 0, old(result))
      decreases e, 0
    {
      for i := 0 to |e.args|
        invariant Valid() && WalkArgs(e, 0, old(result)) == WalkArgs(e, i, result)
      {
        Visit(e.args[i]);
      }
    }
  }

  lemma {:induction false} ExcludingPrefix(names: seq<Name>, params: seq<Name>, i: nat)
    requires i < |names|
    ensures Excluding(names[..i + 1], params)
         == Excluding(names[..i], params) + (if names[i] in params || names[i] == "this" then [] else [names[i]])
    decreases i
  {
    if i == 0 {
      assert names[..1] == [names[0]] && names[..0] == [];
      assert Excluding(names[..1][1..], params) == [];
    } else {
      ExcludingPrefix(names[1..], params, i - 1);
      assert names[..i + 1][1..] == names[1..][..i] && names[..i][1..] == names[1..][..i - 1];
    }
  }

  /** compileArrowFunction, once the body is parsed. */
  method CompiledUses(params: seq<Name>, body: Expr) returns (uses: seq<Name>)
    ensures uses == Uses(params, body)
    decreases body, 2
  {
    var c := new Collector();
    c.Visit(body);
    uses := ExcludeParameters(params, c.result);
  }

  method ExcludeParameters(params: seq<Name>, names: seq<Name>) returns (uses: seq<Name>)
    ensures uses == Excluding(names, params)
  {
    uses := [];
    for i := 0 to |names|
      invariant uses == Excluding(names[..i], params)
    {
      ExcludingPrefix(names, params, i);
      if names[i] in params || names[i] == "this" {
        continue;
      }
      uses := uses + [names[i]];
    }
    assert names[..|names|] == names;
  }
}
