/** Classes with their constants, and what a constant means: the plain recursive evaluation of its
    expression, without a cache, marks or declarations (core/compiler/compile-classref.go). */
module ClassTables {
  import opened Options
  import opened ConstHints

  type Class = string
  type Id = nat

  /** How an expression names a class: `self`, `parent`, or by name. */
  datatype Scope = Self | Parent | Named(c: Class)

  datatype Expr =
    | Literal(v: Val)
    | Ref(scope: Scope, name: string)
    | Op(op: nat, a: Expr, b: Expr)
    | Cond(test: Expr, yes: Expr, no: Expr)

  datatype Error =
    | Undefined | NoClass | NoParent | NoScope | SelfReferencing | TypeMismatch | OperatorError(code: nat)

  datatype Outcome = Ok(v: Val) | Err(e: Error)

  datatype OpResult = OpOk(v: Val) | OpErr(code: nat)

  /** A constant; `of` is the parent's entry that a child's copy was made from. */
  datatype Entry = Entry(expr: Expr, hint: Option<Hint>, of: Option<Id>)

  /** A class: what it extends and implements, and the constants its declaration goes through. */
  datatype Decl = Decl(parent: Option<Class>, interfaces: seq<Class>, order: seq<string>)

  /** The classes a program knows. `slots` says which entry a class holds under a name, and `via`
      from which class it has it, if not from itself: a child has a copy of what its parent
      declared, and shares all other entries with the class it has them from. */
  datatype Table = Table(
    classes: map<Class, Decl>,
    slots: map<(Class, string), Id>,
    via: map<(Class, string), Class>,
    entries: map<Id, Entry>,
    apply: (nat, Val, Val) -> OpResult,
    truthy: Val -> bool)

  function ParentOf(t: Table, c: Class): Option<Class> {
    if c in t.classes then t.classes[c].parent else None
  }

  /** What the declaration of a class looks up, in order. */
  function Needs(t: Table, c: Class): seq<Class> {
    if c !in t.classes then []
    else (if t.classes[c].parent.Some? then [t.classes[c].parent.value] else []) + t.classes[c].interfaces
  }

  function Order(t: Table, c: Class): seq<string> {
    if c in t.classes then t.classes[c].order else []
  }

  function Via(t: Table, k: (Class, string)): Class {
    if k in t.via then t.via[k] else k.0
  }

  /** A parent is looked up before the interfaces, and these in their order. */
  lemma NeedsInOrder(t: Table, c: Class, i: nat)
    requires c in t.classes && i < |t.classes[c].interfaces|
    ensures var d := t.classes[c];
            && (d.parent.Some? ==> Needs(t, c)[0] == d.parent.value && Needs(t, c)[i + 1] == d.interfaces[i])
            && (d.parent.None? ==> Needs(t, c)[i] == d.interfaces[i])
            && |Needs(t, c)| == |d.interfaces| + if d.parent.Some? then 1 else 0
  {
  }

  /** The holder that `k` has its entry from. */
  function Origin(t: Table, k: (Class, string)): (Class, string) {
    (Via(t, k), k.1)
  }

  predicate Holds(t: Table, k: (Class, string)) {
    k in t.slots && t.slots[k] in t.entries && k.0 in t.classes
  }

  function EntryAt(t: Table, k: (Class, string)): Entry
    requires Holds(t, k)
  {
    t.entries[t.slots[k]]
  }

  ghost predicate Valid(t: Table) {
    && (forall k :: k in t.slots ==> t.slots[k] in t.entries)
    && (forall id :: id in t.entries && t.entries[id].hint.Some? ==> WellFormed(t.entries[id].hint.value))
    && (forall k :: Holds(t, k) && Via(t, k) != k.0 ==> Inherits(t, k))
  }

  ghost predicate Inherits(t: Table, k: (Class, string))
    requires Holds(t, k)
  {
    var l := Origin(t, k);
    && Via(t, k) in Needs(t, k.0)
    && l in t.slots && t.slots[l] in t.entries
    && EntryAt(t, k).expr == t.entries[t.slots[l]].expr
    && EntryAt(t, k).hint == t.entries[t.slots[l]].hint
    && (t.slots[k] == t.slots[l] || EntryAt(t, k).of == Some(t.slots[l]))
  }

  function ClassOf(t: Table, cur: Class, s: Scope): Option<Class> {
    match s
    case Self => Some(cur)
    case Parent => ParentOf(t, cur)
    case Named(c) => Some(c)
  }

  function Typed(v: Val, hint: Option<Hint>): Outcome {
    match hint
    case None => Ok(v)
    case Some(h) => match Coerce(v, h) case None => Err(TypeMismatch) case Some(w) => Ok(w)
  }

  function Applied(t: Table, op: nat, a: Val, b: Val): Outcome {
    match t.apply(op, a, b)
    case OpOk(v) => Ok(v)
    case OpErr(code) => Err(OperatorError(code))
  }

  // ----- the plain meaning -----

  datatype Plain = OutOfFuel | Done(o: Outcome)

  function PlainConst(t: Table, fuel: nat, c: Class, n: string): Plain
    decreases fuel, 0
  {
    if c !in t.classes then Done(Err(NoClass))
    else if (c, n) !in t.slots || t.slots[(c, n)] !in t.entries then Done(Err(Undefined))
    else if fuel == 0 then OutOfFuel
    else
      var entry := t.entries[t.slots[(c, n)]];
      match PlainExpr(t, fuel - 1, c, entry.expr)
      case Done(Ok(v)) => Done(Typed(v, entry.hint))
      case other => other
  }

  function PlainExpr(t: Table, fuel: nat, cur: Class, e: Expr): Plain
    decreases fuel, 1, e
  {
    match e
    case Literal(v) => Done(Ok(v))
    case Ref(s, n) =>
      (match ClassOf(t, cur, s)
       case None => Done(Err(NoParent))
       case Some(c) => PlainConst(t, fuel, c, n))
    case Op(op, a, b) =>
      (match PlainExpr(t, fuel, cur, a)
       case Done(Ok(x)) =>
         (match PlainExpr(t, fuel, cur, b)
          case Done(Ok(y)) => Done(Applied(t, op, x, y))
          case other => other)
       case other => other)
    case Cond(c, yes, no) =>
      (match PlainExpr(t, fuel, cur, c)
       case Done(Ok(x)) => PlainExpr(t, fuel, cur, if t.truthy(x) then yes else no)
       case other => other)
  }

  /** More fuel never changes an answer. */
  lemma {:induction false} MoreFuelConst(t: Table, f: nat, g: nat, c: Class, n: string)
    requires f <= g && PlainConst(t, f, c, n).Done?
    ensures PlainConst(t, g, c, n) == PlainConst(t, f, c, n)
    decreases f, 0
  {
    if Holds(t, (c, n)) {
      MoreFuel(t, f - 1, g - 1, c, t.entries[t.slots[(c, n)]].expr);
    }
  }

  lemma {:induction false} MoreFuel(t: Table, f: nat, g: nat, cur: Class, e: Expr)
    requires f <= g && PlainExpr(t, f, cur, e).Done?
    ensures PlainExpr(t, g, cur, e) == PlainExpr(t, f, cur, e)
    decreases f, 1, e
  {
    match e
    case Literal(_) =>
    case Ref(s, n) =>
      if ClassOf(t, cur, s).Some? {
        MoreFuelConst(t, f, g, ClassOf(t, cur, s).value, n);
      }
    case Op(_, a, b) =>
      MoreFuel(t, f, g, cur, a);
      if PlainExpr(t, f, cur, a).o.Ok? {
        MoreFuel(t, f, g, cur, b);
      }
    case Cond(c, yes, no) =>
      MoreFuel(t, f, g, cur, c);
      if PlainExpr(t, f, cur, c).o.Ok? {
        MoreFuel(t, f, g, cur, if t.truthy(PlainExpr(t, f, cur, c).o.v) then yes else no);
      }
  }

  lemma SameAnswer(t: Table, f: nat, g: nat, cur: Class, e: Expr)
    requires PlainExpr(t, f, cur, e).Done? && PlainExpr(t, g, cur, e).Done?
    ensures PlainExpr(t, f, cur, e) == PlainExpr(t, g, cur, e)
  {
    if f <= g { MoreFuel(t, f, g, cur, e); } else { MoreFuel(t, g, f, cur, e); }
  }

  ghost predicate Means(t: Table, c: Class, n: string, o: Outcome) {
    exists f: nat :: PlainConst(t, f, c, n) == Done(o)
  }

  ghost predicate Diverges(t: Table, c: Class, n: string) {
    forall f: nat :: PlainConst(t, f, c, n).OutOfFuel?
  }

  ghost predicate ExprMeans(t: Table, cur: Class, e: Expr, o: Outcome) {
    exists f: nat :: PlainExpr(t, f, cur, e) == Done(o)
  }

  lemma ConstMeans(t: Table, k: (Class, string), o: Outcome)
    requires Holds(t, k) && ExprMeans(t, k.0, EntryAt(t, k).expr, o)
    ensures Means(t, k.0, k.1, if o.Ok? then Typed(o.v, EntryAt(t, k).hint) else o)
  {
    var f: nat :| PlainExpr(t, f, k.0, EntryAt(t, k).expr) == Done(o);
    assert k == (k.0, k.1);
    assert PlainConst(t, f + 1, k.0, k.1).Done?;
  }

  lemma OpMeans(t: Table, cur: Class, e: Expr, x: Outcome, y: Outcome)
    requires e.Op? && x.Ok? && ExprMeans(t, cur, e.a, x) && ExprMeans(t, cur, e.b, y)
    ensures ExprMeans(t, cur, e, if y.Err? then y else Applied(t, e.op, x.v, y.v))
  {
    var f: nat :| PlainExpr(t, f, cur, e.a) == Done(x);
    var g: nat :| PlainExpr(t, g, cur, e.b) == Done(y);
    var m := if f < g then g else f;
    MoreFuel(t, f, m, cur, e.a);
    MoreFuel(t, g, m, cur, e.b);
    assert PlainExpr(t, m, cur, e).Done?;
  }

  lemma CondMeans(t: Table, cur: Class, e: Expr, x: Outcome, y: Outcome)
    requires e.Cond? && x.Ok? && ExprMeans(t, cur, e.test, x)
    requires ExprMeans(t, cur, if t.truthy(x.v) then e.yes else e.no, y)
    ensures ExprMeans(t, cur, e, y)
  {
    var branch := if t.truthy(x.v) then e.yes else e.no;
    var f: nat :| PlainExpr(t, f, cur, e.test) == Done(x);
    var g: nat :| PlainExpr(t, g, cur, branch) == Done(y);
    var m := if f < g then g else f;
    MoreFuel(t, f, m, cur, e.test);
    MoreFuel(t, g, m, cur, branch);
    assert PlainExpr(t, m, cur, e).Done?;
  }

  /** An expression whose first operand fails fails with it. */
  lemma FirstFails(t: Table, cur: Class, e: Expr, x: Outcome)
    requires e.Op? || e.Cond?
    requires x.Err? && ExprMeans(t, cur, if e.Op? then e.a else e.test, x)
    ensures ExprMeans(t, cur, e, x)
  {
    var f: nat :| PlainExpr(t, f, cur, if e.Op? then e.a else e.test) == Done(x);
    assert PlainExpr(t, f, cur, e) == Done(x);
  }

  lemma RefMeans(t: Table, cur: Class, e: Expr, c: Class, o: Outcome)
    requires e.Ref? && ClassOf(t, cur, e.scope) == Some(c) && Means(t, c, e.name, o)
    ensures ExprMeans(t, cur, e, o)
  {
    var f: nat :| PlainConst(t, f, c, e.name) == Done(o);
    assert PlainExpr(t, f, cur, e) == Done(o);
  }

  // ----- entries that several classes hold -----

  /** What a reference reads from inside a class: an entry, or an error. */
  datatype Lead = NoParentClass | NoSuchClass | NoSuchConstant | LeadsTo(id: Id)

  function LeadOf(t: Table, cur: Class, s: Scope, n: string): Lead {
    match ClassOf(t, cur, s)
    case None => NoParentClass
    case Some(c) =>
      if c !in t.classes then NoSuchClass
      else if (c, n) in t.slots && t.slots[(c, n)] in t.entries then LeadsTo(t.slots[(c, n)])
      else NoSuchConstant
  }

  /** Every reference of the expression reads the same entry from inside either class. */
  predicate SameLeads(t: Table, c: Class, d: Class, e: Expr) {
    match e
    case Literal(_) => true
    case Ref(s, n) => LeadOf(t, c, s, n) == LeadOf(t, d, s, n)
    case Op(_, a, b) => SameLeads(t, c, d, a) && SameLeads(t, c, d, b)
    case Cond(x, a, b) => SameLeads(t, c, d, x) && SameLeads(t, c, d, a) && SameLeads(t, c, d, b)
  }

  /** Classes that hold one entry, or a copy, agree on what its references read; `self` and `parent`
      may occur in it where nothing they lead to has been overridden. */
  ghost predicate WellScoped(t: Table) {
    && (forall k, l :: Holds(t, k) && Holds(t, l) && t.slots[k] == t.slots[l] ==>
          SameLeads(t, k.0, l.0, EntryAt(t, k).expr))
    && (forall k :: Holds(t, k) && Via(t, k) in t.classes ==> SameLeads(t, k.0, Via(t, k), EntryAt(t, k).expr))
  }

  lemma {:induction false} SharedExprMeaning(t: Table, f: nat, c: Class, d: Class, e: Expr)
    requires Valid(t) && WellScoped(t) && SameLeads(t, c, d, e)
    ensures PlainExpr(t, f, c, e) == PlainExpr(t, f, d, e)
    decreases f, 1, e
  {
    match e
    case Literal(_) =>
    case Ref(s, n) =>
      if LeadOf(t, c, s, n).LeadsTo? {
        SharedMeaning(t, f, (ClassOf(t, c, s).value, n), (ClassOf(t, d, s).value, n));
      }
    case Op(_, a, b) => SharedExprMeaning(t, f, c, d, a); SharedExprMeaning(t, f, c, d, b);
    case Cond(x, a, b) =>
      SharedExprMeaning(t, f, c, d, x);
      SharedExprMeaning(t, f, c, d, a);
      SharedExprMeaning(t, f, c, d, b);
  }

  /** Sharers of an entry give it one meaning. */
  lemma {:induction false} SharedMeaning(t: Table, f: nat, k: (Class, string), l: (Class, string))
    requires Valid(t) && WellScoped(t) && Holds(t, k) && Holds(t, l) && t.slots[k] == t.slots[l]
    ensures PlainConst(t, f, k.0, k.1) == PlainConst(t, f, l.0, l.1)
    decreases f, 0
  {
    assert k == (k.0, k.1) && l == (l.0, l.1);
    if f > 0 {
      SharedExprMeaning(t, f - 1, k.0, l.0, EntryAt(t, k).expr);
    }
  }

  /** A holder means what the class means that it has the entry from. */
  lemma OriginMeaning(t: Table, f: nat, k: (Class, string))
    requires Valid(t) && WellScoped(t) && Holds(t, k) && Via(t, k) in t.classes
    ensures Holds(t, Origin(t, k))
    ensures PlainExpr(t, f, k.0, EntryAt(t, k).expr) == PlainExpr(t, f, Via(t, k), EntryAt(t, k).expr)
    ensures EntryAt(t, k).expr == EntryAt(t, Origin(t, k)).expr && EntryAt(t, k).hint == EntryAt(t, Origin(t, k)).hint
  {
    SharedExprMeaning(t, f, k.0, Via(t, k), EntryAt(t, k).expr);
    if Via(t, k) == k.0 {
      assert Origin(t, k) == k;
    }
  }

  // ----- more classes -----

  /** The table while only the classes in `known` are known. */
  function Restrict(t: Table, known: set<Class>): Table {
    t.(classes := map c | c in t.classes && c in known :: t.classes[c])
  }

  /** A value found among fewer classes is the value among more. */
  lemma {:induction false} ValueIsKept(t: Table, small: set<Class>, large: set<Class>, f: nat, cur: Class, e: Expr)
    requires small <= large && PlainExpr(Restrict(t, small), f, cur, e).Done?
    requires PlainExpr(Restrict(t, small), f, cur, e).o.Ok?
    ensures PlainExpr(Restrict(t, large), f, cur, e) == PlainExpr(Restrict(t, small), f, cur, e)
    decreases f, e
  {
    match e
    case Literal(_) =>
    case Ref(s, n) =>
      var k := (ClassOf(Restrict(t, small), cur, s).value, n);
      ValueIsKept(t, small, large, f - 1, k.0, t.entries[t.slots[k]].expr);
    case Op(_, a, b) => ValueIsKept(t, small, large, f, cur, a); ValueIsKept(t, small, large, f, cur, b);
    case Cond(x, a, b) =>
      ValueIsKept(t, small, large, f, cur, x);
      ValueIsKept(t, small, large, f, cur, if t.truthy(PlainExpr(Restrict(t, small), f, cur, x).o.v) then a else b);
  }
}
