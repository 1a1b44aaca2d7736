/** Reading class constants: EvalClassStaticObjRef in core/compiler/compile-classref.go, GetClass in
    core/phpctx/global.go and ZClass.Compile in core/phpobj/zclass.go. Constants are resolved when
    they are read, with in-progress marks and a cache. A class is declared when it is first looked
    up, in the middle of whatever is running, and its declaration resolves what it can at once. */
module ClassConstants {
  import opened Options
  import opened ConstHints
  import opened ClassTables

  /** Resolved values, the `Resolving` marks, the compiling class, the class of the running
      function; the classes that are declared and those that wait for their first mention; which
      class has been linked to which parent or interface, and the constants in its table by now. */
  datatype State = State(
    memo: map<Id, Val>,
    resolving: set<Id>,
    compiling: Option<Class>,
    caller: Option<Class>,
    declared: set<Class>,
    pending: set<Class>,
    links: set<(Class, Class)>,
    visible: set<(Class, string)>)

  datatype Found = Found(c: Class) | NotFound(e: Error)

  /** What no step ever changes back. */
  predicate Later(s: State, r: State) {
    r.resolving == s.resolving && r.caller == s.caller && r.pending <= s.pending
  }

  /** The entry read for a constant: its own, or while it is not there yet the one of the class it
      will come from. */
  function Find(t: Table, s: State, k: (Class, string)): Option<Id> {
    if k !in t.slots then None
    else if k in s.visible then Some(t.slots[k])
    else if (k.0, Via(t, k)) in s.links && Origin(t, k) in s.visible && Origin(t, k) in t.slots
    then Some(t.slots[Origin(t, k)])
    else None
  }

  function EvalConst(t: Table, c: Class, n: string, s: State): (r: (Outcome, State))
    ensures Later(s, r.1) && r.1.compiling == s.compiling
    ensures r.0 == Err(NoScope) ==> r.1.pending < s.pending
    decreases s.pending, t.entries.Keys - s.resolving, 1
  {
    var found := Find(t, s, (c, n));
    if found.None? || found.value !in t.entries then (Err(Undefined), s)
    else
      var id := found.value;
      var entry := t.entries[id];
      if id in s.memo then (Typed(s.memo[id], entry.hint), s)
      else if id in s.resolving then (Err(SelfReferencing), s)
      else
        var (o, s2) := EvalExpr(t, entry.expr, s.(resolving := s.resolving + {id}, compiling := Some(c)));
        Finish(id, entry, o, s2.(resolving := s.resolving, compiling := s.compiling))
  }

  /** The marks are off again; a value is coerced and stored. */
  function Finish(id: Id, entry: Entry, o: Outcome, s: State): (r: (Outcome, State))
    ensures r.0 == Err(NoScope) ==> o == Err(NoScope)
  {
    match o
    case Err(_) => (o, s)
    case Ok(v) =>
      match Typed(v, entry.hint)
      case Err(e) => (Err(e), s)
      case Ok(w) => (Ok(w), s.(memo := s.memo[id := w]))
  }

  function EvalExpr(t: Table, e: Expr, s: State): (r: (Outcome, State))
    ensures Later(s, r.1) && (r.1.compiling == s.compiling || (r.1.compiling.None? && r.1.pending < s.pending))
    ensures r.0 == Err(NoScope) && s.compiling.Some? ==> r.1.pending < s.pending
    decreases s.pending, t.entries.Keys - s.resolving, 2, e
  {
    match e
    case Literal(v) => (Ok(v), s)
    case Ref(scope, n) =>
      var (f, s1) := LookUp(t, scope, s);
      if f.NotFound? then (Err(f.e), s1) else EvalConst(t, f.c, n, s1)
    case Op(op, a, b) =>
      var (x, s1) := EvalExpr(t, a, s);
      if x.Err? then (x, s1)
      else
        var (y, s2) := EvalExpr(t, b, s1);
        (if y.Err? then y else Applied(t, op, x.v, y.v), s2)
    case Cond(c, yes, no) =>
      var (x, s1) := EvalExpr(t, c, s);
      if x.Err? then (x, s1)
      else if t.truthy(x.v) then EvalExpr(t, yes, s1) else EvalExpr(t, no, s1)
  }

  /** The class that `self` means: the compiling one, else that of the running function. */
  function Active(s: State): Option<Class> {
    if s.compiling.Some? then s.compiling else s.caller
  }

  /** GetClass */
  function LookUp(t: Table, scope: Scope, s: State): (r: (Found, State))
    ensures Later(s, r.1) && (r.1.compiling == s.compiling || (r.1.compiling.None? && r.1.pending < s.pending))
    ensures r.0 == NotFound(NoScope) && (s.compiling.Some? || scope.Named?) ==> r.1.pending < s.pending
    decreases s.pending, t.entries.Keys - s.resolving, 1
  {
    match scope
    case Self => (if Active(s).None? then NotFound(NoScope) else Found(Active(s).value), s)
    case Parent =>
      if Active(s).None? then (NotFound(NoScope), s)
      else
        var p := ParentOf(t, Active(s).value);
        (if p.Some? && (Active(s).value, p.value) in s.links then Found(p.value) else NotFound(NoParent), s)
    case Named(c) =>
      if c in s.declared then (Found(c), s)
      else if c !in s.pending then (NotFound(NoClass), s)
      else
        var (e, s1) := Declare(t, c, s);
        (if e.Some? then NotFound(e.value) else Found(c), s1)
  }

  /** The class is known under its name, with its own constants. */
  function Register(t: Table, c: Class, s: State): (r: State)
    requires c in s.pending
    ensures Later(s, r) && r.pending < s.pending
  {
    s.(declared := s.declared + {c}, pending := s.pending - {c}, compiling := Some(c),
       visible := s.visible + set k | k in t.slots && k.0 == c && Via(t, k) == c)
  }

  /** RegisterClass and Compile: look up what the class extends and implements, then try to resolve
      its constants. The compiling class is none afterwards, whatever it was. */
  function Declare(t: Table, c: Class, s: State): (r: (Option<Error>, State))
    requires c in s.pending
    ensures Later(s, r.1) && r.1.pending < s.pending && r.1.compiling.None?
    decreases s.pending, t.entries.Keys - s.resolving, 0
  {
    var (e, s2) := LinkAll(t, c, Needs(t, c), Register(t, c, s));
    if e.Some? then (e, s2.(declared := s2.declared - {c}, compiling := None))
    else (None, Pass(t, c, Order(t, c), s2).(compiling := None))
  }

  function LinkAll(t: Table, c: Class, ds: seq<Class>, s: State): (r: (Option<Error>, State))
    ensures Later(s, r.1)
    decreases s.pending, t.entries.Keys - s.resolving, 3, |ds|
  {
    if ds == [] then (None, s)
    else
      var (f, s1) := LookUp(t, Named(ds[0]), s);
      if f.NotFound? then (Some(f.e), s1) else LinkAll(t, c, ds[1..], Link(t, c, ds[0], s1))
  }

  /** The constants that `c` has from `d`, as far as `d` has them by now. */
  function Taken(t: Table, c: Class, d: Class, s: State): set<(Class, string)> {
    set k | k in t.slots && k.0 == c && Via(t, k) == d && (d, k.1) in s.visible && (d, k.1) in t.slots
  }

  /** The entries among them that are copies. */
  function Copies(t: Table, c: Class, d: Class, s: State): set<Id> {
    set k | k in Taken(t, c, d, s) && t.slots[k] != t.slots[(d, k.1)] :: t.slots[k]
  }

  /** A copy starts with the value that its original has by now. */
  function Copied(t: Table, ids: set<Id>, memo: map<Id, Val>): map<Id, Val> {
    map id | id in ids && id in t.entries && id !in memo && t.entries[id].of.Some? && t.entries[id].of.value in memo ::
      memo[t.entries[id].of.value]
  }

  function Link(t: Table, c: Class, d: Class, s: State): (r: State)
    ensures Later(s, r) && r.compiling == s.compiling && r.pending == s.pending
  {
    s.(links := s.links + {(c, d)}, visible := s.visible + Taken(t, c, d, s),
       memo := s.memo + Copied(t, Copies(t, c, d, s), s.memo))
  }

  /** The pass over the constants of a class: what resolves is stored as it is, what fails is left
      for later reads. */
  function Pass(t: Table, c: Class, names: seq<string>, s: State): (r: State)
    ensures Later(s, r)
    decreases s.pending, t.entries.Keys - s.resolving, 4, |names|
  {
    if names == [] then s
    else
      var k := (c, names[0]);
      if k !in s.visible || k !in t.slots || t.slots[k] in s.memo || t.slots[k] !in t.entries
      then Pass(t, c, names[1..], s)
      else
        var (o, s1) := EvalExpr(t, t.entries[t.slots[k]].expr, s);
        Pass(t, c, names[1..], Settled(t.slots[k], o, s1))
  }

  function Settled(id: Id, o: Outcome, s: State): State {
    if o.Ok? then s.(memo := s.memo[id := o.v]) else s
  }

  /** Code in the running function reads `C::N`. */
  function Read(t: Table, c: Class, n: string, s: State): (Outcome, State) {
    EvalExpr(t, Ref(Named(c), n), s)
  }

  lemma UnknownClass(t: Table, c: Class, n: string, s: State)
    requires c !in s.declared && c !in s.pending
    ensures LookUp(t, Named(c), s) == (NotFound(NoClass), s) && Read(t, c, n, s) == (Err(NoClass), s)
  {
  }

  lemma ReadDeclared(t: Table, c: Class, n: string, s: State)
    requires c in s.declared
    ensures Read(t, c, n, s) == EvalConst(t, c, n, s)
  {
    assert LookUp(t, Named(c), s) == (Found(c), s);
  }

  /** Reading an open constant evaluates its expression. */
  lemma Resolving(t: Table, k: (Class, string), s: State, s1: State)
    requires Holds(t, k) && k in s.visible && t.slots[k] !in s.memo && t.slots[k] !in s.resolving
    requires s1 == s.(resolving := s.resolving + {t.slots[k]}, compiling := Some(k.0))
    ensures var (o, r) := EvalExpr(t, EntryAt(t, k).expr, s1);
            EvalConst(t, k.0, k.1, s) ==
              Finish(t.slots[k], EntryAt(t, k), o, r.(resolving := s.resolving, compiling := s.compiling))
  {
    assert k == (k.0, k.1);
  }
}
