/** Reading and declaring as the source runs them: marks, values, the compiling class and the tables
    of the classes are updated in place. */
module ClassResolver {
  import opened Options
  import opened ConstHints
  import opened ClassTables
  import opened ClassConstants

  class Resolver {
    const t: Table
    var values: map<Id, Val>
    var resolving: set<Id>
    var compiling: Option<Class>
    var caller: Option<Class>
    var declared: set<Class>
    var pending: set<Class>
    var links: set<(Class, Class)>
    var visible: set<(Class, string)>

    constructor (t: Table)
      ensures this.t == t && Snapshot() == State(map[], {}, None, None, {}, t.classes.Keys, {}, {})
    {
      this.t := t;
      values, resolving, compiling, caller := map[], {}, None, None;
      declared, pending, links, visible := {}, t.classes.Keys, {}, {};
    }

    function Snapshot(): State
      reads this
    {
      State(values, resolving, compiling, caller, declared, pending, links, visible)
    }

    method Fetch(c: Class, n: string) returns (o: Outcome)
      modifies this
      ensures (o, Snapshot()) == EvalConst(t, c, n, old(Snapshot()))
      decreases pending, t.entries.Keys - resolving, 1
    {
      var found := Find(t, Snapshot(), (c, n));
      if found.None? || found.value !in t.entries {
        return Err(Undefined);
      }
      var id := found.value;
      var entry := t.entries[id];
      if id in values {
        return Typed(values[id], entry.hint);
      }
      if id in resolving {
        return Err(SelfReferencing);
      }
      var prevCompiling, prevResolving := compiling, resolving;
      resolving := resolving + {id};
      compiling := Some(c);
      o := Run(entry.expr);
      compiling := prevCompiling;
      resolving := resolving - {id};
      assert resolving == prevResolving;
      if o.Ok? {
        o := Typed(o.v, entry.hint);
        if o.Ok? {
          values := values[id := o.v];
        }
      }
    }

    method Run(e: Expr) returns (o: Outcome)
      modifies this
      ensures (o, Snapshot()) == EvalExpr(t, e, old(Snapshot()))
      decreases pending, t.entries.Keys - resolving, 2, e
    {
      match e
      case Literal(v) => o := Ok(v);
      case Ref(scope, n) =>
        var f := GetClass(scope);
        if f.NotFound? {
          return Err(f.e);
        }
        o := Fetch(f.c, n);
      case Op(op, a, b) =>
        o := Run(a);
        if o.Err? {
          return;
        }
        var y := Run(b);
        o := if y.Err? then y else Applied(t, op, o.v, y.v);
      case Cond(test, yes, no) =>
        o := Run(test);
        if o.Err? {
          return;
        }
        if t.truthy(o.v) {
          o := Run(yes);
        } else {
          o := Run(no);
        }
    }

    method GetClass(scope: Scope) returns (f: Found)
      modifies this
      ensures (f, Snapshot()) == LookUp(t, scope, old(Snapshot()))
      decreases pending, t.entries.Keys - resolving, 1
    {
      var active := if compiling.Some? then compiling else caller;
      match scope
      case Self =>
        return if active.None? then NotFound(NoScope) else Found(active.value);
      case Parent =>
        if active.None? {
          return NotFound(NoScope);
        }
        var p := ParentOf(t, active.value);
        return if p.Some? && (active.value, p.value) in links then Found(p.value) else NotFound(NoParent);
      case Named(c) =>
        if c in declared {
          return Found(c);
        }
        if c !in pending {
          return NotFound(NoClass);
        }
        var e := Compile(c);
        return if e.Some? then NotFound(e.value) else Found(c);
    }

    method Compile(c: Class) returns (e: Option<Error>)
      requires c in pending
      modifies this
      ensures (e, Snapshot()) == Declare(t, c, old(Snapshot()))
      decreases pending, t.entries.Keys - resolving, 0
    {
      ghost var s := Snapshot();
      declared, pending := declared + {c}, pending - {c};
      compiling := Some(c);
      visible := visible + set k | k in t.slots && k.0 == c && Via(t, k) == c;
      assert Snapshot() == Register(t, c, s);
      e := LinkNeeds(c);
      if e.Some? {
        declared := declared - {c};
      } else {
        GoThrough(c);
      }
      compiling := None;
    }

    /** Looks up what the class extends and implements, and links it to each. */
    method LinkNeeds(c: Class) returns (e: Option<Error>)
      modifies this
      ensures (e, Snapshot()) == LinkAll(t, c, Needs(t, c), old(Snapshot()))
      decreases pending, t.entries.Keys - resolving, 3
    {
      ghost var s := Snapshot();
      var ds := Needs(t, c);
      for i := 0 to |ds|
        invariant Later(s, Snapshot()) && LinkAll(t, c, ds, s) == LinkAll(t, c, ds[i..], Snapshot())
      {
        ghost var before := Snapshot();
        LinkStep(t, c, ds, i, before);
        var f := GetClass(Named(ds[i]));
        if f.NotFound? {
          return Some(f.e);
        }
        Take(c, ds[i]);
      }
      assert ds[|ds|..] == [];
      return None;
    }

    /** What `c` has from `d`. */
    method Take(c: Class, d: Class)
      modifies this
      ensures Snapshot() == Link(t, c, d, old(Snapshot()))
    {
      var taken, copied := Taken(t, c, d, Snapshot()), Copied(t, Copies(t, c, d, Snapshot()), values);
      links, visible, values := links + {(c, d)}, visible + taken, values + copied;
    }

    /** The pass over the constants of a class. */
    method GoThrough(c: Class)
      modifies this
      ensures Snapshot() == Pass(t, c, Order(t, c), old(Snapshot()))
      decreases pending, t.entries.Keys - resolving, 4
    {
      ghost var s := Snapshot();
      var names := Order(t, c);
      for i := 0 to |names|
        invariant Later(s, Snapshot()) && Pass(t, c, names, s) == Pass(t, c, names[i..], Snapshot())
      {
        var k := (c, names[i]);
        PassesStep(t, c, names, i, Snapshot());
        if k in visible && k in t.slots && t.slots[k] !in values && t.slots[k] in t.entries {
          var o := Run(t.entries[t.slots[k]].expr);
          if o.Ok? {
            values := values[t.slots[k] := o.v];
          }
        }
      }
      assert names[|names|..] == [];
    }
  }

  lemma LinkStep(t: Table, c: Class, ds: seq<Class>, i: nat, s: State)
    requires i < |ds|
    ensures var (f, s1) := LookUp(t, Named(ds[i]), s);
            LinkAll(t, c, ds[i..], s) ==
              if f.NotFound? then (Some(f.e), s1) else LinkAll(t, c, ds[i + 1..], Link(t, c, ds[i], s1))
  {
    assert ds[i..][0] == ds[i] && ds[i..][1..] == ds[i + 1..];
  }

  lemma PassesStep(t: Table, c: Class, names: seq<string>, i: nat, s: State)
    requires i < |names|
    ensures var k := (c, names[i]);
            Pass(t, c, names[i..], s) ==
              if k !in s.visible || k !in t.slots || t.slots[k] in s.memo || t.slots[k] !in t.entries
              then Pass(t, c, names[i + 1..], s)
              else
                var (o, s1) := EvalExpr(t, t.entries[t.slots[k]].expr, s);
                Pass(t, c, names[i + 1..], Settled(t.slots[k], o, s1))
  {
    assert names[i..][0] == names[i] && names[i..][1..] == names[i + 1..];
  }
}
