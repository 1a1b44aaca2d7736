/** The two checks on calling a protected method through a callable: the one for "Class::method"
    strings and the one for arrays (spawnCallableInternal in core/callable.go). */
module ProtectedMethods {
  import opened Options

  datatype Visibility = Public | Protected | Private

  datatype Class = Class(parent: Option<nat>, methods: map<string, Visibility>)

  /** Classes in the order of their declaration: a parent comes before its children. */
  type Classes = seq<Class>

  ghost predicate Forest(cs: Classes) {
    forall c :: 0 <= c < |cs| && cs[c].parent.Some? ==> cs[c].parent.value < c
  }

  predicate InstanceOf(cs: Classes, a: nat, b: nat)
    requires Forest(cs) && a < |cs|
    decreases a
  {
    a == b || (cs[a].parent.Some? && InstanceOf(cs, cs[a].parent.value, b))
  }

  /** The nearest declaration of a method, from a class upwards. */
  function GetMethod(cs: Classes, c: nat, name: string): Option<Visibility>
    requires Forest(cs) && c < |cs|
    decreases c
  {
    if name in cs[c].methods then Some(cs[c].methods[name])
    else if cs[c].parent.Some? then GetMethod(cs, cs[c].parent.value, name) else None
  }

  /** The parent also offers the method as protected. */
  predicate Climbs(cs: Classes, c: nat, name: string)
    requires Forest(cs) && c < |cs|
  {
    cs[c].parent.Some? && GetMethod(cs, cs[c].parent.value, name) == Some(Protected)
  }

  function Root(cs: Classes, c: nat, name: string): (r: nat)
    requires Forest(cs) && c < |cs|
    ensures r < |cs|
    decreases c
  {
    if Climbs(cs, c, name) then Root(cs, cs[c].parent.value, name) else c
  }

  // ----- ancestry -----

  lemma {:induction false} InstanceOfTransitive(cs: Classes, a: nat, b: nat, c: nat)
    requires Forest(cs) && a < |cs| && b < |cs| && InstanceOf(cs, a, b) && InstanceOf(cs, b, c)
    ensures InstanceOf(cs, a, c)
    decreases a
  {
    if a != b {
      InstanceOfTransitive(cs, cs[a].parent.value, b, c);
    }
  }

  /** Two ancestors of one class are related: inheritance is single. */
  lemma {:induction false} AncestorsAreRelated(cs: Classes, a: nat, b: nat, c: nat)
    requires Forest(cs) && a < |cs| && b < |cs| && c < |cs| && InstanceOf(cs, a, b) && InstanceOf(cs, a, c)
    ensures InstanceOf(cs, b, c) || InstanceOf(cs, c, b)
    decreases a
  {
    if a != b && a != c {
      AncestorsAreRelated(cs, cs[a].parent.value, b, c);
    }
  }

  /** A class offers the method of the nearest of its ancestors that declares it. */
  lemma {:induction false} MethodIsNearest(cs: Classes, c: nat, name: string, a: nat)
    requires Forest(cs) && c < |cs| && a < |cs| && InstanceOf(cs, c, a) && name in cs[a].methods
    requires forall b :: 0 <= b < |cs| && InstanceOf(cs, c, b) && name in cs[b].methods ==> InstanceOf(cs, a, b)
    ensures GetMethod(cs, c, name) == Some(cs[a].methods[name])
    decreases c
  {
    if name in cs[c].methods {
      assert InstanceOf(cs, c, c) && InstanceOf(cs, a, c);
      OnlyItself(cs, c, a);
    } else {
      forall b | 0 <= b < |cs| && InstanceOf(cs, cs[c].parent.value, b) && name in cs[b].methods
        ensures InstanceOf(cs, a, b)
      {
        assert InstanceOf(cs, c, b);
      }
      MethodIsNearest(cs, cs[c].parent.value, name, a);
    }
  }

  /** Ancestors of each other are the same class. */
  lemma OnlyItself(cs: Classes, a: nat, b: nat)
    requires Forest(cs) && a < |cs| && b < |cs| && InstanceOf(cs, a, b) && InstanceOf(cs, b, a)
    ensures a == b
  {
    AncestorIsEarlier(cs, a, b);
    AncestorIsEarlier(cs, b, a);
  }

  lemma {:induction false} AncestorIsEarlier(cs: Classes, a: nat, b: nat)
    requires Forest(cs) && a < |cs| && InstanceOf(cs, a, b)
    ensures b <= a
    decreases a
  {
    if a != b { AncestorIsEarlier(cs, cs[a].parent.value, b); }
  }

  /** It offers none if and only if none of its ancestors declares it. */
  lemma {:induction false} NoMethodIff(cs: Classes, c: nat, name: string)
    requires Forest(cs) && c < |cs|
    ensures GetMethod(cs, c, name) == None <==>
      forall b :: 0 <= b < |cs| && InstanceOf(cs, c, b) ==> name !in cs[b].methods
    decreases c
  {
    assert InstanceOf(cs, c, c);
    if name !in cs[c].methods && cs[c].parent.Some? {
      var p := cs[c].parent.value;
      NoMethodIff(cs, p, name);
      assert forall b :: 0 <= b < |cs| ==> (InstanceOf(cs, c, b) <==> b == c || InstanceOf(cs, p, b));
    }
  }

  /** The root is an ancestor above which the climb stops. */
  lemma {:induction false} RootIsAncestor(cs: Classes, c: nat, name: string)
    requires Forest(cs) && c < |cs|
    ensures InstanceOf(cs, c, Root(cs, c, name)) && !Climbs(cs, Root(cs, c, name), name)
    decreases c
  {
    if Climbs(cs, c, name) {
      RootIsAncestor(cs, cs[c].parent.value, name);
    }
  }

  /** And every class on the way climbs: no root lies lower. */
  lemma {:induction false} RootIsTopmost(cs: Classes, c: nat, a: nat, name: string)
    requires Forest(cs) && c < |cs| && a < |cs| && InstanceOf(cs, c, a)
    ensures InstanceOf(cs, Root(cs, c, name), a) || Climbs(cs, a, name)
    decreases c
  {
    if Climbs(cs, c, name) && a != c {
      RootIsTopmost(cs, cs[c].parent.value, a, name);
    }
  }

  // ----- the checks -----

  method FindRoot(cs: Classes, c: nat, name: string) returns (r: nat)
    requires Forest(cs) && c < |cs|
    ensures r == Root(cs, c, name)
  {
    r := c;
    while cs[r].parent.Some?
      invariant r < |cs| && Root(cs, r, name) == Root(cs, c, name)
      decreases r
    {
      if GetMethod(cs, cs[r].parent.value, name) != Some(Protected) {
        break;
      }
      r := cs[r].parent.value;
    }
  }

  /** Who may call a protected method: relatives of its declaring class, and heirs of its root. */
  predicate MayCall(cs: Classes, caller: nat, declaring: nat, name: string)
    requires Forest(cs) && caller < |cs| && declaring < |cs|
  {
    InstanceOf(cs, declaring, caller) || InstanceOf(cs, caller, Root(cs, declaring, name))
  }

  /** The check on strings, which also looks at the target class. */
  method AccessibleByString(cs: Classes, caller: Option<nat>, target: nat, declaring: nat, name: string)
    returns (accessible: bool)
    requires Forest(cs) && target < |cs| && declaring < |cs| && InstanceOf(cs, target, declaring)
    requires caller.Some? ==> caller.value < |cs|
    ensures accessible <==> caller.Some? && MayCall(cs, caller.value, declaring, name)
  {
    accessible := false;
    if caller.Some? {
      var c := caller.value;
      StringCheckIsMayCall(cs, c, target, declaring, name);
      accessible := InstanceOf(cs, c, target) || InstanceOf(cs, target, c);
      if !accessible {
        accessible := InstanceOf(cs, c, declaring) || InstanceOf(cs, declaring, c);
      }
      if !accessible {
        var root := FindRoot(cs, declaring, name);
        if InstanceOf(cs, c, root) {
          accessible := true;
        }
      }
    }
  }

  /** The check on arrays. */
  method VisibleByArray(cs: Classes, caller: Option<nat>, declaring: nat, name: string) returns (visible: bool)
    requires Forest(cs) && declaring < |cs|
    requires caller.Some? ==> caller.value < |cs|
    ensures visible <==> caller.Some? && MayCall(cs, caller.value, declaring, name)
  {
    visible := true;
    if caller.None? {
      return false;
    }
    var c := caller.value;
    ArrayCheckIsMayCall(cs, c, declaring, name);
    if !InstanceOf(cs, c, declaring) && !InstanceOf(cs, declaring, c) {
      visible := false;
      var root := FindRoot(cs, declaring, name);
      if InstanceOf(cs, c, root) {
        visible := true;
      }
    }
  }

  lemma ArrayCheckIsMayCall(cs: Classes, caller: nat, declaring: nat, name: string)
    requires Forest(cs) && caller < |cs| && declaring < |cs|
    ensures (InstanceOf(cs, caller, declaring) || InstanceOf(cs, declaring, caller)
      || InstanceOf(cs, caller, Root(cs, declaring, name)))
            <==> MayCall(cs, caller, declaring, name)
  {
    RootIsAncestor(cs, declaring, name);
    if InstanceOf(cs, caller, declaring) {
      InstanceOfTransitive(cs, caller, declaring, Root(cs, declaring, name));
    }
  }

  /** Looking at the target class as well adds no caller: both checks accept the same ones. */
  lemma StringCheckIsMayCall(cs: Classes, caller: nat, target: nat, declaring: nat, name: string)
    requires Forest(cs) && caller < |cs| && target < |cs| && declaring < |cs| && InstanceOf(cs, target, declaring)
    ensures (|| InstanceOf(cs, caller, target) || InstanceOf(cs, target, caller)
             || InstanceOf(cs, caller, declaring) || InstanceOf(cs, declaring, caller)
             || InstanceOf(cs, caller, Root(cs, declaring, name)))
            <==> MayCall(cs, caller, declaring, name)
  {
    ArrayCheckIsMayCall(cs, caller, declaring, name);
    if InstanceOf(cs, caller, target) {
      InstanceOfTransitive(cs, caller, target, declaring);
    } else if InstanceOf(cs, target, caller) {
      AncestorsAreRelated(cs, target, caller, declaring);
    }
  }
}
