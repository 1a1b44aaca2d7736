/** The redundancy check for unions with intersection groups
    (validateDNFRedundancy in core/compiler/compile-func.go), and what it means. */
module DnfTypes {
  import opened Options
  import opened SortedNames

  /** A member of a union type: `null`, a plain type, or an intersection group. */
  datatype Member = Null | Plain(name: string) | Group(parts: seq<string>)

  /** Types as sets of values: a value is null, or carries the lower-cased names it satisfies. */
  datatype Value = NullValue | Object(names: set<string>)

  ghost predicate Admits(m: Member, v: Value) {
    match m
    case Null => v.NullValue?
    case Plain(n) => v.Object? && ToLower(n) in v.names
    case Group(ps) => v.Object? && forall i :: 0 <= i < |ps| ==> ToLower(ps[i]) in v.names
  }

  /** What the parser guarantees: groups are not empty and names contain no `&`. */
  ghost predicate Parsed(u: seq<Member>) {
    forall i :: 0 <= i < |u| && u[i].Group? ==> u[i].parts != [] && NoSeparator(u[i].parts)
  }

  /** What the duplicate check ahead of this one guarantees (validateTypeHint). */
  ghost predicate DistinctPlains(u: seq<Member>) {
    forall i, j :: 0 <= i < j < |u| ==>
      && (u[i].Plain? && u[j].Plain? ==> ToLower(u[i].name) != ToLower(u[j].name))
      && !(u[i].Null? && u[j].Null?)
  }

  function NameSet(ps: seq<string>): set<string> {
    set i | 0 <= i < |ps| :: ToLower(ps[i])
  }

  /** One pair of members that the check rejects: `m` is reported as redundant because of `n`. */
  ghost predicate Clash(m: Member, n: Member) {
    && m.Group?
    && (|| (n.Group? && Key(m.parts) == Key(n.parts))
        || (n.Plain? && ToLower(n.name) in NameSet(m.parts))
        || (n.Group? && |n.parts| < |m.parts| && NameSet(n.parts) <= NameSet(m.parts)))
  }

  ghost predicate Accepted(u: seq<Member>) {
    forall i, j :: 0 <= i < |u| && 0 <= j < |u| && i != j ==> !Clash(u[i], u[j])
  }

  /** Every member admits some value that no other member admits. */
  ghost predicate Irredundant(u: seq<Member>) {
    forall i :: 0 <= i < |u| ==> HasOwnValue(u, i)
  }

  ghost predicate HasOwnValue(u: seq<Member>, i: nat)
    requires i < |u|
  {
    exists v :: OnlyHere(u, i, v)
  }

  ghost predicate OnlyHere(u: seq<Member>, i: nat, v: Value)
    requires i < |u|
  {
    Admits(u[i], v) && forall j :: 0 <= j < |u| && j != i ==> !Admits(u[j], v)
  }

  /** The pairs the check overlooks: `m` is contained in `n`, but a repeated name makes `n` look
      at least as long as `m`. */
  ghost predicate Overlooked(m: Member, n: Member) {
    && m.Group? && n.Group?
    && NameSet(n.parts) <= NameSet(m.parts)
    && |m.parts| <= |n.parts|
    && Key(m.parts) != Key(n.parts)
  }

  ghost predicate DuplicateFree(ps: seq<string>) {
    forall i, j :: 0 <= i < j < |ps| ==> ToLower(ps[i]) != ToLower(ps[j])
  }

  // ----- soundness -----

  lemma SameKeySameNames(a: seq<string>, b: seq<string>)
    requires a != [] && b != [] && NoSeparator(a) && NoSeparator(b) && Key(a) == Key(b)
    ensures NameSet(a) == NameSet(b)
  {
    KeyIsCanonical(a, b);
    NamesOfMultiset(a);
    NamesOfMultiset(b);
  }

  lemma NamesOfMultiset(a: seq<string>)
    ensures forall x :: x in NameSet(a) <==> x in multiset(LowerAll(a))
  {
    var l := LowerAll(a);
    assert forall x :: x in NameSet(a) <==> x in l;
  }

  /** A reported member is contained in the member it is reported against. */
  lemma ReportedIsContained(m: Member, n: Member, v: Value)
    requires m.Group? ==> m.parts != [] && NoSeparator(m.parts)
    requires n.Group? ==> n.parts != [] && NoSeparator(n.parts)
    requires Clash(m, n) && Admits(m, v)
    ensures Admits(n, v)
  {
    if n.Group? {
      if Key(m.parts) == Key(n.parts) {
        SameKeySameNames(m.parts, n.parts);
      }
      forall i | 0 <= i < |n.parts| ensures ToLower(n.parts[i]) in v.names {
        assert ToLower(n.parts[i]) in NameSet(m.parts);
      }
    }
  }

  // ----- completeness -----

  function Witness(m: Member): Value {
    match m
    case Null => NullValue
    case Plain(n) => Object({ToLower(n)})
    case Group(ps) => Object(NameSet(ps))
  }

  /** The witness of a member is admitted by another only if the pair clashes or is overlooked. */
  lemma WitnessIsOwn(m: Member, n: Member)
    requires m.Group? ==> m.parts != []
    requires n.Group? ==> n.parts != []
    requires Admits(n, Witness(m))
    ensures || Clash(m, n) || Clash(n, m) || Overlooked(m, n)
            || (m.Null? && n.Null?)
            || (m.Plain? && n.Plain? && ToLower(m.name) == ToLower(n.name))
  {
    if n.Group? {
      if m.Group? {
        assert NameSet(n.parts) <= NameSet(m.parts);
      } else if m.Plain? {
        assert ToLower(n.parts[0]) == ToLower(m.name);
        assert ToLower(m.name) in NameSet(n.parts);
      }
    }
  }

  /** The check together with its blind spot decides irredundancy exactly, for every union. */
  lemma CheckDecidesRedundancy(u: seq<Member>)
    requires Parsed(u) && DistinctPlains(u)
    ensures Irredundant(u) <==>
              Accepted(u) &&
              forall i, j :: 0 <= i < |u| && 0 <= j < |u| && i != j ==> !Overlooked(u[i], u[j])
  {
    if Irredundant(u) {
      forall i, j | 0 <= i < |u| && 0 <= j < |u| && i != j
        ensures !Clash(u[i], u[j]) && !Overlooked(u[i], u[j])
      {
        assert HasOwnValue(u, i);
        var v :| OnlyHere(u, i, v);
        assert !Admits(u[j], v);
        if Clash(u[i], u[j]) {
          ReportedIsContained(u[i], u[j], v);
        } else if Overlooked(u[i], u[j]) {
          OverlookedIsContained(u[i], u[j], v);
        }
      }
    }
    if Accepted(u) && forall i, j :: 0 <= i < |u| && 0 <= j < |u| && i != j ==> !Overlooked(u[i], u[j]) {
      forall i | 0 <= i < |u| ensures HasOwnValue(u, i) {
        assert OnlyHere(u, i, Witness(u[i])) by {
          forall j | 0 <= j < |u| && j != i ensures !Admits(u[j], Witness(u[i])) {
            if Admits(u[j], Witness(u[i])) { WitnessIsOwn(u[i], u[j]); }
          }
        }
      }
    }
  }

  lemma OverlookedIsContained(m: Member, n: Member, v: Value)
    requires Overlooked(m, n) && Admits(m, v)
    ensures Admits(n, v)
  {
    forall i | 0 <= i < |n.parts| ensures ToLower(n.parts[i]) in v.names {
      assert ToLower(n.parts[i]) in NameSet(m.parts);
    }
  }

  /** Groups without repeated names are never overlooked, so then the check is exact. */
  lemma ExactWithoutDuplicates(u: seq<Member>)
    requires Parsed(u) && DistinctPlains(u)
    requires forall i :: 0 <= i < |u| && u[i].Group? ==> DuplicateFree(u[i].parts)
    ensures Accepted(u) <==> Irredundant(u)
  {
    forall i, j | 0 <= i < |u| && 0 <= j < |u| && i != j ensures !Overlooked(u[i], u[j]) {
      if Overlooked(u[i], u[j]) {
        var a, b := u[i].parts, u[j].parts;
        DuplicateFreeCount(a);
        DuplicateFreeCount(b);
        SubsetOfSameSize(NameSet(b), NameSet(a));
        KeyIsCanonical(a, b);
      }
    }
    CheckDecidesRedundancy(u);
  }

  lemma SubsetOfSameSize<T>(b: set<T>, a: set<T>)
    requires b <= a && |b| >= |a|
    ensures a == b
  {
    assert |a - b| == |a| - |b|;
    assert a == b + (a - b);
  }

  lemma {:induction false} DuplicateFreeCount(ps: seq<string>)
    requires DuplicateFree(ps)
    ensures |NameSet(ps)| == |ps| && multiset(LowerAll(ps)) == multiset(NameSet(ps))
  {
    if ps == [] {
      assert LowerAll(ps) == [];
    } else {
      var n := |ps| - 1;
      DuplicateFreeCount(ps[..n]);
      var x := ToLower(ps[n]);
      assert LowerAll(ps) == LowerAll(ps[..n]) + [x];
      assert NameSet(ps) == NameSet(ps[..n]) + {x};
      assert x !in NameSet(ps[..n]);
    }
  }

  /** The blind spot is real: `(A&A)|(A&B)` is accepted although its second group adds nothing. */
  lemma DuplicatesHideRedundancy()
    ensures var u := [Group(["A", "A"]), Group(["A", "B"])];
            Parsed(u) && DistinctPlains(u) && Accepted(u) && !Irredundant(u)
  {
    var aa, ab := ["A", "A"], ["A", "B"];
    var u := [Group(aa), Group(ab)];
    LowerOneChar('A');
    LowerOneChar('B');
    assert NoSeparator(aa) && NoSeparator(ab);
    DifferentKeys(aa, ab);
    assert ToLower(ab[0]) in NameSet(ab) && NameSet(aa) == {"a"};
    assert Overlooked(u[1], u[0]);
    assert Accepted(u);
    CheckDecidesRedundancy(u);
  }

  lemma DifferentKeys(aa: seq<string>, ab: seq<string>)
    requires aa == ["A", "A"] && ab == ["A", "B"] && NoSeparator(aa) && NoSeparator(ab)
    ensures Key(aa) != Key(ab)
  {
    LowerOneChar('A');
    LowerOneChar('B');
    assert LowerAll(aa) == ["a", "a"] && LowerAll(ab) == ["a", "b"];
    assert multiset(LowerAll(aa))["a"] == 2 && multiset(LowerAll(ab))["a"] == 1;
    KeyIsCanonical(aa, ab);
  }

  lemma LowerOneChar(c: char)
    requires 'A' <= c <= 'Z'
    ensures ToLower([c]) == [c - 'A' + 'a']
  {
    assert [c][1..] == "";
  }

  // ----- the verdict does not depend on order -----

  /** The same member up to the order and letter case of its names. */
  ghost predicate SameMember(m: Member, n: Member) {
    match (m, n)
    case (Null, Null) => true
    case (Plain(a), Plain(b)) => ToLower(a) == ToLower(b)
    case (Group(p), Group(q)) => multiset(LowerAll(p)) == multiset(LowerAll(q))
    case _ => false
  }

  /** `perm` lists, for each member of `u`, the place of the same member in `w`. */
  ghost predicate Rearranged(u: seq<Member>, w: seq<Member>, perm: seq<nat>) {
    && |perm| == |u| == |w|
    && (forall i :: 0 <= i < |perm| ==> perm[i] < |w| && SameMember(u[i], w[perm[i]]))
    && (forall i, j :: 0 <= i < j < |perm| ==> perm[i] != perm[j])
  }

  lemma ClashIgnoresOrder(m: Member, n: Member, m': Member, n': Member)
    requires forall x :: x in [m, n, m', n'] && x.Group? ==> x.parts != [] && NoSeparator(x.parts)
    requires SameMember(m, m') && SameMember(n, n') && Clash(m, n)
    ensures Clash(m', n')
  {
    assert m in [m, n, m', n'] && n in [m, n, m', n'] && m' in [m, n, m', n'] && n' in [m, n, m', n'];
    SameGroup(m.parts, m'.parts);
    if n.Group? {
      SameGroup(n.parts, n'.parts);
    }
  }

  lemma SameGroup(p: seq<string>, q: seq<string>)
    requires p != [] && q != [] && NoSeparator(p) && NoSeparator(q)
    requires multiset(LowerAll(p)) == multiset(LowerAll(q))
    ensures Key(p) == Key(q) && NameSet(p) == NameSet(q) && |p| == |q|
  {
    KeyIsCanonical(p, q);
    NamesOfMultiset(p);
    NamesOfMultiset(q);
    assert |multiset(LowerAll(p))| == |p| && |multiset(LowerAll(q))| == |q|;
  }

  function Below(n: nat): (r: set<nat>)
    ensures |r| == n && forall x :: x in r <==> 0 <= x < n
  {
    if n == 0 then {} else Below(n - 1) + {n - 1}
  }

  lemma {:induction false} DistinctCount(s: seq<nat>, all: set<nat>)
    requires forall i, j :: 0 <= i < j < |s| ==> s[i] != s[j]
    requires forall x :: x in s <==> x in all
    ensures |all| == |s|
  {
    if s == [] {
      assert all == {};
    } else {
      var n := |s| - 1;
      assert s[n] in s && s == s[..n] + [s[n]];
      DistinctCount(s[..n], all - {s[n]});
    }
  }

  lemma PermutationReaches(perm: seq<nat>, k: nat)
    requires forall i, j :: 0 <= i < j < |perm| ==> perm[i] != perm[j]
    requires forall i :: 0 <= i < |perm| ==> perm[i] < |perm|
    requires k < |perm|
    ensures k in perm
  {
    var all := set x | x in perm;
    DistinctCount(perm, all);
    SubsetOfSameSize(all, Below(|perm|));
    assert k in Below(|perm|);
  }

  /** Reordering the members of the union or of its groups never changes the verdict. */
  lemma VerdictIgnoresOrder(u: seq<Member>, w: seq<Member>, perm: seq<nat>)
    requires Parsed(u) && Parsed(w) && Rearranged(u, w, perm)
    ensures Accepted(u) <==> Accepted(w)
  {
    if Accepted(w) {
      forall i, j | 0 <= i < |u| && 0 <= j < |u| && i != j ensures !Clash(u[i], u[j]) {
        var a, b := perm[i], perm[j];
        assert a != b && !Clash(w[a], w[b]);
        if Clash(u[i], u[j]) {
          ClashIgnoresOrder(u[i], u[j], w[a], w[b]);
        }
      }
    }
    if Accepted(u) {
      forall a, b | 0 <= a < |w| && 0 <= b < |w| && a != b ensures !Clash(w[a], w[b]) {
        PermutationReaches(perm, a);
        PermutationReaches(perm, b);
        var i :| 0 <= i < |perm| && perm[i] == a;
        var j :| 0 <= j < |perm| && perm[j] == b;
        assert !Clash(u[i], u[j]);
        if Clash(w[a], w[b]) {
          ClashIgnoresOrder(w[a], w[b], u[i], u[j]);
        }
      }
    }
  }

  // ----- the check itself -----

  /** The positions of the redundant member and of the member it is reported against. */
  datatype Redundancy = Redundant(which: nat, against: nat)

  ghost predicate Reports(u: seq<Member>, r: Option<Redundancy>) {
    r.Some? ==> && r.value.which < |u| && r.value.against < |u| && r.value.which != r.value.against
                && Clash(u[r.value.which], u[r.value.against])
  }

  /** intersectionContainsAll */
  method ContainsAll(large: seq<string>, small: seq<string>) returns (all: bool)
    ensures all <==> NameSet(small) <= NameSet(large)
  {
    for k := 0 to |small|
      invariant forall i :: 0 <= i < k ==> ToLower(small[i]) in NameSet(large)
    {
      var needKey, found := ToLower(small[k]), false;
      for h := 0 to |large|
        invariant !found && forall i :: 0 <= i < h ==> ToLower(large[i]) != needKey
      {
        if ToLower(large[h]) == needKey {
          found := true;
          break;
        }
      }
      if !found {
        assert needKey in NameSet(small) && needKey !in NameSet(large);
        return false;
      }
    }
    return true;
  }

  /** `ps` lists in order, without gaps, the positions of the groups (or of the plain members). */
  ghost predicate Lists(u: seq<Member>, n: nat, groups: bool, ps: seq<nat>) {
    && n <= |u|
    && (forall k :: 0 <= k < |ps| ==> ps[k] < n && (if groups then u[ps[k]].Group? else u[ps[k]].Plain?))
    && (forall p: nat :: p < n && (if groups then u[p].Group? else u[p].Plain?) ==> p in ps)
    && (forall a, b :: 0 <= a < b < |ps| ==> ps[a] < ps[b])
  }

  method Partition(u: seq<Member>) returns (groups: seq<nat>, plains: seq<nat>)
    ensures Lists(u, |u|, true, groups) && Lists(u, |u|, false, plains)
  {
    groups, plains := [], [];
    for i := 0 to |u|
      invariant Lists(u, i, true, groups) && Lists(u, i, false, plains)
    {
      match u[i]
      case Group(_) => groups := groups + [i];
      case Plain(_) => plains := plains + [i];
      case Null =>
    }
  }

  /** Rule 1: the first key that repeats an earlier one. */
  method DuplicateKey(keys: seq<string>) returns (r: Option<Redundancy>)
    ensures r.Some? ==> r.value.against < r.value.which < |keys| && keys[r.value.which] == keys[r.value.against]
    ensures r.None? ==> forall b, c :: 0 <= b < c < |keys| ==> keys[b] != keys[c]
  {
    var seenKeys: map<string, nat> := map[];
    for a := 0 to |keys|
      invariant forall k :: k in seenKeys ==> seenKeys[k] < a && keys[seenKeys[k]] == k
      invariant forall b :: 0 <= b < a ==> keys[b] in seenKeys
      invariant forall b, c :: 0 <= b < c < a ==> keys[b] != keys[c]
    {
      if keys[a] in seenKeys {
        return Some(Redundant(a, seenKeys[keys[a]]));
      }
      seenKeys := seenKeys[keys[a] := a];
    }
    r := None;
  }

  /** Rule 2: a group that lists a plain member. */
  method GroupBelowPlain(u: seq<Member>, groups: seq<nat>, plains: seq<nat>) returns (r: Option<Redundancy>)
    requires Lists(u, |u|, true, groups) && Lists(u, |u|, false, plains)
    ensures Reports(u, r)
    ensures r.None? ==> forall b, d :: 0 <= b < |groups| && 0 <= d < |plains| ==>
                          ToLower(u[plains[d]].name) !in NameSet(u[groups[b]].parts)
  {
    for a := 0 to |groups|
      invariant forall b, d :: 0 <= b < a && 0 <= d < |plains| ==>
                  ToLower(u[plains[d]].name) !in NameSet(u[groups[b]].parts)
    {
      var parts := u[groups[a]].parts;
      for c := 0 to |plains|
        invariant forall d :: 0 <= d < c ==> ToLower(u[plains[d]].name) !in NameSet(parts)
      {
        var plainKey := ToLower(u[plains[c]].name);
        for k := 0 to |parts|
          invariant forall i :: 0 <= i < k ==> ToLower(parts[i]) != plainKey
        {
          if ToLower(parts[k]) == plainKey {
            assert plainKey in NameSet(parts);
            return Some(Redundant(groups[a], plains[c]));
          }
        }
      }
    }
    r := None;
  }

  /** Rule 3: a longer group that contains a shorter one. */
  method GroupBelowGroup(u: seq<Member>, groups: seq<nat>) returns (r: Option<Redundancy>)
    requires Lists(u, |u|, true, groups)
    ensures Reports(u, r)
    ensures r.None? ==> forall a, b :: 0 <= a < |groups| && 0 <= b < |groups| && a != b ==>
                          !Longer(u[groups[b]].parts, u[groups[a]].parts)
  {
    for i := 0 to |groups|
      invariant forall a, b :: 0 <= a < i && 0 <= b < |groups| && a != b ==>
                  !Longer(u[groups[b]].parts, u[groups[a]].parts)
    {
      var small := u[groups[i]].parts;
      for j := 0 to |groups|
        invariant forall b :: 0 <= b < j && b != i ==> !Longer(u[groups[b]].parts, small)
      {
        if i == j {
          continue;
        }
        var large := u[groups[j]].parts;
        if |large| > |small| {
          var contains := ContainsAll(large, small);
          if contains {
            return Some(Redundant(groups[j], groups[i]));
          }
        }
      }
    }
    r := None;
  }

  ghost predicate Longer(large: seq<string>, small: seq<string>) {
    |small| < |large| && NameSet(small) <= NameSet(large)
  }

  /** validateDNFRedundancy: rejects exactly the unions with a clashing pair, and names one. */
  method ValidateDNFRedundancy(u: seq<Member>) returns (r: Option<Redundancy>)
    ensures r.None? <==> Accepted(u)
    ensures Reports(u, r)
  {
    var groups, plains := Partition(u);
    if |groups| == 0 {
      return None;
    }
    r := DuplicateGroups(u, groups);
    if r.Some? {
      return;
    }
    r := GroupBelowPlain(u, groups, plains);
    if r.Some? {
      return;
    }
    r := GroupBelowGroup(u, groups);
    if r.None? {
      NoRuleApplies(u, groups, plains);
    }
  }

  /** Rule 1: two groups with one key. */
  method DuplicateGroups(u: seq<Member>, groups: seq<nat>) returns (r: Option<Redundancy>)
    requires Lists(u, |u|, true, groups)
    ensures Reports(u, r)
    ensures r.None? ==> forall b, c :: 0 <= b < c < |groups| ==> Key(u[groups[b]].parts) != Key(u[groups[c]].parts)
  {
    var keys := seq(|groups|, k requires 0 <= k < |groups| => Key(u[groups[k]].parts));
    var d := DuplicateKey(keys);
    assert forall b :: 0 <= b < |groups| ==> keys[b] == Key(u[groups[b]].parts);
    if d.None? {
      return None;
    }
    return Some(Redundant(groups[d.value.which], groups[d.value.against]));
  }

  lemma NoRuleApplies(u: seq<Member>, groups: seq<nat>, plains: seq<nat>)
    requires Lists(u, |u|, true, groups) && Lists(u, |u|, false, plains)
    requires forall b, c :: 0 <= b < c < |groups| ==> Key(u[groups[b]].parts) != Key(u[groups[c]].parts)
    requires forall b, d :: 0 <= b < |groups| && 0 <= d < |plains| ==>
               ToLower(u[plains[d]].name) !in NameSet(u[groups[b]].parts)
    requires forall a, b :: 0 <= a < |groups| && 0 <= b < |groups| && a != b ==>
               !Longer(u[groups[b]].parts, u[groups[a]].parts)
    ensures Accepted(u)
  {
    forall i, j | 0 <= i < |u| && 0 <= j < |u| && i != j ensures !Clash(u[i], u[j]) {
      if u[i].Group? && u[j].Group? {
        var b :| 0 <= b < |groups| && groups[b] == i;
        var c :| 0 <= c < |groups| && groups[c] == j;
        assert b != c && !Longer(u[groups[b]].parts, u[groups[c]].parts);
      } else if u[i].Group? && u[j].Plain? {
        var b :| 0 <= b < |groups| && groups[b] == i;
        var d :| 0 <= d < |plains| && plains[d] == j;
      }
    }
  }
}
