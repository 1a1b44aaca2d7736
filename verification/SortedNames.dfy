/** Canonical keys of name lists: lower-case, sort, join with `&`
    (intersectionKey in core/compiler/compile-func.go). */
module SortedNames {

  function LowerChar(c: char): char {
    if 'A' <= c <= 'Z' then c - 'A' + 'a' else c
  }

  function ToLower(s: string): (r: string)
    ensures |r| == |s|
    ensures forall i :: 0 <= i < |s| ==> r[i] == LowerChar(s[i])
  {
    if s == "" then "" else [LowerChar(s[0])] + ToLower(s[1..])
  }

  function LowerAll(names: seq<string>): (r: seq<string>)
    ensures |r| == |names|
    ensures forall i :: 0 <= i < |names| ==> r[i] == ToLower(names[i])
  {
    seq(|names|, i requires 0 <= i < |names| => ToLower(names[i]))
  }

  /** The same letter in two cases. */
  predicate CaseApart(a: char, b: char) {
    a == b || ('A' <= a <= 'Z' && b as int == a as int + 32) || ('A' <= b <= 'Z' && a as int == b as int + 32)
  }

  /** Two names are the same in small letters if and only if they differ in the case of letters only. */
  lemma {:induction false} SameUpToCase(a: string, b: string)
    ensures ToLower(a) == ToLower(b) <==> |a| == |b| && forall i :: 0 <= i < |a| ==> CaseApart(a[i], b[i])
  {
    if |a| == |b| {
      forall i | 0 <= i < |a| ensures LowerChar(a[i]) == LowerChar(b[i]) <==> CaseApart(a[i], b[i]) {
      }
      if forall i :: 0 <= i < |a| ==> CaseApart(a[i], b[i]) {
        assert ToLower(a) == ToLower(b);
      } else {
        var i :| 0 <= i < |a| && !CaseApart(a[i], b[i]);
        assert ToLower(a)[i] != ToLower(b)[i];
      }
    }
  }

  // ----- byte order on strings -----

  predicate LexLe(a: string, b: string) {
    a == "" || (b != "" && (a[0] < b[0] || (a[0] == b[0] && LexLe(a[1..], b[1..]))))
  }

  lemma {:induction false} LexTotal(a: string, b: string)
    ensures LexLe(a, b) || LexLe(b, a)
    ensures LexLe(a, b) && LexLe(b, a) ==> a == b
  {
    if a != "" && b != "" && a[0] == b[0] {
      LexTotal(a[1..], b[1..]);
      assert a == [a[0]] + a[1..] && b == [b[0]] + b[1..];
    }
  }

  lemma {:induction false} LexTransitive(a: string, b: string, c: string)
    requires LexLe(a, b) && LexLe(b, c)
    ensures LexLe(a, c)
  {
    if a != "" && a[0] == b[0] == c[0] {
      LexTransitive(a[1..], b[1..], c[1..]);
    }
  }

  // ----- sorting -----

  ghost predicate IsSorted(s: seq<string>) {
    forall i, j :: 0 <= i < j < |s| ==> LexLe(s[i], s[j])
  }

  function Insert(x: string, s: seq<string>): seq<string> {
    if s == [] then [x]
    else if LexLe(x, s[0]) then [x] + s
    else [s[0]] + Insert(x, s[1..])
  }

  function Sort(s: seq<string>): seq<string> {
    if s == [] then [] else Insert(s[0], Sort(s[1..]))
  }

  lemma {:induction false} InsertKeepsNames(x: string, s: seq<string>)
    ensures multiset(Insert(x, s)) == multiset{x} + multiset(s)
  {
    if s != [] {
      InsertKeepsNames(x, s[1..]);
      assert s == [s[0]] + s[1..];
    }
  }

  lemma {:induction false} InsertSorts(x: string, s: seq<string>)
    requires IsSorted(s)
    ensures IsSorted(Insert(x, s))
  {
    if s != [] {
      var h, t := s[0], s[1..];
      if LexLe(x, h) {
        forall j | 0 <= j < |s| ensures LexLe(x, s[j]) { if j > 0 { LexTransitive(x, h, s[j]); } }
        SortedWithLeast(x, s);
      } else {
        assert forall i :: 0 <= i < |t| ==> t[i] == s[i + 1];
        InsertSorts(x, t);
        LexTotal(x, h);
        var r := Insert(x, t);
        InsertedAbove(x, h, t, r);
        SortedWithLeast(h, r);
      }
    }
  }

  lemma SortedWithLeast(h: string, s: seq<string>)
    requires IsSorted(s) && forall j :: 0 <= j < |s| ==> LexLe(h, s[j])
    ensures IsSorted([h] + s)
  {
  }

  lemma InsertedAbove(x: string, h: string, t: seq<string>, r: seq<string>)
    requires LexLe(h, x) && r == Insert(x, t) && forall y :: y in t ==> LexLe(h, y)
    ensures forall j :: 0 <= j < |r| ==> LexLe(h, r[j])
  {
    InsertKeepsNames(x, t);
    forall j | 0 <= j < |r| ensures LexLe(h, r[j]) {
      assert r[j] in multiset(r);
    }
  }

  lemma {:induction false} SortSorts(s: seq<string>)
    ensures IsSorted(Sort(s)) && multiset(Sort(s)) == multiset(s)
  {
    if s != [] {
      SortSorts(s[1..]);
      InsertSorts(s[0], Sort(s[1..]));
      InsertKeepsNames(s[0], Sort(s[1..]));
      assert s == [s[0]] + s[1..];
    }
  }

  lemma {:induction false} SortedIsUnique(a: seq<string>, b: seq<string>)
    requires IsSorted(a) && IsSorted(b) && multiset(a) == multiset(b)
    ensures a == b
  {
    SameLength(a, b);
    if a != [] {
      SameLeast(a, b);
      RestOf(a);
      RestOf(b);
      SortedIsUnique(a[1..], b[1..]);
      assert a == [a[0]] + a[1..] && b == [b[0]] + b[1..];
    }
  }

  lemma SameLength(a: seq<string>, b: seq<string>)
    requires multiset(a) == multiset(b)
    ensures |a| == |b|
  {
    assert |multiset(a)| == |a| && |multiset(b)| == |b|;
  }

  lemma RestOf(a: seq<string>)
    requires a != []
    ensures multiset(a[1..]) == multiset(a) - multiset{a[0]}
  {
    assert a == [a[0]] + a[1..];
  }

  lemma SameLeast(a: seq<string>, b: seq<string>)
    requires IsSorted(a) && IsSorted(b) && multiset(a) == multiset(b) && a != [] && b != []
    ensures a[0] == b[0]
  {
    assert a[0] in multiset(a) && b[0] in multiset(b);
    LeastFirst(a, b[0]);
    LeastFirst(b, a[0]);
    LexTotal(a[0], b[0]);
  }

  lemma LeastFirst(s: seq<string>, x: string)
    requires IsSorted(s) && x in s
    ensures LexLe(s[0], x)
  {
    LexTotal(x, x);
  }

  // ----- joining -----

  function Join(s: seq<string>): string {
    if s == [] then ""
    else if |s| == 1 then s[0]
    else s[0] + "&" + Join(s[1..])
  }

  ghost predicate NoSeparator(s: seq<string>) {
    forall i :: 0 <= i < |s| ==> '&' !in s[i]
  }

  function FirstSeparator(s: string): nat {
    if s == "" || s[0] == '&' then 0 else 1 + FirstSeparator(s[1..])
  }

  lemma {:induction false} SeparatorAfter(a: string, x: string)
    requires '&' !in a && (x == "" || x[0] == '&')
    ensures FirstSeparator(a + x) == |a|
  {
    if a == "" {
      assert a + x == x;
    } else {
      assert a[0] in a && (a + x)[1..] == a[1..] + x;
      SeparatorAfter(a[1..], x);
    }
  }

  lemma CutAtSeparator(a: string, x: string, b: string, y: string)
    requires '&' !in a && '&' !in b
    requires x == "" || x[0] == '&'
    requires y == "" || y[0] == '&'
    requires a + x == b + y
    ensures a == b && x == y
  {
    SeparatorAfter(a, x);
    SeparatorAfter(b, y);
    assert a == (a + x)[..|a|] && b == (b + y)[..|b|];
    assert x == (a + x)[|a|..] && y == (b + y)[|b|..];
  }

  lemma {:induction false} JoinInjective(a: seq<string>, b: seq<string>)
    requires a != [] && b != [] && NoSeparator(a) && NoSeparator(b)
    requires Join(a) == Join(b)
    ensures a == b
  {
    var x := if |a| == 1 then "" else "&" + Join(a[1..]);
    var y := if |b| == 1 then "" else "&" + Join(b[1..]);
    assert Join(a) == a[0] + x && Join(b) == b[0] + y;
    CutAtSeparator(a[0], x, b[0], y);
    if |a| > 1 {
      assert x[1..] == Join(a[1..]) && y[1..] == Join(b[1..]);
      JoinInjective(a[1..], b[1..]);
      assert a == [a[0]] + a[1..] && b == [b[0]] + b[1..];
    }
  }

  // ----- keys -----

  /** intersectionKey */
  function Key(names: seq<string>): string {
    Join(Sort(LowerAll(names)))
  }

  lemma LowerHasNoSeparator(names: seq<string>)
    requires NoSeparator(names)
    ensures NoSeparator(LowerAll(names))
  {
    forall i | 0 <= i < |names| ensures '&' !in LowerAll(names)[i] {
      forall k | 0 <= k < |names[i]| ensures LowerAll(names)[i][k] != '&' {
        assert names[i][k] in names[i];
      }
    }
  }

  /** Two groups have the same key exactly when they list the same names, case and order apart. */
  lemma KeyIsCanonical(a: seq<string>, b: seq<string>)
    requires a != [] && b != [] && NoSeparator(a) && NoSeparator(b)
    ensures Key(a) == Key(b) <==> multiset(LowerAll(a)) == multiset(LowerAll(b))
  {
    var la, lb := LowerAll(a), LowerAll(b);
    SortSorts(la);
    SortSorts(lb);
    if Key(a) == Key(b) {
      LowerHasNoSeparator(a);
      LowerHasNoSeparator(b);
      SortKeepsNames(la);
      SortKeepsNames(lb);
      JoinInjective(Sort(la), Sort(lb));
    }
    if multiset(la) == multiset(lb) {
      SortedIsUnique(Sort(la), Sort(lb));
    }
  }

  lemma SortKeepsNames(s: seq<string>)
    requires s != [] && NoSeparator(s)
    ensures Sort(s) != [] && NoSeparator(Sort(s))
  {
    SortSorts(s);
    var r := Sort(s);
    assert |multiset(r)| == |r| && |multiset(s)| == |s|;
    forall i | 0 <= i < |r| ensures '&' !in r[i] {
      assert r[i] in multiset(r) && r[i] in multiset(s);
      assert r[i] in s;
    }
  }
}
