/** Writers that put a prefix in front of every non-empty line (indentWriter in
    core/compiler/closure.go), alone and nested. */
module IndentWriters {
  /** The text a writer passes on; `start` says whether it stands at the start of a line. */
  function Indent(prefix: string, start: bool, s: string): string
    decreases s
  {
    if s == "" then ""
    else (if start && s[0] != '\n' then prefix else "") + s[..1] + Indent(prefix, s[0] == '\n', s[1..])
  }

  function AtStart(start: bool, s: string): bool {
    if s == "" then start else s[|s| - 1] == '\n'
  }

  // ----- laws of one writer -----

  /** Splitting the input over two writes changes nothing. */
  lemma {:induction false} IndentOfConcat(prefix: string, start: bool, a: string, b: string)
    ensures Indent(prefix, start, a + b) == Indent(prefix, start, a) + Indent(prefix, AtStart(start, a), b)
    decreases a
  {
    if a == "" {
      assert a + b == b;
    } else {
      assert (a + b)[1..] == a[1..] + b && (a + b)[..1] == a[..1];
      IndentOfConcat(prefix, a[0] == '\n', a[1..], b);
    }
  }

  lemma AtStartOfConcat(start: bool, a: string, b: string)
    ensures AtStart(start, a + b) == AtStart(AtStart(start, a), b)
  {
    assert b == "" ==> a + b == a;
  }

  /** Drops as many characters as the prefix has at the start of every non-empty line. */
  function Strip(prefix: string, start: bool, t: string): string
    decreases |t|
  {
    if t == "" then ""
    else if start && t[0] != '\n' && |t| > |prefix| then
      t[|prefix|..][..1] + Strip(prefix, t[|prefix|] == '\n', t[|prefix| + 1..])
    else t[..1] + Strip(prefix, t[0] == '\n', t[1..])
  }

  lemma {:induction false} StripUndoesIndent(prefix: string, start: bool, s: string)
    requires '\n' !in prefix
    ensures Strip(prefix, start, Indent(prefix, start, s)) == s
    decreases s
  {
    if s != "" {
      var rest := Indent(prefix, s[0] == '\n', s[1..]);
      StripUndoesIndent(prefix, s[0] == '\n', s[1..]);
      var p := if start && s[0] != '\n' then prefix else "";
      StripCharacter(prefix, start, p, s[0], rest);
      assert Indent(prefix, start, s) == p + ([s[0]] + rest) && s == [s[0]] + s[1..];
    }
  }

  lemma StripCharacter(prefix: string, start: bool, p: string, c: char, rest: string)
    requires '\n' !in prefix && p == if start && c != '\n' then prefix else ""
    ensures Strip(prefix, start, p + ([c] + rest)) == [c] + Strip(prefix, c == '\n', rest)
  {
    var t := p + ([c] + rest);
    assert t[|p|] == c && t[|p| + 1..] == rest;
    if start && c != '\n' {
      assert t[0] == if p != "" then p[0] else c;
      assert t[|p|..][..1] == [c];
    } else {
      assert t[..1] == [c];
    }
  }

  /** Text without a newline, written by a writer at the start of a line. */
  lemma {:induction false} IndentOfPrefix(outer: string, start: bool, p: string)
    requires '\n' !in p
    ensures Indent(outer, start, p) == (if start && p != "" then outer else "") + p
    ensures AtStart(start, p) == (start && p == "")
    decreases p
  {
    if p != "" {
      IndentOfPrefix(outer, false, p[1..]);
      assert p == p[..1] + p[1..];
    }
  }

  /** A writer inside a writer is one writer with both prefixes, the outer one first. */
  lemma {:induction false} IndentCompose(outer: string, inner: string, start: bool, s: string)
    requires '\n' !in inner
    ensures Indent(outer, start, Indent(inner, start, s)) == Indent(outer + inner, start, s)
    ensures AtStart(start, Indent(inner, start, s)) == AtStart(start, s)
    decreases s
  {
    if s != "" {
      var newline := s[0] == '\n';
      var rest := Indent(inner, newline, s[1..]);
      IndentCompose(outer, inner, newline, s[1..]);
      FirstCharacter(outer, inner, start, s[0], rest);
      assert s[..1] == [s[0]];
      var t := (if start && !newline then inner else "") + ([s[0]] + rest);
      assert Indent(inner, start, s) == t;
      AtStartOfConcat(start, if start && !newline then inner else "", [s[0]] + rest);
      AtStartOfConcat(start, [s[0]], rest);
      AtStartOfConcat(start, [s[0]], s[1..]);
      assert s == [s[0]] + s[1..];
    }
  }

  /** The outer writer on the inner one's output for one character and what follows. */
  lemma FirstCharacter(outer: string, inner: string, start: bool, c: char, rest: string)
    requires '\n' !in inner
    ensures var p := if start && c != '\n' then inner else "";
            Indent(outer, start, p + ([c] + rest))
            == (if start && c != '\n' then outer + inner else "") + [c] + Indent(outer, c == '\n', rest)
  {
    if start && c != '\n' {
      IndentOfPrefix(outer, start, inner);
      IndentOfConcat(outer, start, inner, [c] + rest);
      NextCharacter(outer, AtStart(start, inner), c, rest);
    } else {
      assert "" + ([c] + rest) == [c] + rest;
      NextCharacter(outer, start, c, rest);
    }
  }

  lemma NextCharacter(outer: string, start: bool, c: char, rest: string)
    ensures Indent(outer, start, [c] + rest) == (if start && c != '\n' then outer else "") + [c]
      + Indent(outer, c == '\n', rest)
  {
    IndentOfConcat(outer, start, [c], rest);
    OneCharacter(outer, start, c);
  }

  lemma OneCharacter(outer: string, start: bool, c: char)
    ensures Indent(outer, start, [c]) == (if start && c != '\n' then outer else "") + [c]
  {
    assert [c][..1] == [c] && [c][1..] == "";
    assert Indent(outer, c == '\n', "") == "";
  }

  // ----- nested writers -----

  /** A writer; each one writes to the one before it in a sequence, the first to the output. */
  datatype Level = Level(prefix: string, atLineStart: bool)

  function Pass(levels: seq<Level>, p: string): (r: (seq<Level>, string))
    ensures |r.0| == |levels|
  {
    if levels == [] then ([], p)
    else
      var n := |levels| - 1;
      var l := levels[n];
      var (outer, out) := Pass(levels[..n], Indent(l.prefix, l.atLineStart, p));
      (outer + [l.(atLineStart := AtStart(l.atLineStart, p))], out)
  }

  /** However the input is cut into writes, the output is the same. */
  lemma {:induction false} PassOfConcat(levels: seq<Level>, a: string, b: string)
    ensures var (mid, out) := Pass(levels, a); Pass(levels, a + b) == (Pass(mid, b).0, out + Pass(mid, b).1)
    decreases |levels|
  {
    if levels != [] {
      var n := |levels| - 1;
      var l := levels[n];
      var (ia, ib) := (Indent(l.prefix, l.atLineStart, a), Indent(l.prefix, AtStart(l.atLineStart, a), b));
      IndentOfConcat(l.prefix, l.atLineStart, a, b);
      AtStartOfConcat(l.atLineStart, a, b);
      PassOfConcat(levels[..n], ia, ib);
      var mid := Pass(levels, a).0;
      assert mid[..n] == Pass(levels[..n], ia).0;
    }
  }

  function Prefixes(levels: seq<Level>): string {
    if levels == [] then "" else Prefixes(levels[..|levels| - 1]) + levels[|levels| - 1].prefix
  }

  /** Writers nested in each other from the start of a line write what one writer with all their
      prefixes writes, outermost first. */
  lemma {:induction false} NestingConcatenates(levels: seq<Level>, p: string)
    requires levels != []
    requires forall i :: 0 <= i < |levels| ==> levels[i].atLineStart && (i > 0 ==> '\n' !in levels[i].prefix)
    ensures Pass(levels, p).1 == Indent(Prefixes(levels), true, p)
    decreases |levels|
  {
    var n := |levels| - 1;
    var l := levels[n];
    var q := Indent(l.prefix, true, p);
    if n == 0 {
      assert levels[..0] == [] && Prefixes(levels) == l.prefix;
      assert Pass(levels[..0], q).1 == q;
    } else {
      NestingConcatenates(levels[..n], q);
      IndentCompose(Prefixes(levels[..n]), l.prefix, true, p);
    }
  }

  lemma {:induction false} PassNothing(levels: seq<Level>)
    ensures Pass(levels, "") == (levels, "")
    decreases |levels|
  {
    if levels != [] {
      var n := |levels| - 1;
      PassNothing(levels[..n]);
      assert levels[..n] + [levels[n]] == levels;
    }
  }

  /** A chunk gets at most one prefix. */
  lemma {:induction false} ChunkIndent(prefix: string, start: bool, chunk: string)
    requires chunk != "" && '\n' !in chunk[..|chunk| - 1]
    ensures Indent(prefix, start, chunk) == (if start && chunk[0] != '\n' then prefix else "") + chunk
    decreases chunk
  {
    if |chunk| > 1 {
      assert chunk[..|chunk| - 1][0] == chunk[0];
      assert chunk[1..][..|chunk| - 2] == chunk[..|chunk| - 1][1..];
      ChunkIndent(prefix, false, chunk[1..]);
      assert chunk == chunk[..1] + chunk[1..];
    } else {
      assert chunk[1..] == "" && chunk[..1] == chunk;
      assert Indent(prefix, chunk[0] == '\n', "") == "";
    }
  }

  /** One chunk through the last of the writers, given the two writes it makes. */
  lemma ChunkPasses(levels: seq<Level>, chunk: string, mid: seq<Level>, end: seq<Level>, out1: string, out2: string)
    requires levels != [] && chunk != "" && '\n' !in chunk[..|chunk| - 1]
    requires var l := levels[|levels| - 1];
             (mid, out1) == Pass(levels[..|levels| - 1], if l.atLineStart && chunk[0] != '\n' then l.prefix else "")
    requires (end, out2) == Pass(mid, chunk)
    ensures var l := levels[|levels| - 1];
            Pass(levels, chunk) == (end + [l.(atLineStart := chunk[|chunk| - 1] == '\n')], out1 + out2)
  {
    var l := levels[|levels| - 1];
    ChunkIndent(l.prefix, l.atLineStart, chunk);
    PassOfConcat(levels[..|levels| - 1], if l.atLineStart && chunk[0] != '\n' then l.prefix else "", chunk);
  }

  lemma WrittenTwice(a: string, b: string, c: string)
    ensures a + b + c == a + (b + c)
  {
  }

  lemma LinePasses(levels: seq<Level>, out: string, chunk: string, k: nat, mid: seq<Level>, out1: string,
      end: seq<Level>, out2: string)
    requires 0 < k <= |levels| == |end| && chunk != "" && '\n' !in chunk[..|chunk| - 1]
    requires var l := levels[k - 1];
             var r := Pass(levels[..k - 1], if l.atLineStart && chunk[0] != '\n' then l.prefix else "");
             mid == r.0 && out1 == out + r.1
    requires end[..k - 1] == Pass(mid, chunk).0 && out2 == out1 + Pass(mid, chunk).1
    requires end[k - 1] == levels[k - 1].(atLineStart := chunk[|chunk| - 1] == '\n')
    ensures end[..k] == Pass(levels[..k], chunk).0 && out2 == out + Pass(levels[..k], chunk).1
  {
    var l, inner := levels[k - 1], levels[..k];
    var written := Pass(levels[..k - 1], if l.atLineStart && chunk[0] != '\n' then l.prefix else "").1;
    assert inner[..k - 1] == levels[..k - 1];
    ChunkPasses(inner, chunk, mid, end[..k - 1], written, Pass(mid, chunk).1);
    WrittenTwice(out, written, Pass(mid, chunk).1);
    assert end[..k] == end[..k - 1] + [end[k - 1]];
  }

  /** What has passed the `k` outermost writers, and then a chunk more. */
  lemma PassMore(start: seq<Level>, mid: seq<Level>, k: nat, done: string, chunk: string, out: string, out1: string)
    requires k <= |start| == |mid| && mid[..k] == Pass(start[..k], done).0 && out1 == out + Pass(start[..k], done).1
    ensures Pass(start[..k], done + chunk).0 == Pass(mid[..k], chunk).0
    ensures out + Pass(start[..k], done + chunk).1 == out1 + Pass(mid[..k], chunk).1
  {
    PassOfConcat(start[..k], done, chunk);
  }

  // ----- as the source runs it -----

  class Writers {
    var levels: seq<Level>
    var out: string

    constructor (levels: seq<Level>)
      ensures this.levels == levels && out == ""
    {
      this.levels, out := levels, "";
    }

    /** The `k` outermost writers have passed on `p` since they were `levels0`. */
    ghost predicate Passed(k: nat, levels0: seq<Level>, out0: string, p: string)
      reads this
    {
      && k <= |levels| == |levels0| && levels[k..] == levels0[k..]
      && levels[..k] == Pass(levels0[..k], p).0 && out == out0 + Pass(levels0[..k], p).1
    }

    /** Writes through the `k` outermost writers. */
    method Write(k: nat, p: string) returns (total: nat)
      requires k <= |levels|
      modifies this
      ensures total == |p| && Passed(k, old(levels), old(out), p)
      decreases k
    {
      if k == 0 {
        out := out + p;
        assert old(levels)[..0] == [];
        return |p|;
      }
      total := 0;
      var rest := p;
      ghost var start, out0, done := levels, out, "";
      PassNothing(levels[..k]);
      assert out + "" == out;
      while rest != ""
        invariant p == done + rest && total == |done| && Passed(k, start, out0, done)
        decreases |rest|
      {
        ghost var mid, out1 := levels, out;
        var cut := LineEnd(rest);
        var chunk := rest[..cut];
        var n := WriteLine(k, chunk);
        total := total + n;
        PassMore(start, mid, k, done, chunk, out0, out1);
        done := done + chunk;
        rest := rest[cut..];
      }
      assert done == p;
    }

    method WritePrefix(k: nat, c: char)
      requires 0 < k <= |levels|
      modifies this
      ensures |levels| == |old(levels)| && levels[k..] == old(levels)[k..]
      ensures var l := old(levels)[k - 1];
              var r := Pass(old(levels)[..k - 1], if l.atLineStart && c != '\n' then l.prefix else "");
              && levels[k - 1] == l.(atLineStart := l.atLineStart && c == '\n')
              && levels[..k - 1] == r.0 && out == old(out) + r.1
      decreases k, 0
    {
      var l := levels[k - 1];
      if l.atLineStart && c != '\n' {
        var _ := Write(k - 1, l.prefix);
        SameTail(levels, old(levels), k);
        levels := levels[k - 1 := l.(atLineStart := false)];
      } else {
        PassNothing(levels[..k - 1]);
      }
    }

    /** One chunk: text with at most one newline, at its end. */
    method WriteLine(k: nat, chunk: string) returns (n: nat)
      requires 0 < k <= |levels| && chunk != "" && '\n' !in chunk[..|chunk| - 1]
      modifies this
      ensures n == |chunk| && Passed(k, old(levels), old(out), chunk)
      decreases k, 1
    {
      WritePrefix(k, chunk[0]);
      ghost var mid, out1 := levels[..k - 1], out;
      if chunk[|chunk| - 1] == '\n' {
        levels := levels[k - 1 := levels[k - 1].(atLineStart := true)];
      }
      ghost var levels2 := levels;
      assert levels2[..k - 1] == mid;
      n := Write(k - 1, chunk);
      SameTail(levels, levels2, k);
      LinePasses(old(levels), old(out), chunk, k, mid, out1, levels, out);
    }

    method LineEnd(s: string) returns (cut: nat)
      requires s != ""
      ensures 0 < cut <= |s| && '\n' !in s[..cut - 1] && (s[cut - 1] == '\n' || cut == |s|)
    {
      for i := 0 to |s|
        invariant '\n' !in s[..i]
      {
        if s[i] == '\n' {
          return i + 1;
        }
      }
      return |s|;
    }
  }

  lemma SameTail(a: seq<Level>, b: seq<Level>, k: nat)
    requires 0 < k <= |a| == |b| && a[k - 1..] == b[k - 1..]
    ensures a[k - 1] == b[k - 1] && a[k..] == b[k..]
  {
    assert a[k - 1..][0] == b[k - 1..][0] && a[k - 1..][1..] == b[k - 1..][1..];
    assert a[k..] == a[k - 1..][1..] && b[k..] == b[k - 1..][1..];
  }
}
