/** The scan format language of core/zscanf.go: one tokeniser, and the hand-written parsers that
    must agree with it (validateScanFormat, countRemainingScanCodes, the format side of zscanRead,
    and the count in zscanfIntoRef). */
module ScanFormats {
  import opened Options
  import opened Numerals

  const MaxPosition := 100000

  predicate IsSpace(c: char) {
    c in {' ', '\t', '\n', '\r', '\U{0C}', '\U{0B}'}
  }

  /** What follows a `%`. `conv` is None when the format ends first; `body` is the inside of a
      character class; `position` is -1 without a `n$` part, `width` -1 without a width. */
  datatype Token = Token(position: int, suppress: bool, width: int, conv: Option<char>, body: string, after: string)

  function Digits(s: string): (n: nat)
    ensures n <= |s| && (forall i :: 0 <= i < n ==> IsDigit(s[i])) && (n < |s| ==> !IsDigit(s[n]))
  {
    if s == "" || !IsDigit(s[0]) then 0 else 1 + Digits(s[1..])
  }

  function Modifiers(s: string): (n: nat)
    ensures n <= |s|
  {
    if s == "" || s[0] !in {'h', 'l', 'L'} then 0
    else if |s| == 1 || s[1] !in {'h', 'l'} then 1
    else 2
  }

  /** Length of the text up to the next `]`. */
  function UntilBracket(s: string): (n: nat)
    ensures n <= |s| && (forall i :: 0 <= i < n ==> s[i] != ']') && (n < |s| ==> s[n] == ']')
  {
    if s == "" || s[0] == ']' then 0 else 1 + UntilBracket(s[1..])
  }

  /** Characters before the part of a class in which `]` closes it: `^`, then a literal `]`. */
  function ClassHead(s: string): (n: nat)
    ensures n <= |s|
  {
    var i := if s != "" && s[0] == '^' then 1 else 0;
    if i < |s| && s[i] == ']' then i + 1 else i
  }

  function ClassLength(s: string): (n: nat)
    ensures n <= |s| && (n < |s| ==> s[n] == ']')
  {
    ClassHead(s) + UntilBracket(s[ClassHead(s)..])
  }

  /** The optional `n$`, `*` and width at the start of a directive, and the text behind them. */
  datatype Head = Head(position: int, suppress: bool, width: int, rest: string)

  function ReadPosition(g: string): (r: (int, string))
    ensures |r.1| <= |g|
  {
    var j := Digits(g);
    var position: int := if 0 < j < |g| && g[j] == '$' then Atoi(g[..j]) else -1;
    (position, if position >= 0 then g[j + 1..] else g)
  }

  function ReadStar(g: string): (r: (bool, string))
    ensures |r.1| <= |g|
  {
    if g != "" && g[0] == '*' then (true, g[1..]) else (false, g)
  }

  function ReadWidth(g: string): (r: (int, string))
    ensures |r.1| <= |g|
  {
    var k := Digits(g);
    (if k > 0 then Atoi(g[..k]) else -1, g[k..])
  }

  function ReadHead(g: string): (h: Head)
    ensures |h.rest| <= |g|
  {
    var (position, g1) := ReadPosition(g);
    var (suppress, g2) := ReadStar(g1);
    var (width, g3) := ReadWidth(g2);
    Head(position, suppress, width, g3)
  }

  function Tokenise(g: string): (t: Token)
    ensures t.conv.Some? ==> |t.after| < |g|
  {
    var h := ReadHead(g);
    TokenOf(h.position, h.suppress, h.width, h.rest[Modifiers(h.rest)..])
  }

  function TokenOf(position: int, suppress: bool, width: int, g: string): (t: Token)
    ensures t.conv.Some? ==> |t.after| < |g|
  {
    if g == "" then Token(position, suppress, width, None, "", "")
    else if g[0] != '[' then Token(position, suppress, width, Some(g[0]), "", g[1..])
    else
      var n := ClassLength(g[1..]);
      Token(position, suppress, width, Some('['), g[1..][..n], AfterClass(g[1..][n..]))
  }

  function AfterClass(g: string): string {
    if g == "" then "" else g[1..]
  }

  predicate IsConversion(c: char) {
    c in {'d', 'i', 'o', 'x', 'X', 'u', 'f', 'e', 'E', 'g', 's', 'c', 'n', '['}
  }

  /** validateScanFormat: None accepts; '\0' stands for a format that ends inside a directive. */
  function Validate(f: string): Option<char>
    decreases |f|
  {
    if f == "" then None
    else if f[0] != '%' then Validate(f[1..])
    else if |f| > 1 && f[1] == '%' then Validate(f[2..])
    else
      var t := Tokenise(f[1..]);
      if t.conv.None? then Some('\0')
      else if !IsConversion(t.conv.value) then Some(t.conv.value)
      else Validate(t.after)
  }

  /** The unsuppressed conversions of a format, in order. */
  function Fields(f: string): seq<char>
    decreases |f|
  {
    if f == "" then []
    else if f[0] != '%' then Fields(f[1..])
    else if |f| > 1 && f[1] == '%' then Fields(f[2..])
    else
      var t := Tokenise(f[1..]);
      if t.conv.None? then []
      else (if t.suppress then [] else [t.conv.value]) + Fields(t.after)
  }

  /** No directive names an argument position above 0. */
  predicate Sequential(f: string)
    decreases |f|
  {
    if f == "" then true
    else if f[0] != '%' then Sequential(f[1..])
    else if |f| > 1 && f[1] == '%' then Sequential(f[2..])
    else
      var t := Tokenise(f[1..]);
      t.position <= 0 && (t.conv.Some? ==> Sequential(t.after))
  }

  // ----- the count in zscanfIntoRef, which does not know length modifiers -----

  function RefToken(g: string): (t: Token)
    ensures t.conv.Some? ==> |t.after| < |g|
  {
    var h := ReadHead(g);
    TokenOf(-1, h.suppress, -1, h.rest)
  }

  function RefCount(f: string): nat
    decreases |f|
  {
    if f == "" then 0
    else if f[0] != '%' then RefCount(f[1..])
    else if |f| > 1 && f[1] == '%' then RefCount(f[2..])
    else
      var t := RefToken(f[1..]);
      if t.conv.None? then 0
      else (if t.suppress then 0 else 1) + RefCount(t.after)
  }

  /** No character class with a length modifier, as in `%l[a-z]`, has a `%` in it. */
  predicate PlainClasses(f: string)
    decreases |f|
  {
    if f == "" then true
    else if f[0] != '%' then PlainClasses(f[1..])
    else if |f| > 1 && f[1] == '%' then PlainClasses(f[2..])
    else
      var t := Tokenise(f[1..]);
      t.conv.None? || ((Modifiers(ReadHead(f[1..]).rest) == 0 || '%' !in t.body) && PlainClasses(t.after))
  }

  /** The by-reference form counts the fields the array form counts. */
  lemma {:induction false} RefCountAgrees(f: string)
    requires Validate(f).None? && PlainClasses(f)
    ensures RefCount(f) == |Fields(f)|
    decreases |f|
  {
    if f == "" {
    } else if f[0] != '%' {
      RefCountAgrees(f[1..]);
    } else if |f| > 1 && f[1] == '%' {
      RefCountAgrees(f[2..]);
    } else {
      var t := Tokenise(f[1..]);
      RefCountAgrees(t.after);
      RefSkipsModifiers(ReadHead(f[1..]));
      DirectiveCounts(f, t, RefToken(f[1..]));
    }
  }

  lemma DirectiveCounts(f: string, t: Token, u: Token)
    requires f != "" && f[0] == '%' && (|f| == 1 || f[1] != '%') && t == Tokenise(f[1..]) && u == RefToken(f[1..])
    requires t.conv.Some? && u.conv.Some? && t.suppress == u.suppress
    ensures RefCount(f) == (if u.suppress then 0 else 1) + RefCount(u.after)
    ensures |Fields(f)| == (if t.suppress then 0 else 1) + |Fields(t.after)|
  {
  }

  function HeadToken(h: Head): Token {
    TokenOf(h.position, h.suppress, h.width, h.rest[Modifiers(h.rest)..])
  }

  /** After a length modifier the rest of the directive is passed over as literal text. */
  lemma RefSkipsModifiers(h: Head)
    requires var t := HeadToken(h);
             t.conv.Some? && IsConversion(t.conv.value) && (Modifiers(h.rest) == 0 || '%' !in t.body)
    ensures var t := TokenOf(-1, h.suppress, -1, h.rest);
            t.conv.Some? && t.suppress == HeadToken(h).suppress && RefCount(t.after) == RefCount(HeadToken(h).after)
  {
    var g, m := h.rest, Modifiers(h.rest);
    if m > 0 {
      DirectiveText(h.position, h.suppress, h.width, g[m..]);
      PassModifier(g, m, DirectiveLength(g[m..]));
    } else {
      assert g[0..] == g;
      SameAfter(h.position, h.width, h.suppress, g);
    }
  }

  lemma SameAfter(position: int, width: int, suppress: bool, g: string)
    ensures var (t, u) := (TokenOf(position, suppress, width, g), TokenOf(-1, suppress, -1, g));
            t.conv == u.conv && t.after == u.after && t.suppress == u.suppress
  {
  }

  lemma PassModifier(g: string, m: nat, n: nat)
    requires 0 < m == Modifiers(g) && m + n <= |g| && '%' !in g[m..][..n]
    ensures RefCount(g[1..]) == RefCount(g[m..][n..])
  {
    assert g[1..][..m - 1 + n] == g[1..m] + g[m..][..n];
    PassPlain(g[1..], m - 1 + n);
    assert g[1..][m - 1 + n..] == g[m..][n..];
  }

  /** Length of a conversion character with the class behind it. */
  function DirectiveLength(g: string): (n: nat)
    requires g != ""
    ensures n <= |g|
  {
    if g[0] != '[' then 1
    else
      var n := 1 + ClassLength(g[1..]);
      if n < |g| then n + 1 else n
  }

  lemma DirectiveText(position: int, suppress: bool, width: int, g: string)
    requires g != "" && IsConversion(g[0]) && '%' !in TokenOf(position, suppress, width, g).body
    ensures var n := DirectiveLength(g);
            '%' !in g[..n] && g[n..] == TokenOf(position, suppress, width, g).after
  {
    if g[0] == '[' {
      ClassText(g, g[1..], ClassLength(g[1..]));
    }
  }

  lemma ClassText(g: string, body: string, k: nat)
    requires g == ['['] + body && k <= |body| && (k < |body| ==> body[k] == ']') && '%' !in body[..k]
    ensures var n := if 1 + k < |g| then k + 2 else 1 + k;
            '%' !in g[..n] && g[n..] == AfterClass(body[k..])
  {
    var n := if 1 + k < |g| then k + 2 else 1 + k;
    forall i | 0 <= i < n ensures g[i] != '%' {
      if 0 < i <= k {
        assert g[i] == body[..k][i - 1];
      }
    }
  }

  /** Text without a `%` counts for nothing. */
  lemma {:induction false} PassPlain(f: string, n: nat)
    requires n <= |f| && '%' !in f[..n]
    ensures RefCount(f) == RefCount(f[n..])
    decreases n
  {
    if n == 0 {
      assert f[0..] == f;
    } else {
      assert f[0] == f[..n][0];
      assert f[1..][..n - 1] == f[..n][1..] && f[1..][n - 1..] == f[n..];
      PassPlain(f[1..], n - 1);
    }
  }

  lemma PassLiteral(f: string)
    ensures f != "" && f[0] != '%' ==> RefCount(f) == RefCount(f[1..])
  {
  }

  /** With a modifier, a class is counted as format text: the one field of `%l[%d]` is counted twice. */
  lemma ModifiedClassMiscounted(f: string, g: string)
    requires f == "%" + g && g == "l[%d]"
    ensures Validate(f).None? && |Fields(f)| == 1 && RefCount(f) == 2
  {
    NoHead(g);
    ModifierThenClass(g);
    ClassTextIsCounted(g);
    OneField(f, g, Tokenise(g));
  }

  lemma OneField(f: string, g: string, t: Token)
    requires f == "%" + g && g != "" && g[0] == 'l' && t == Tokenise(g) && t.conv == Some('[') && !t.suppress
      && t.after == ""
    requires ReadHead(g) == Head(-1, false, -1, g) && RefCount(g[1..]) == 1
    ensures Validate(f).None? && |Fields(f)| == 1 && RefCount(f) == 2
  {
    assert f[1..] == g && f[1] == 'l';
    EmptyFormat();
    OneFieldRef(f, g);
    assert Validate(f) == Validate(t.after);
    assert Fields(f) == ['['] + Fields(t.after);
  }

  lemma OneFieldRef(f: string, g: string)
    requires |f| > 1 && f[0] == '%' && f[1..] == g && g[0] == 'l' && ReadHead(g) == Head(-1, false, -1, g)
    ensures RefCount(f) == 1 + RefCount(g[1..])
  {
    assert f[1] == 'l';
    assert RefToken(g) == Token(-1, false, -1, Some('l'), "", g[1..]);
  }

  lemma EmptyFormat()
    ensures Fields("") == [] && Validate("") == None && RefCount("") == 0
  {
  }

  lemma NoHead(g: string)
    requires g != "" && !IsDigit(g[0]) && g[0] != '*'
    ensures ReadHead(g) == Head(-1, false, -1, g)
  {
    assert Digits(g) == 0;
  }

  lemma ModifierThenClass(g: string)
    requires g == "l[%d]"
    ensures TokenOf(-1, false, -1, g[Modifiers(g)..]) == Token(-1, false, -1, Some('['), "%d", "")
  {
    var b := g[1..][1..];
    assert b == "%d]" && b[0..] == b && b[1..] == "d]" && b[1..][1..] == "]";
    assert ClassHead(b) == 0;
    assert UntilBracket(b[1..][1..]) == 0;
    assert UntilBracket(b[1..]) == 1;
    assert UntilBracket(b) == 2;
    assert b[..2] == "%d" && b[2..][1..] == "";
  }

  lemma ClassTextIsCounted(g: string)
    requires g == "l[%d]"
    ensures RefCount(g[1..]) == 1
  {
    var r := g[1..];
    assert r[1..][1..] == "d]" && r[1..][0] == '%';
    NoHead("d]");
    PassLiteral(r);
    assert "d]"[1..] == "]" && "]"[1..] == "";
    PassLiteral("]");
    assert RefCount("") == 0;
  }
}
