/** Escaping a string for an error message (escapeMatchString in core/compiler/compile-match.go)
    against the two readers of quoted strings (compileQuoteConstant and unescapePhpQuotedString in
    core/compiler/compile-quote.go). */
module Escapes {
  import opened Options
  import opened Numerals

  // ----- escaping -----

  /** The letter that stands for a control character behind a backslash. */
  function Letter(c: char): Option<char> {
    match c
    case '\n' => Some('n')
    case '\r' => Some('r')
    case '\t' => Some('t')
    case '\U{0B}' => Some('v')
    case '\U{0C}' => Some('f')
    case _ => None
  }

  function EscapeChar(c: char): string {
    if Letter(c).Some? then ['\\', Letter(c).value]
    else if c == '\\' || c == '\'' then ['\\', c]
    else [c]
  }

  function EscapeAll(s: string): string {
    if s == "" then "" else EscapeChar(s[0]) + EscapeAll(s[1..])
  }

  /** The first `maxLen` characters, and an ellipsis when there are more. */
  function Body(s: string, maxLen: nat): string {
    if |s| > maxLen then EscapeAll(s[..maxLen]) + "..." else EscapeAll(s)
  }

  // ----- the readers -----

  /** compileQuoteConstant between the quotes. */
  function ReadConstant(s: string): string {
    if s == "" then ""
    else if s[0] != '\\' || |s| == 1 then s[..1] + ReadConstant(s[1..])
    else if s[1] == '\\' || s[1] == '\'' then s[1..2] + ReadConstant(s[2..])
    else s[..2] + ReadConstant(s[2..])
  }

  function Octal(s: string, n: nat): nat {
    if n == 0 || s == "" || !('0' <= s[0] <= '7') then 0 else 1 + Octal(s[1..], n - 1)
  }

  predicate IsHex(c: char) {
    '0' <= c <= '9' || 'a' <= c <= 'f' || 'A' <= c <= 'F'
  }

  function Hex(s: string, n: nat): nat {
    if n == 0 || s == "" || !IsHex(s[0]) then 0 else 1 + Hex(s[1..], n - 1)
  }

  function IndexOf(s: string, c: char): Option<nat> {
    if s == "" then None
    else if s[0] == c then Some(0)
    else
      var i := IndexOf(s[1..], c);
      if i.None? then None else Some(i.value + 1)
  }

  /** The bytes of the code point that hexadecimal digits stand for. */
  type CodePoints = string -> Option<string>

  /** The conversion byte(n). */
  function Byte(n: nat): (c: char)
    ensures c as int == n % 256
  {
    (n % 256) as char
  }

  /** What a backslash followed by `s` stands for, and how much of `s` it uses. */
  function Escape(points: CodePoints, s: string): (r: (string, nat))
    requires s != ""
    ensures 0 < r.1
  {
    var c := s[0];
    var literal := (['\\', c], 1);
    match c
    case 't' => ("\t", 1)
    case 'n' => ("\n", 1)
    case 'v' => (['\U{0B}'], 1)
    case 'f' => (['\U{0C}'], 1)
    case 'r' => ("\r", 1)
    case 'e' => (['\U{1B}'], 1)
    case '$' => ("$", 1)
    case '"' => ("\"", 1)
    case '\\' => ("\\", 1)
    case 'x' =>
      var k := Hex(s[1..], 2);
      if k == 0 || k + 1 > |s| then literal else ([Byte(Value(s[1..k + 1], 16))], k + 1)
    case 'u' =>
      var end := IndexOf(s, '}');
      if |s| < 3 || s[1] != '{' || end.None? || end.value < 2 || end.value >= |s| then literal
      else
        var p := points(s[2..end.value]);
        if p.None? then literal else (p.value, end.value + 1)
    case _ =>
      if '0' <= c <= '7' then
        var k := Octal(s[1..], 2) + 1;
        if k > |s| then literal else ([Byte(Value(s[..k], 8))], k)
      else literal
  }

  /** unescapePhpQuotedString. */
  function Unescape(points: CodePoints, s: string): string
    decreases |s|
  {
    if s == "" then ""
    else if s[0] != '\\' then s[..1] + Unescape(points, s[1..])
    else if |s| == 1 then s
    else
      var (text, used) := Escape(points, s[1..]);
      text + if 1 + used <= |s| then Unescape(points, s[1 + used..]) else ""
  }

  // ----- single escapes -----

  const Simple: map<char, char> := map['t' := '\t', 'n' := '\n', 'v' := '\U{0B}', 'f' := '\U{0C}', 'r' := '\r',
                                       'e' := '\U{1B}', '$' := '$', '"' := '"', '\\' := '\\']

  /** Behind a backslash one of these characters stands for one character, and any other one that
      begins no number for itself, with the backslash. */
  lemma SimpleEscape(points: CodePoints, c: char, rest: string)
    ensures c in Simple ==> Unescape(points, ['\\', c] + rest) == [Simple[c]] + Unescape(points, rest)
    ensures c !in Simple && c != 'x' && c != 'u' && !('0' <= c <= '7') ==>
      Unescape(points, ['\\', c] + rest) == ['\\', c] + Unescape(points, rest)
  {
    var s := ['\\', c] + rest;
    assert s[1..] == [c] + rest && (s[1..])[0] == c && s[2..] == rest;
  }

  lemma {:induction false} HexDigits(d: string, rest: string, k: nat)
    requires |d| <= k && (forall i :: 0 <= i < |d| ==> IsHex(d[i])) && (|d| == k || rest == "" || !IsHex(rest[0]))
    ensures Hex(d + rest, k) == |d|
    decreases d
  {
    if d == "" {
      assert d + rest == rest;
    } else {
      assert (d + rest)[0] == d[0] && (d + rest)[1..] == d[1..] + rest;
      HexDigits(d[1..], rest, k - 1);
    }
  }

  lemma {:induction false} OctalDigits(d: string, rest: string, k: nat)
    requires |d| <= k && (forall i :: 0 <= i < |d| ==> '0' <= d[i] <= '7')
    requires |d| == k || rest == "" || !('0' <= rest[0] <= '7')
    ensures Octal(d + rest, k) == |d|
    decreases d
  {
    if d == "" {
      assert d + rest == rest;
    } else {
      assert (d + rest)[0] == d[0] && (d + rest)[1..] == d[1..] + rest;
      OctalDigits(d[1..], rest, k - 1);
    }
  }

  /** The parts of a text with an escape in front. */
  lemma EscapeParts(s: string, g: string, used: nat, rest: string)
    requires s == ['\\'] + g && used <= |g| && g[used..] == rest && g != ""
    ensures |s| > 1 && s[0] == '\\' && s[1..] == g && s[1 + used..] == rest
  {
  }

  /** `\x` takes one or two hexadecimal digits, as many as there are. */
  lemma HexEscape(points: CodePoints, d: string, rest: string, g: string)
    requires 1 <= |d| <= 2 && (forall i :: 0 <= i < |d| ==> IsHex(d[i])) && (|d| == 2 || rest == "" || !IsHex(rest[0]))
    requires g == ['x'] + (d + rest)
    ensures Unescape(points, ['\\'] + g) == [Byte(Value(d, 16))] + Unescape(points, rest)
  {
    assert g[0] == 'x' && g[1..] == d + rest && g[1..|d| + 1] == d && g[|d| + 1..] == rest;
    HexDigits(d, rest, 2);
    HexIsTaken(points, g, d);
    EscapeParts(['\\'] + g, g, |d| + 1, rest);
    UnescapeGoesOn(points, ['\\'] + g, [Byte(Value(d, 16))], |d| + 1);
  }

  lemma HexIsTaken(points: CodePoints, g: string, d: string)
    requires 1 <= |d| < |g| && g[1..|d| + 1] == d && g[0] == 'x' && Hex(g[1..], 2) == |d|
    ensures Escape(points, g) == ([Byte(Value(d, 16))], |d| + 1)
  {
  }

  /** One to three octal digits are taken, as many as there are. */
  lemma OctalEscape(points: CodePoints, d: string, rest: string, g: string)
    requires 1 <= |d| <= 3 && (forall i :: 0 <= i < |d| ==> '0' <= d[i] <= '7')
    requires (|d| == 3 || rest == "" || !('0' <= rest[0] <= '7')) && g == d + rest
    ensures Unescape(points, ['\\'] + g) == [Byte(Value(d, 8))] + Unescape(points, rest)
  {
    assert g[0] == d[0] && g[1..] == d[1..] + rest && g[..|d|] == d && g[|d|..] == rest;
    OctalDigits(d[1..], rest, 2);
    OctalIsTaken(points, g, d);
    EscapeParts(['\\'] + g, g, |d|, rest);
    UnescapeGoesOn(points, ['\\'] + g, [Byte(Value(d, 8))], |d|);
  }

  lemma {:induction false} FirstBrace(d: string, rest: string)
    requires '}' !in d
    ensures IndexOf(d + ("}" + rest), '}') == Some(|d|)
    decreases d
  {
    var g := d + ("}" + rest);
    if d == "" {
      assert g == "}" + rest;
    } else {
      assert g[0] == d[0] && d[0] in d && g[1..] == d[1..] + ("}" + rest);
      FirstBrace(d[1..], rest);
    }
  }

  /** `\u{...}` takes all up to the brace, if it is a code point, and else stands for itself. */
  lemma CodePointEscape(points: CodePoints, d: string, rest: string, g: string)
    requires d != "" && '}' !in d && g == "u{" + (d + ("}" + rest))
    ensures points(d).Some? ==> Unescape(points, ['\\'] + g) == points(d).value + Unescape(points, rest)
    ensures points(d).None? ==> Unescape(points, ['\\'] + g) == "\\u" + Unescape(points, g[1..])
  {
    var tail := d + ("}" + rest);
    FirstBrace("u{" + d, rest);
    assert g == "u{" + d + ("}" + rest);
    assert g[0] == 'u' && g[1] == '{' && g[2..] == tail && g[2..|d| + 2] == d && g[|d| + 3..] == rest;
    CodePointIsTaken(points, g, d);
    if points(d).Some? {
      EscapeParts(['\\'] + g, g, |d| + 3, rest);
      UnescapeGoesOn(points, ['\\'] + g, points(d).value, |d| + 3);
    } else {
      EscapeParts(['\\'] + g, g, 1, g[1..]);
      UnescapeGoesOn(points, ['\\'] + g, "\\u", 1);
    }
  }

  lemma CodePointIsTaken(points: CodePoints, g: string, d: string)
    requires d != "" && |g| > |d| + 2 && g[0] == 'u' && g[1] == '{' && g[2..|d| + 2] == d
    requires IndexOf(g, '}') == Some(|d| + 2)
    ensures Escape(points, g) == if points(d).Some? then (points(d).value, |d| + 3) else ("\\u", 1)
  {
  }

  lemma OctalIsTaken(points: CodePoints, g: string, d: string)
    requires 1 <= |d| <= |g| && g[..|d|] == d && '0' <= g[0] <= '7' && Octal(g[1..], 2) + 1 == |d|
    ensures Escape(points, g) == ([Byte(Value(d, 8))], |d|)
  {
  }

  lemma UnescapeGoesOn(points: CodePoints, s: string, text: string, used: nat)
    requires |s| > 1 && s[0] == '\\' && Escape(points, s[1..]) == (text, used) && 1 + used <= |s|
    ensures Unescape(points, s) == text + Unescape(points, s[1 + used..])
  {
  }

  /** A byte written in base 16 is read as that byte. */
  lemma HexByteIsRead(points: CodePoints, b: char, rest: string, d: string, g: string)
    requires b as int < 256 && d == FormatUint(b as int, 16) && g == ['x'] + (d + rest)
    requires rest == "" || !IsHex(rest[0])
    ensures Unescape(points, ['\\'] + g) == [b] + Unescape(points, rest)
  {
    assert 1 <= |d| <= 2 && (forall i :: 0 <= i < |d| ==> IsHex(d[i])) && Byte(Value(d, 16)) == b by {
      NumeralOfByte(b as int, 16, d);
    }
    HexEscape(points, d, rest, g);
  }

  /** So is a byte written in base 8. */
  lemma OctalByteIsRead(points: CodePoints, b: char, rest: string, d: string, g: string)
    requires b as int < 256 && d == FormatUint(b as int, 8) && g == d + rest
    requires rest == "" || !('0' <= rest[0] <= '7')
    ensures Unescape(points, ['\\'] + g) == [b] + Unescape(points, rest)
  {
    assert 1 <= |d| <= 3 && (forall i :: 0 <= i < |d| ==> '0' <= d[i] <= '7') && Byte(Value(d, 8)) == b by {
      NumeralOfByte(b as int, 8, d);
    }
    OctalEscape(points, d, rest, g);
  }

  lemma NumeralOfByte(n: nat, base: nat, t: string)
    requires n < 256 && (base == 8 || base == 16) && t == FormatUint(n, base)
    ensures 1 <= |t| <= (if base == 8 then 3 else 2) && Value(t, base) == n
    ensures forall i :: 0 <= i < |t| ==> IsHex(t[i]) && (base == 8 ==> '0' <= t[i] <= '7')
  {
    FewDigits(n, base);
    FormatUintValue(n, base);
    FormatUintIsDigits(n, base);
    forall i | 0 <= i < |t| ensures IsHex(t[i]) && (base == 8 ==> '0' <= t[i] <= '7') {
      assert DigitValue(t[i]) < base;
    }
  }

  lemma FewDigits(n: nat, base: nat)
    requires n < 256 && (base == 8 || base == 16)
    ensures 1 <= |FormatUint(n, base)| <= if base == 8 then 3 else 2
  {
    if base == 8 { AtMostThree(n, n / 8, n / 64, 8); } else { AtMostThree(n, n / 16, 0, 16); }
  }

  lemma AtMostThree(n: nat, q: nat, r: nat, base: nat)
    requires 2 <= base <= 16 && q == n / base && r == q / base && r < base
    ensures |FormatUint(n, base)| == if n < base then 1 else if q < base then 2 else 3
  {
    assert |FormatUint(r, base)| == 1;
    assert |FormatUint(q, base)| == if q < base then 1 else 2;
  }

  // ----- what each reader makes of an escaped string -----

  /** A constant keeps the escapes of control characters. */
  function Spelled(s: string): string {
    if s == "" then "" else (if Letter(s[0]).Some? then EscapeChar(s[0]) else s[..1]) + Spelled(s[1..])
  }

  /** The other reader keeps the escapes of quotes. */
  function Quoted(s: string): string {
    if s == "" then "" else (if s[0] == '\'' then "\\'" else s[..1]) + Quoted(s[1..])
  }

  lemma Assoc(a: string, b: string, c: string)
    ensures a + b + c == a + (b + c)
  {
  }

  lemma ReadChar(e: string, rest: string)
    requires |e| == 1 && e[0] != '\\'
    ensures ReadConstant(e + rest) == e + ReadConstant(rest)
  {
    assert (e + rest)[1..] == rest && (e + rest)[..1] == e;
  }

  lemma ReadPair(e: string, rest: string)
    requires |e| == 2 && e[0] == '\\'
    ensures ReadConstant(e + rest) == (if e[1] == '\\' || e[1] == '\'' then e[1..] else e) + ReadConstant(rest)
  {
    assert (e + rest)[2..] == rest && (e + rest)[..2] == e && (e + rest)[1..2] == e[1..];
  }

  lemma {:induction false} ConstantReadsEscaped(s: string, t: string)
    ensures ReadConstant(EscapeAll(s) + t) == Spelled(s) + ReadConstant(t)
    decreases s
  {
    if s == "" {
      assert EscapeAll(s) + t == t && Spelled(s) + ReadConstant(t) == ReadConstant(t);
    } else {
      var e, rest := EscapeChar(s[0]), EscapeAll(s[1..]) + t;
      ConstantReadsEscaped(s[1..], t);
      Assoc(e, EscapeAll(s[1..]), t);
      if |e| == 1 {
        ReadChar(e, rest);
      } else {
        ReadPair(e, rest);
      }
      Assoc(if Letter(s[0]).Some? then e else s[..1], Spelled(s[1..]), ReadConstant(t));
    }
  }

  lemma UnescapeChar(points: CodePoints, e: string, rest: string)
    requires |e| == 1 && e[0] != '\\'
    ensures Unescape(points, e + rest) == e + Unescape(points, rest)
  {
    assert (e + rest)[1..] == rest && (e + rest)[..1] == e;
  }

  lemma UnescapePair(points: CodePoints, c: char, rest: string)
    requires |EscapeChar(c)| == 2
    ensures Unescape(points, EscapeChar(c) + rest) == (if c == '\'' then "\\'" else [c]) + Unescape(points, rest)
  {
    var whole := EscapeChar(c) + rest;
    assert whole[1..] == EscapeChar(c)[1..] + rest && whole[2..] == rest;
    EscapedChar(points, c, rest);
  }

  lemma EscapedChar(points: CodePoints, c: char, rest: string)
    requires |EscapeChar(c)| == 2
    ensures Escape(points, EscapeChar(c)[1..] + rest) == (if c == '\'' then "\\'" else [c], 1)
  {
  }

  lemma {:induction false} UnescapeReadsEscaped(points: CodePoints, s: string, t: string)
    ensures Unescape(points, EscapeAll(s) + t) == Quoted(s) + Unescape(points, t)
    decreases s
  {
    if s == "" {
      assert EscapeAll(s) + t == t && Quoted(s) + Unescape(points, t) == Unescape(points, t);
    } else {
      var e, rest := EscapeChar(s[0]), EscapeAll(s[1..]) + t;
      UnescapeReadsEscaped(points, s[1..], t);
      Assoc(e, EscapeAll(s[1..]), t);
      if |e| == 1 {
        UnescapeChar(points, e, rest);
      } else {
        UnescapePair(points, s[0], rest);
      }
      Assoc(if s[0] == '\'' then "\\'" else s[..1], Quoted(s[1..]), Unescape(points, t));
    }
  }

  predicate HasControl(s: string) {
    exists i :: 0 <= i < |s| && Letter(s[i]).Some?
  }

  lemma {:induction false} SpelledIsSame(a: string, b: string, c: string)
    ensures Spelled(a) + b == a + c <==> !HasControl(a) && b == c
    decreases a
  {
    if a == "" {
      assert Spelled(a) + b == b && a + c == c;
    } else {
      SpelledIsSame(a[1..], b, c);
      assert a == a[..1] + a[1..];
      assert HasControl(a) <==> Letter(a[0]).Some? || HasControl(a[1..]);
      Cancel(if Letter(a[0]).Some? then EscapeChar(a[0]) else a[..1], Spelled(a[1..]) + b, a[..1], a[1..] + c);
      assert Spelled(a) + b == (if Letter(a[0]).Some? then EscapeChar(a[0]) else a[..1]) + (Spelled(a[1..]) + b);
      assert a + c == a[..1] + (a[1..] + c);
    }
  }

  lemma {:induction false} QuotedIsSame(a: string, b: string, c: string)
    ensures Quoted(a) + b == a + c <==> '\'' !in a && b == c
    decreases a
  {
    if a == "" {
      assert Quoted(a) + b == b && a + c == c;
    } else {
      QuotedIsSame(a[1..], b, c);
      assert a == a[..1] + a[1..];
      Cancel(if a[0] == '\'' then "\\'" else a[..1], Quoted(a[1..]) + b, a[..1], a[1..] + c);
      assert Quoted(a) + b == (if a[0] == '\'' then "\\'" else a[..1]) + (Quoted(a[1..]) + b);
      assert a + c == a[..1] + (a[1..] + c);
    }
  }

  lemma Cancel(a: string, x: string, b: string, y: string)
    requires a != "" && b != "" && (a == b || a[0] != b[0])
    ensures a + x == b + y <==> a == b && x == y
  {
    assert (a + x)[0] == a[0] && (b + y)[0] == b[0];
    if a == b && a + x == b + y {
      assert x == (a + x)[|a|..] && y == (b + y)[|b|..];
    }
  }

  // ----- round trips -----

  /** The characters that escaping keeps, and whether the ellipsis reads as the rest. */
  function Kept(s: string, maxLen: nat): string {
    if |s| > maxLen then s[..maxLen] else s
  }

  predicate Whole(s: string, maxLen: nat) {
    |s| <= maxLen || s[maxLen..] == "..."
  }

  /** An escaped string, read as a constant, is the string again if and only if no kept character
      is a control character and nothing but an ellipsis was cut off. */
  lemma ConstantRoundTrip(s: string, maxLen: nat)
    ensures ReadConstant(Body(s, maxLen)) == s <==> !HasControl(Kept(s, maxLen)) && Whole(s, maxLen)
  {
    var (kept, dots) := (Kept(s, maxLen), if |s| > maxLen then "..." else "");
    assert Body(s, maxLen) == EscapeAll(kept) + dots;
    assert s == kept + s[|kept|..];
    ConstantReadsEscaped(kept, dots);
    ReadDots(dots);
    SpelledIsSame(kept, dots, s[|kept|..]);
  }

  /** Read as an interpolated string, it is so if and only if no kept character is a quote. */
  lemma UnescapeRoundTrip(points: CodePoints, s: string, maxLen: nat)
    ensures Unescape(points, Body(s, maxLen)) == s <==> '\'' !in Kept(s, maxLen) && Whole(s, maxLen)
  {
    var (kept, dots) := (Kept(s, maxLen), if |s| > maxLen then "..." else "");
    assert s == kept + s[|kept|..];
    UnescapedIs(points, kept, dots, Body(s, maxLen));
    QuotedIsSame(kept, dots, s[|kept|..]);
  }

  lemma UnescapedIs(points: CodePoints, kept: string, dots: string, t: string)
    requires '\\' !in dots && t == EscapeAll(kept) + dots
    ensures Unescape(points, t) == Quoted(kept) + dots
  {
    UnescapeReadsEscaped(points, kept, dots);
    PlainText(points, dots);
  }

  lemma {:induction false} PlainText(points: CodePoints, s: string)
    requires '\\' !in s
    ensures ReadConstant(s) == s && Unescape(points, s) == s
    decreases s
  {
    if s != "" {
      PlainText(points, s[1..]);
      assert s == s[..1] + s[1..];
    }
  }

  lemma ReadDots(dots: string)
    requires '\\' !in dots
    ensures ReadConstant(dots) == dots
  {
    PlainText(_ => None, dots);
  }

  // ----- as the source runs it -----

  method EscapeMatchString(s: string, maxLen: nat) returns (out: string)
    ensures out == "'" + Body(s, maxLen) + "'"
  {
    out := "'";
    var charCount, truncated, i := 0, false, 0;
    while i < |s|
      invariant i <= |s| && charCount == i && i <= maxLen && !truncated
      invariant out == "'" + EscapeAll(s[..i])
    {
      if charCount >= maxLen {
        truncated := true;
        break;
      }
      EscapeOneMore(s, i);
      if Letter(s[i]).Some? {
        out := out + ['\\', Letter(s[i]).value];
      } else if s[i] == '\\' {
        out := out + "\\\\";
      } else if s[i] == '\'' {
        out := out + "\\'";
      } else {
        out := out + [s[i]];
      }
      charCount, i := charCount + 1, i + 1;
    }
    assert i == |s| ==> s[..i] == s;
    out := out + if truncated then "...'" else "'";
  }

  lemma {:induction false} EscapeOneMore(s: string, i: nat)
    requires i < |s|
    ensures EscapeAll(s[..i + 1]) == EscapeAll(s[..i]) + EscapeChar(s[i])
    decreases i
  {
    if i == 0 {
      assert s[..1][1..] == "" && s[..0] == "";
    } else {
      EscapeOneMore(s[1..], i - 1);
      assert s[..i + 1][1..] == s[1..][..i] && s[..i][1..] == s[1..][..i - 1];
    }
  }

  /** Reads a quoted token; None where it is malformed. */
  method CompileQuoteConstant(data: string) returns (out: Option<string>)
    requires |data| >= 2
    ensures out == if data[0] != '\'' || data[|data| - 1] != '\'' then None else Some(ReadConstant(data[1..|data| - 1]))
  {
    if data[0] != '\'' || data[|data| - 1] != '\'' {
      return None;
    }
    var b := ReadBackslashes(data[1..|data| - 1]);
    return Some(b);
  }

  method ReadBackslashes(s: string) returns (b: string)
    ensures b == ReadConstant(s)
  {
    b := "";
    var i := 0;
    while i < |s|
      invariant i <= |s| && b + ReadConstant(s[i..]) == ReadConstant(s)
    {
      var from := i;
      var piece := [s[i]];
      if s[i] == '\\' && i + 1 < |s| {
        i := i + 1;
        piece := if s[i] == '\\' || s[i] == '\'' then [s[i]] else ['\\', s[i]];
      }
      i := i + 1;
      ReadPiece(s, from, i, piece);
      Assoc(b, piece, ReadConstant(s[i..]));
      b := b + piece;
    }
    assert s[i..] == "";
  }

  lemma ReadPiece(s: string, from: nat, to: nat, piece: string)
    requires from < to <= |s|
    requires if s[from] != '\\' || from + 1 == |s| then to == from + 1 && piece == [s[from]]
             else to == from + 2 && piece == if s[from + 1] == '\\' || s[from + 1] == '\'' then [s[from + 1]]
               else ['\\', s[from + 1]]
    ensures ReadConstant(s[from..]) == piece + ReadConstant(s[to..])
  {
    var rest := s[from..];
    assert rest[to - from..] == s[to..];
    if to == from + 2 {
      assert rest[1..2] == [s[from + 1]] && rest[..2] == ['\\', s[from + 1]];
    } else {
      assert rest[..1] == [s[from]];
    }
  }

  /** The loop over the octal digits behind a backslash. */
  method ReadOctal(s: string) returns (b: char, used: nat)
    requires s != "" && '0' <= s[0] <= '7'
    ensures used == 1 + Octal(s[1..], 2) && used <= |s| && b == Byte(Value(s[..used], 8))
  {
    var oct: nat := DigitValue(s[0]);
    used := 1;
    OneDigitValue(s, oct);
    while used < 3 && used < |s|
      invariant 1 <= used <= 3 && used <= |s| && oct == Value(s[..used], 8)
      invariant 1 + Octal(s[1..], 2) == used + Octal(s[used..], 3 - used)
    {
      if !('0' <= s[used] <= '7') {
        break;
      }
      MoreDigitsValue(s, used);
      assert s[used..][1..] == s[used + 1..];
      oct, used := oct * 8 + DigitValue(s[used]), used + 1;
    }
    b := Byte(oct);
  }

  lemma OneDigitValue(s: string, n: nat)
    requires s != "" && n == DigitValue(s[0])
    ensures Value(s[..1], 8) == n
  {
    assert s[..1][..0] == "" && Value("", 8) == 0;
  }

  lemma MoreDigitsValue(s: string, i: nat)
    requires i < |s|
    ensures Value(s[..i + 1], 8) == Value(s[..i], 8) * 8 + DigitValue(s[i])
  {
    assert s[..i + 1][..i] == s[..i];
  }

  method UnescapePhpQuotedString(points: CodePoints, s: string) returns (out: string)
    ensures out == Unescape(points, s)
  {
    out := "";
    var rest := s;
    while rest != ""
      invariant out + Unescape(points, rest) == Unescape(points, s)
      decreases |rest|
    {
      if rest[0] != '\\' {
        Assoc(out, rest[..1], Unescape(points, rest[1..]));
        out, rest := out + rest[..1], rest[1..];
      } else if |rest| == 1 {
        return out + rest;
      } else {
        var (text, used) := Escape(points, rest[1..]);
        var next := if 1 + used <= |rest| then rest[1 + used..] else "";
        Assoc(out, text, Unescape(points, next));
        out, rest := out + text, next;
      }
    }
  }
}
