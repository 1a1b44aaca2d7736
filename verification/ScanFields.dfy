/** What each conversion of core/zscanf.go reads from the input, and which characters a class holds. */
module ScanFields {
  import opened Options
  import opened Numerals
  import opened ScanFormats
  import opened Scanf

  // ----- runs of characters -----

  /** `n` is the length of the longest run of characters that `ok` admits, within the width. */
  ghost predicate LongestRun(s: string, n: nat, width: int, ok: char -> bool) {
    && n <= |s| && (width >= 0 ==> n <= width)
    && (forall i :: 0 <= i < n ==> ok(s[i]))
    && (n < |s| && n != width ==> !ok(s[n]))
  }

  lemma {:induction false} SpacesAreLongest(s: string)
    ensures LongestRun(s, Spaces(s), -1, c => IsSpace(c))
  {
    if s != "" && IsSpace(s[0]) { SpacesAreLongest(s[1..]); }
  }

  lemma {:induction false} NonSpacesAreLongest(s: string, width: int)
    ensures LongestRun(s, NonSpaceRun(s, width), if width < 0 then -1 else width, c => !IsSpace(c))
    decreases s
  {
    if width != 0 && s != "" && !IsSpace(s[0]) { NonSpacesAreLongest(s[1..], width - 1); }
  }

  lemma {:induction false} DigitsAreLongest(s: string, base: nat, width: int)
    ensures LongestRun(s, DigitRun(s, base, width), if width < 0 then -1 else width, c => DigitValue(c) < base)
    decreases s
  {
    if width != 0 && s != "" && DigitValue(s[0]) < base {
      DigitsAreLongest(s[1..], base, if width > 0 then width - 1 else width);
    }
  }

  lemma {:induction false} ClassIsLongest(s: string, body: string, width: int)
    ensures LongestRun(s, ClassRun(s, body, width), if width < 0 then -1 else width, c => InClass(c, body))
    decreases s
  {
    if width != 0 && s != "" && InClass(s[0], body) { ClassIsLongest(s[1..], body, width - 1); }
  }

  // ----- conversions -----

  predicate Directs(t: Token, conv: char) {
    t.conv == Some(conv)
  }

  /** `%s` skips blanks and reads the longest word within the width; without a word it fails. */
  lemma WordIsRead(w: Readers, t: Token, s: string, consumed: nat, k: nat, n: nat)
    requires Directs(t, 's') && LongestRun(s, k, -1, c => IsSpace(c))
    requires LongestRun(s[k..], n, if t.width < 0 then -1 else t.width, c => !IsSpace(c))
    ensures Convert(w, t, s, consumed) ==
      if n == 0 then Fails else Got(StrV(s[k..k + n]), s[k + n..], consumed + k + n)
  {
    SpacesAreLongest(s);
    SameRun(s, k, Spaces(s), -1, c => IsSpace(c));
    NonSpacesAreLongest(s[k..], t.width);
    SameRun(s[k..], n, NonSpaceRun(s[k..], t.width), if t.width < 0 then -1 else t.width, c => !IsSpace(c));
    assert s[k..][..n] == s[k..k + n] && s[k..][n..] == s[k + n..];
  }

  /** There is one longest run. */
  lemma SameRun(s: string, m: nat, n: nat, width: int, ok: char -> bool)
    requires LongestRun(s, m, width, ok) && LongestRun(s, n, width, ok)
    ensures m == n
  {
  }

  /** `%c` skips nothing and reads one character, or as many as its width says, up to a blank; at the
      end of the input it fails. */
  lemma CharactersAreRead(w: Readers, t: Token, s: string, consumed: nat, n: nat)
    requires Directs(t, 'c') && LongestRun(s, n, if t.width > 0 then t.width else 1, c => !IsSpace(c))
    ensures Convert(w, t, s, consumed) == if s == "" then Fails else Got(StrV(s[..n]), s[n..], consumed + n)
  {
    var width := if t.width > 0 then t.width else 1;
    NonSpacesAreLongest(s, width);
    SameRun(s, n, NonSpaceRun(s, width), width, c => !IsSpace(c));
  }

  /** `%[...]` skips nothing and reads the longest run out of its class, null where there is none. */
  lemma ClassIsRead(w: Readers, t: Token, s: string, consumed: nat, n: nat)
    requires Directs(t, '[') && !Endless(t.body, ClassHead(t.body))
    requires LongestRun(s, n, if t.width < 0 then -1 else t.width, c => InClass(c, t.body))
    ensures Convert(w, t, s, consumed) == Got(if n == 0 then Null else StrV(s[..n]), s[n..], consumed + n)
  {
    ClassIsLongest(s, t.body, t.width);
    SameRun(s, n, ClassRun(s, t.body, t.width), if t.width < 0 then -1 else t.width, c => InClass(c, t.body));
  }

  /** `%n` stores what has been consumed and reads nothing. */
  lemma CountIsStored(w: Readers, t: Token, s: string, consumed: nat)
    requires Directs(t, 'n')
    ensures Convert(w, t, s, consumed) == Got(IntV(consumed), s, consumed)
  {
  }

  lemma BlanksAreCounted(s: string, k: nat)
    requires LongestRun(s, k, -1, c => IsSpace(c))
    ensures k == Spaces(s)
  {
    SpacesAreLongest(s);
    SameRun(s, k, Spaces(s), -1, c => IsSpace(c));
  }

  lemma DigitsAreCounted(g: string, base: nat, width: int, n: nat)
    requires LongestRun(g, n, if width < 0 then -1 else width, c => DigitValue(c) < base)
    ensures n == DigitRun(g, base, width)
  {
    DigitsAreLongest(g, base, width);
    SameRun(g, n, DigitRun(g, base, width), if width < 0 then -1 else width, c => DigitValue(c) < base);
  }

  /** An integer conversion skips blanks and reads a sign, which counts in the width, and the longest
      run of digits behind it. */
  lemma IntegerIsRead(w: Readers, t: Token, s: string, consumed: nat, k: nat, sign: string, base: nat, n: nat)
    requires t.conv.Some? && t.conv.value in {'d', 'o', 'x', 'X', 'u'}
    requires base == (if t.conv.value == 'o' then 8 else if t.conv.value in {'x', 'X'} then 16 else 10)
    requires LongestRun(s, k, -1, c => IsSpace(c)) && k < |s| && t.width != 0 && (t.width == 1 ==> sign == "")
    requires sign == if s[k] == '-' || s[k] == '+' then s[k..k + 1] else ""
    requires var g := s[k + |sign|..];
             && !(base == 16 && |g| >= 2 && g[0] == '0' && g[1] in {'x', 'X'})
             && LongestRun(g, n, if t.width < 0 then -1 else t.width - |sign|, c => DigitValue(c) < base)
    ensures var g := s[k + |sign|..];
            var v := ToInteger(sign + g[..n], base);
            Convert(w, t, s, consumed) ==
              if n == 0 || v.None? then Fails
              else
                Got(if t.conv.value == 'u' then Unsigned(v.value) else IntV(v.value), g[n..], consumed + k + |sign| + n)
  {
    BlanksAreCounted(s, k);
    RunIsRead(s[k..], sign, base, t.width, n, s[k + |sign|..]);
    IntegerDelivered(w, t, s, consumed, k, sign, base, n, s[k + |sign|..]);
  }

  /** Sign and digits in front of everything else. */
  lemma RunIsRead(h: string, sign: string, base: nat, width: int, n: nat, g: string)
    requires base > 0 && h != "" && width != 0 && (width == 1 ==> sign == "")
    requires sign == (if h[0] == '-' || h[0] == '+' then [h[0]] else "") && g == h[|sign|..] && !HexPrefix(g, base)
    requires LongestRun(g, n, if width < 0 then -1 else width - |sign|, c => DigitValue(c) < base)
    ensures ReadInt(h, base, width) == Int64Read(if n == 0 then None else ToInteger(sign + g[..n], base), g[n..])
  {
    var inner := if width < 0 then width else width - |sign|;
    DigitsAreCounted(g, base, inner, n);
    IntegerParts(h, sign, base, width, inner, g);
  }

  /** What the digits deliver. */
  lemma IntegerDelivered(w: Readers, t: Token, s: string, consumed: nat, k: nat, sign: string, base: nat, n: nat,
      g: string)
    requires t.conv.Some? && t.conv.value in {'d', 'o', 'x', 'X', 'u'} && base == Base(t.conv.value)
    requires k == Spaces(s) && k + |sign| <= |s| && g == s[k + |sign|..] && n <= |g|
    requires ReadInt(s[k..], base, t.width) ==
      Int64Read(if n == 0 then None else ToInteger(sign + g[..n], base), g[n..])
    ensures var v := ToInteger(sign + g[..n], base);
            Convert(w, t, s, consumed) ==
              if n == 0 || v.None? then Fails
              else
                Got(if t.conv.value == 'u' then Unsigned(v.value) else IntV(v.value), g[n..], consumed + k + |sign| + n)
  {
    ConvertsInteger(w, t, s, consumed);
    Delivers(t.conv.value, if n == 0 then None else ToInteger(sign + g[..n], base), g[n..], s, consumed);
    assert |s| - |g[n..]| == k + |sign| + n;
  }

  lemma ConvertsInteger(w: Readers, t: Token, s: string, consumed: nat)
    requires t.conv.Some? && t.conv.value in {'d', 'o', 'x', 'X', 'u'}
    ensures Convert(w, t, s, consumed) ==
      Deliver(t.conv.value, ReadInt(s[Spaces(s)..], Base(t.conv.value), t.width), s, consumed)
  {
  }

  lemma Delivers(conv: char, v: Option<int>, rest: string, s: string, consumed: nat)
    requires |rest| <= |s|
    ensures Deliver(conv, Int64Read(v, rest), s, consumed) ==
      if v.None? then Fails
      else Got(if conv == 'u' then Unsigned(v.value) else IntV(v.value), rest, consumed + (|s| - |rest|))
  {
  }

  lemma IntegerParts(h: string, sign: string, base: nat, width: int, inner: int, g: string)
    requires h != "" && sign == (if h[0] == '-' || h[0] == '+' then h[..1] else "") && g == h[|sign|..]
    requires width != 0 && (width == 1 ==> sign == "") && inner == if width < 0 then width else width - |sign|
    requires !HexPrefix(g, base)
    ensures ReadInt(h, base, width) == ReadRun(sign, g, base, inner)
  {
    if sign == "" {
      assert g == h;
      NoSignIsRead(h, base, width);
    } else {
      SignIsRead(h, base, width);
    }
    MagnitudeIsRead(sign, g, base, inner);
  }

  lemma NoSignIsRead(h: string, base: nat, width: int)
    requires h != "" && !Signed(h)
    ensures ReadInt(h, base, width) == ReadMagnitude("", h, base, width)
  {
  }

  lemma SignIsRead(h: string, base: nat, width: int)
    requires h != "" && Signed(h)
    ensures ReadInt(h, base, width) == ReadMagnitude(h[..1], h[1..], base, if width > 0 then width - 1 else width)
  {
  }

  lemma MagnitudeIsRead(sign: string, g: string, base: nat, width: int)
    requires width != 0 && !HexPrefix(g, base)
    ensures ReadMagnitude(sign, g, base, width) == ReadRun(sign, g, base, width)
  {
  }

  /** A hexadecimal conversion skips `0x` behind the sign; it counts in the width. */
  lemma PrefixIsSkipped(h: string, sign: string, x: char, g: string, width: int, n: nat)
    requires sign in {"", "+", "-"} && x in {'x', 'X'} && h == sign + ("0" + ([x] + g))
    requires width < 0 || width > |sign| + 2
    requires LongestRun(g, n, if width < 0 then -1 else width - |sign| - 2, c => DigitValue(c) < 16)
    ensures ReadInt(h, 16, width) == Int64Read(if n == 0 then None else ToInteger(sign + g[..n], 16), g[n..])
  {
    var t := "0" + ([x] + g);
    var last := if width < 0 then width else width - |sign| - 2;
    assert t[0] == '0' && t[1] == x && t[2..] == g;
    DigitsAreCounted(g, 16, last, n);
    SignBeforePrefix(h, sign, t, width);
    PrefixedMagnitude(sign, t, g, if width < 0 then width else width - |sign|, last);
  }

  lemma SignBeforePrefix(h: string, sign: string, t: string, width: int)
    requires sign in {"", "+", "-"} && t != "" && t[0] == '0' && h == sign + t && (width < 0 || width > |sign|)
    ensures ReadInt(h, 16, width) == ReadMagnitude(sign, t, 16, if width < 0 then width else width - |sign|)
  {
    if sign == "" {
      assert h == t;
      NoSignIsRead(h, 16, width);
    } else {
      assert h[0] == sign[0] && h[..1] == sign && h[1..] == t;
      SignIsRead(h, 16, width);
    }
  }

  lemma PrefixedMagnitude(sign: string, t: string, g: string, width: int, last: int)
    requires HexPrefix(t, 16) && t[2..] == g && width != 0 && last == if width > 0 then width - 2 else width
    ensures ReadMagnitude(sign, t, 16, width) == ReadRun(sign, g, 16, last)
  {
  }

  /** `%u` gives the number modulo 2^64, as an integer while that fits, else as its decimal numeral. */
  lemma UnsignedValue(n: int)
    requires IsInt64(n)
    ensures var u := n % Two64;
            if u < Two63 then Unsigned(n) == IntV(u)
            else Unsigned(n).StrV? && AllDigits(Unsigned(n).s, 10) && Value(Unsigned(n).s, 10) == u
  {
    var u := n % Two64;
    assert u == if n < 0 then n + Two64 else n;
    FormatUintIsDigits(u, 10);
    FormatUintValue(u, 10);
  }

  // ----- the directive is read as written -----

  /** A position (0: none), a star, a width (0: none), length letters and a conversion. */
  datatype Spec = Spec(position: nat, suppress: bool, width: nat, letters: string, conv: char)

  ghost predicate ValidSpec(d: Spec) {
    && d.position < Two63 && d.width < Two63
    && d.letters in {"", "h", "l", "L", "hh", "hl", "lh", "ll", "Lh", "Ll"}
    && !IsDigit(d.conv) && d.conv !in {'h', 'l', 'L', '*', '$', '%'}
  }

  function Number(n: nat): string {
    if n == 0 then "" else FormatUint(n, 10)
  }

  function Text(d: Spec, rest: string): string {
    (if d.position == 0 then "" else Number(d.position) + "$")
    + ((if d.suppress then "*" else "") + (Number(d.width) + (d.letters + ([d.conv] + rest))))
  }

  lemma {:induction false} NumberIsRead(t: string, tail: string)
    requires AllDigits(t, 10) && (tail == "" || !IsDigit(tail[0]))
    ensures Digits(t + tail) == |t|
    decreases t
  {
    if t == "" {
      assert t + tail == tail;
    } else {
      assert DigitValue(t[0]) < 10 && (t + tail)[0] == t[0] && (t + tail)[1..] == t[1..] + tail;
      NumberIsRead(t[1..], tail);
    }
  }

  lemma NumberMeans(n: nat)
    ensures AllDigits(Number(n), 10) && (n > 0 ==> Number(n) != "" && Value(Number(n), 10) == n)
    ensures n > 0 && n < Two63 ==> Atoi(Number(n)) == n
    ensures n > 0 ==> IsDigit(Number(n)[0])
  {
    if n > 0 {
      FormatUintIsDigits(n, 10);
      FormatUintValue(n, 10);
      assert DigitValue(Number(n)[0]) < 10;
    }
  }

  lemma LettersAreSkipped(letters: string, conv: char, rest: string)
    requires letters in {"", "h", "l", "L", "hh", "hl", "lh", "ll", "Lh", "Ll"} && conv !in {'h', 'l', 'L'}
    ensures var g := letters + ([conv] + rest); Modifiers(g) == |letters| && g[|letters|..] == [conv] + rest
  {
    var g := letters + ([conv] + rest);
    assert g[|letters|] == conv;
  }

  lemma WidthIsRead(n: nat, tail: string)
    requires n < Two63 && tail != "" && !IsDigit(tail[0])
    ensures ReadWidth(Number(n) + tail) == (if n == 0 then -1 else n as int, tail)
  {
    var g := Number(n) + tail;
    NumberMeans(n);
    NumberIsRead(Number(n), tail);
    assert g[..|Number(n)|] == Number(n) && g[|Number(n)|..] == tail;
  }

  lemma StarIsRead(suppress: bool, tail: string)
    requires tail != "" && tail[0] != '*'
    ensures ReadStar((if suppress then "*" else "") + tail) == (suppress, tail)
  {
    var g := (if suppress then "*" else "") + tail;
    if suppress { assert g[0] == '*' && g[1..] == tail; } else { assert g == tail; }
  }

  lemma PlaceIsRead(n: nat, tail: string)
    requires n < Two63 && (n == 0 ==> (Digits(tail) < |tail| ==> tail[Digits(tail)] != '$'))
    ensures ReadPosition((if n == 0 then "" else Number(n) + "$") + tail) == (if n == 0 then -1 else n as int, tail)
  {
    var g := (if n == 0 then "" else Number(n) + "$") + tail;
    if n == 0 {
      assert g == tail;
    } else {
      NumberMeans(n);
      NumberIsRead(Number(n), "$" + tail);
      assert g == Number(n) + ("$" + tail) && g[..|Number(n)|] == Number(n);
      assert g[|Number(n)|] == '$' && g[|Number(n)| + 1..] == tail;
    }
  }

  /** A directive is read as it is written, whatever follows it. */
  lemma DirectiveIsRead(d: Spec, rest: string)
    requires ValidSpec(d) && d.conv != '['
    ensures Tokenise(Text(d, rest)) ==
      Token(if d.position == 0 then -1 else d.position as int, d.suppress, if d.width == 0 then -1 else d.width as int,
        Some(d.conv), "", rest)
  {
    HeadIsRead(d, rest);
    LettersAreSkipped(d.letters, d.conv, rest);
    var g := [d.conv] + rest;
    assert g[0] == d.conv && g[1..] == rest;
  }

  /** The same for a character class, whose text ends with its bracket. */
  lemma ClassDirectiveIsRead(d: Spec, body: string, after: string)
    requires ValidSpec(d) && d.conv == '[' && ClassLength(body + ("]" + after)) == |body|
    ensures Tokenise(Text(d, body + ("]" + after))) ==
      Token(if d.position == 0 then -1 else d.position as int, d.suppress, if d.width == 0 then -1 else d.width as int,
        Some('['), body, after)
  {
    var rest := body + ("]" + after);
    HeadIsRead(d, rest);
    LettersAreSkipped(d.letters, d.conv, rest);
    var g := [d.conv] + rest;
    assert g[0] == '[' && g[1..] == rest && rest[..|body|] == body && rest[|body|..] == "]" + after;
  }

  lemma HeadIsRead(d: Spec, rest: string)
    requires ValidSpec(d)
    ensures ReadHead(Text(d, rest)) ==
      Head(if d.position == 0 then -1 else d.position as int, d.suppress, if d.width == 0 then -1 else d.width as int,
        d.letters + ([d.conv] + rest))
  {
    var end := d.letters + ([d.conv] + rest);
    var sized := Number(d.width) + end;
    var starred := (if d.suppress then "*" else "") + sized;
    assert end[0] == if d.letters == "" then d.conv else d.letters[0];
    WidthIsRead(d.width, end);
    NumberMeans(d.width);
    assert sized[0] == if d.width == 0 then end[0] else Number(d.width)[0];
    StarIsRead(d.suppress, sized);
    if d.suppress {
      assert starred[0] == '*';
    } else {
      assert starred == sized;
      NumberIsRead(Number(d.width), end);
      assert starred[|Number(d.width)|] == end[0];
    }
    PlaceIsRead(d.position, starred);
    assert Text(d, rest) == (if d.position == 0 then "" else Number(d.position) + "$") + starred;
  }

  // ----- the answer as an array -----

  /** The answer is null only for a scan that stored nothing, on input that is empty or, where a
      conversion failed, has nothing but blanks in what is looked at; otherwise it is the values, and
      nulls for the fields that got none. */
  lemma AnswerOf(w: Readers, f: string, input: string, values: seq<Val>, failed: bool)
    requires Scan(w, Start(f, input)) == Done(values, failed) && |values| <= |Fields(f)|
    ensures IntoArray(w, f, input) == Nothing <==>
      values == [] && (input == "" || (failed && forall i :: 0 <= i < |input| && i < 4096 ==> IsSpace(input[i])))
    ensures IntoArray(w, f, input) != Nothing ==>
      && IntoArray(w, f, input).Array? && |IntoArray(w, f, input).slots| == |Fields(f)|
      && IntoArray(w, f, input).slots[..|values|] == values
      && forall i :: |values| <= i < |Fields(f)| ==> IntoArray(w, f, input).slots[i] == Null
  {
    var peeked := if |input| > Peeked then input[..Peeked] else input;
    assert AllSpace(peeked) <==> forall i :: 0 <= i < |input| && i < 4096 ==> IsSpace(input[i]) by {
      assert forall i :: 0 <= i < |peeked| ==> peeked[i] == input[i];
    }
  }

  // ----- literal text -----

  /** `st` is in front of the same literal character in the format and in the input. */
  predicate AtLiteral(st: State) {
    st.f != "" && st.f[0] != '%' && !IsSpace(st.f[0]) && st.s != "" && st.s[0] == st.f[0]
  }

  function Behind(st: State): State
    requires AtLiteral(st)
  {
    State(st.f[1..], st.s[1..], st.consumed + 1, st.values)
  }

  ghost predicate PassesLiterals(scan: State -> Outcome) {
    forall st: State {:trigger AtLiteral(st)} :: AtLiteral(st) ==> scan(st) == scan(Behind(st))
  }

  lemma {:induction false} LiteralIsPassed(scan: State -> Outcome, text: string, f: string, s: string, consumed: nat,
      values: seq<Val>)
    requires PassesLiterals(scan) && forall i :: 0 <= i < |text| ==> text[i] != '%' && !IsSpace(text[i])
    ensures scan(State(text + f, text + s, consumed, values)) == scan(State(f, s, consumed + |text|, values))
    decreases |text|
  {
    if text == "" {
      assert text + f == f && text + s == s;
    } else {
      var st := State(text + f, text + s, consumed, values);
      assert AtLiteral(st);
      assert st.f[1..] == text[1..] + f && st.s[1..] == text[1..] + s;
      LiteralIsPassed(scan, text[1..], f, s, consumed + 1, values);
    }
  }

  /** Text of the format that is neither blank nor a percent sign is matched character by character. */
  lemma LiteralIsMatched(w: Readers, text: string, f: string, s: string, consumed: nat, values: seq<Val>)
    requires forall i :: 0 <= i < |text| ==> text[i] != '%' && !IsSpace(text[i])
    ensures Scan(w, State(text + f, text + s, consumed, values)) == Scan(w, State(f, s, consumed + |text|, values))
  {
    var scan := st => Scan(w, st);
    forall st: State | AtLiteral(st) ensures scan(st) == scan(Behind(st)) {
      LiteralStep(w, st);
      ScanGoesOn(w, st, Behind(st));
    }
    LiteralIsPassed(scan, text, f, s, consumed, values);
  }

  lemma LiteralStep(w: Readers, st: State)
    requires AtLiteral(st)
    ensures Step(w, st) == Next(Behind(st))
  {
  }

  /** Where the input has another character the scan ends with what it has. */
  lemma MismatchEnds(w: Readers, st: State)
    requires st.f != "" && st.f[0] != '%' && !IsSpace(st.f[0]) && (st.s == "" || st.s[0] != st.f[0])
    ensures Scan(w, st) == Done(st.values, false)
  {
  }

  /** `%%` stands for a percent sign. */
  lemma PercentIsMatched(w: Readers, f: string, s: string, consumed: nat, values: seq<Val>)
    ensures Scan(w, State("%%" + f, "%" + s, consumed, values)) == Scan(w, State(f, s, consumed + 1, values))
  {
    var st := State("%%" + f, "%" + s, consumed, values);
    assert st.f[0] == '%' && st.f[1] == '%' && st.f[2..] == f && st.s[0] == '%' && st.s[1..] == s;
    PercentStep(w, st);
    ScanGoesOn(w, st, State(f, s, consumed + 1, values));
  }

  lemma PercentStep(w: Readers, st: State)
    requires |st.f| > 1 && st.f[0] == '%' && st.f[1] == '%' && st.s != "" && st.s[0] == '%'
    ensures Step(w, st) == Next(State(st.f[2..], st.s[1..], st.consumed + 1, st.values))
  {
  }

  lemma ScanGoesOn(w: Readers, st: State, next: State)
    requires st.f != "" && Step(w, st) == Next(next)
    ensures Scan(w, st) == Scan(w, next)
  {
  }

  // ----- positions -----

  /** A value with a position goes to its place; places in front that have none yet are unset. */
  lemma StoredInPlace(values: seq<Val>, position: int, v: Val)
    requires position > 0
    ensures var r := Store(values, position, v);
            && |r| == (if |values| < position then position else |values|) && r[position - 1] == v
            && (forall i :: 0 <= i < |values| && i != position - 1 ==> r[i] == values[i])
            && (forall i :: |values| <= i < position - 1 ==> r[i] == Unset)
  {
  }

  /** A directive that reads a value stores it at its position, or not at all behind a star, and the
      scan goes on behind it. */
  lemma ValueIsStored(w: Readers, st: State, t: Token, v: Val, s: string, consumed: nat)
    requires AtDirective(st.f) && t == Tokenise(st.f[1..]) && t.position <= 100000 && t.conv.Some?
    requires Convert(w, t, st.s, st.consumed) == Got(v, s, consumed)
    ensures Step(w, st) ==
      Next(State(t.after, s, consumed, if t.suppress then st.values else Store(st.values, t.position, v)))
  {
  }

  // ----- the characters of a class -----

  datatype Item = One(c: char) | Span(from: char, to: char)

  function ItemText(i: Item): string {
    match i case One(c) => [c] case Span(a, b) => [a, '-', b]
  }

  function ItemsText(items: seq<Item>): string {
    if items == [] then "" else ItemText(items[0]) + ItemsText(items[1..])
  }

  /** Every item begins with a character other than `-`. */
  ghost predicate Plain(items: seq<Item>) {
    forall i :: 0 <= i < |items| ==> ItemText(items[i])[0] != '-'
  }

  predicate Holds(i: Item, c: char) {
    match i case One(x) => c == x case Span(a, b) => a <= c <= b
  }

  ghost predicate HeldBySome(items: seq<Item>, c: char) {
    exists i :: 0 <= i < |items| && Holds(items[i], c)
  }

  lemma {:induction false} ItemsAreHeld(items: seq<Item>, body: string, i: nat, c: char)
    requires Plain(items) && i <= |body| && body[i..] == ItemsText(items)
    ensures InItems(c, body, i) <==> HeldBySome(items, c)
    decreases items
  {
    if items != [] {
      var text, rest := ItemText(items[0]), ItemsText(items[1..]);
      assert body[i..] == text + rest;
      assert body[i + |text|..] == rest by { assert body[i..][|text|..] == rest; }
      assert rest != "" ==> items[1..] != [] && rest[0] == ItemText(items[1])[0];
      assert body[i] == text[0] && (rest != "" ==> body[i + |text|] == rest[0]);
      if items[0].Span? {
        assert body[i..][1] == '-' && body[i..][2] == text[2];
      }
      ItemsAreHeld(items[1..], body, i + |text|, c);
      assert items == [items[0]] + items[1..];
      assert HeldBySome(items, c) <==> Holds(items[0], c) || HeldBySome(items[1..], c) by {
        if HeldBySome(items[1..], c) {
          var j :| 0 <= j < |items[1..]| && Holds(items[1..][j], c);
          assert Holds(items[j + 1], c);
        }
        if HeldBySome(items, c) && !Holds(items[0], c) {
          var j :| 0 <= j < |items| && Holds(items[j], c);
          assert Holds(items[1..][j - 1], c);
        }
      }
    }
  }

  /** A class written from items holds what one of them holds; with `^` in front, everything else. */
  lemma ClassOfItems(items: seq<Item>, c: char)
    requires Plain(items) && items != [] && ItemText(items[0])[0] != '^' && ItemText(items[0])[0] != ']'
    ensures InClass(c, ItemsText(items)) <==> HeldBySome(items, c)
    ensures InClass(c, "^" + ItemsText(items)) <==> !HeldBySome(items, c)
  {
    var body, negated := ItemsText(items), "^" + ItemsText(items);
    assert body[0] == ItemText(items[0])[0] && negated[0] == '^' && negated[1] == body[0];
    assert body[0..] == body && negated[1..] == body;
    ItemsAreHeld(items, body, 0, c);
    ItemsAreHeld(items, negated, 1, c);
  }

  /** A bracket right at the beginning belongs to the class. */
  lemma BracketInClass(items: seq<Item>, c: char)
    requires Plain(items)
    ensures InClass(c, "]" + ItemsText(items)) <==> c == ']' || HeldBySome(items, c)
  {
    var body := "]" + ItemsText(items);
    assert body[0] == ']' && body[1..] == ItemsText(items);
    ItemsAreHeld(items, body, 1, c);
  }
}
