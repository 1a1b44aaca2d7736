/** Printing integers and scanning them back: ZFprintf in core/zprintf.go against zscanRead in
    core/zscanf.go. */
module PrintScan {
  import opened Options
  import opened Numerals
  import P = Printf
  import F = ScanFormats
  import S = Scanf

  /** An integer directive: flags out of `+`, `-`, `0` and space, then a width, then a conversion. */
  datatype Spec = Spec(flags: string, width: nat, conv: char)

  predicate IsFlag(c: char) {
    c in {'+', '-', '0', ' '}
  }

  predicate Valid(d: Spec) {
    (forall i :: 0 <= i < |d.flags| ==> IsFlag(d.flags[i])) && d.width <= P.MaxWidth
      && d.conv in {'d', 'o', 'x', 'X', 'u'}
  }

  function WidthText(width: nat): string {
    if width == 0 then "" else FormatUint(width, 10)
  }

  /** The directive as written, without its `%`. */
  function Text(d: Spec): string {
    d.flags + (WidthText(d.width) + [d.conv])
  }

  function Effect(flags: string, o: P.Flags): P.Flags {
    if flags == "" then o
    else
      var c := flags[0];
      Effect(flags[1..], if c == '-' then o.(left := true) else if c == '+' then o.(plus := true) else o.(pad := c))
  }

  function FlagsOf(d: Spec): P.Flags {
    Effect(d.flags, P.Flags(false, false, ' '))
  }

  function FieldText(d: Spec, v: int): string {
    P.Pad(P.WithPlus(FlagsOf(d), d.conv, P.IntegerText(d.conv, v)), d.width, FlagsOf(d))
  }

  // ----- the directive is read as written -----

  lemma {:induction false} FlagsAreRead(flags: string, rest: string, o: P.Flags)
    requires (forall i :: 0 <= i < |flags| ==> IsFlag(flags[i])) && rest != "" && !IsFlag(rest[0]) && rest[0] != '\''
    ensures P.ReadFlags(flags + rest, o) == P.Read(Effect(flags, o), rest)
  {
    var g := flags + rest;
    if flags == "" {
      assert g == rest;
    } else {
      var c := flags[0];
      assert IsFlag(c) && g[0] == c && g[1..] == flags[1..] + rest;
      FlagsAreRead(flags[1..], rest,
        if c == '-' then o.(left := true) else if c == '+' then o.(plus := true) else o.(pad := c));
    }
  }

  lemma {:induction false} DigitsAreRead(s: string, rest: string)
    requires AllDigits(s, 10) && (rest == "" || !IsDigit(rest[0]))
    ensures F.Digits(s + rest) == |s|
  {
    if s == "" {
      assert s + rest == rest;
    } else {
      assert DigitValue(s[0]) < 10 && (s + rest)[1..] == s[1..] + rest;
      DigitsAreRead(s[1..], rest);
    }
  }

  lemma WidthTextIsDigits(width: nat)
    ensures AllDigits(WidthText(width), 10)
    ensures width > 0 ==>
      WidthText(width) != "" && IsDigit(WidthText(width)[0]) && WidthText(width)[0] != '0'
      && Value(WidthText(width), 10) == width
  {
    if width > 0 {
      FormatUintIsDigits(width, 10);
      FormatUintValue(width, 10);
      assert DigitValue(WidthText(width)[0]) < 10;
    }
  }

  /** A run of digits in front of something else is read as a size. */
  lemma SizeIsRead(t: string, rest: string)
    requires AllDigits(t, 10) && Value(t, 10) <= P.MaxWidth && rest != "" && !IsDigit(rest[0]) && rest[0] != '*'
    ensures P.ReadSize(t + rest) == (if t == "" then P.Absent else P.Fixed(Value(t, 10)), rest)
  {
    var g := t + rest;
    DigitsAreRead(t, rest);
    assert t != "" ==> DigitValue(t[0]) < 10 && g[0] == t[0];
    assert t == "" ==> g == rest;
    assert g[..|t|] == t && g[|t|..] == rest;
  }

  lemma WidthIsRead(width: nat, conv: char, rest: string)
    requires width <= P.MaxWidth && conv in {'d', 'o', 'x', 'X', 'u'}
    ensures P.ReadWidth(WidthText(width) + [conv] + rest)
         == (if width == 0 then P.Absent else P.Fixed(width), P.Absent, [conv] + rest)
  {
    var t, tail := WidthText(width), [conv] + rest;
    WidthTextIsDigits(width);
    assert tail[0] == conv;
    SizeIsRead(t, tail);
    assert t + [conv] + rest == t + tail;
  }

  lemma NoPosition(g: string, m: nat)
    requires m < |g| && !IsDigit(g[m]) && forall i :: 0 <= i <= m ==> g[i] != '$'
    ensures P.ReadPosition(g) == (None, g)
  {
    var j := F.Digits(g);
    assert j <= m;
  }

  lemma TextHasNoPosition(d: Spec, rest: string)
    requires Valid(d)
    ensures P.ReadPosition(Text(d) + rest) == (None, Text(d) + rest)
  {
    var t := WidthText(d.width);
    var g := Text(d) + rest;
    var m := |d.flags| + |t|;
    WidthTextIsDigits(d.width);
    assert g[m] == d.conv;
    forall i | 0 <= i <= m ensures g[i] != '$' {
      if i < |d.flags| {
        assert g[i] == d.flags[i] && IsFlag(d.flags[i]);
      } else if i < m {
        assert g[i] == t[i - |d.flags|];
        assert DigitValue(t[i - |d.flags|]) < 10;
      }
    }
    NoPosition(g, m);
  }

  lemma DirectiveIsRead(c: P.Casts, d: Spec, rest: string, args: seq<P.Arg>, argp: nat, v: int)
    requires Valid(d) && argp < |args| && args[argp] == P.IntA(v)
    ensures P.Directive(c, Text(d) + rest, args, argp) == P.Field(FieldText(d, v), rest, argp + 1)
  {
    var g2 := WidthText(d.width) + [d.conv] + rest;
    TextHasNoPosition(d, rest);
    WidthTextIsDigits(d.width);
    assert Text(d) + rest == d.flags + g2;
    FlagsAreRead(d.flags, g2, P.Flags(false, false, ' '));
    SizedIsRead(c, FlagsOf(d), d, rest, args, argp, v);
  }

  lemma SizedIsRead(c: P.Casts, o: P.Flags, d: Spec, rest: string, args: seq<P.Arg>, argp: nat, v: int)
    requires Valid(d) && argp < |args| && args[argp] == P.IntA(v) && o == FlagsOf(d)
    ensures P.Sized(c, o, 0, WidthText(d.width) + [d.conv] + rest, args, argp) ==
      P.Field(FieldText(d, v), rest, argp + 1)
  {
    WidthIsRead(d.width, d.conv, rest);
    var g1 := [d.conv] + rest;
    assert g1[0] == d.conv && g1[1..] == rest;
  }

  // ----- the shape of a field -----

  function Sign(d: Spec, v: int): string {
    if d.conv != 'd' then "" else if v < 0 then "-" else if FlagsOf(d).plus then "+" else ""
  }

  /** The number whose digits are printed. */
  function Magnitude(conv: char, v: int): nat {
    if conv != 'd' then P.Uint(v) else if v < 0 then -v else v
  }

  function Numeral(conv: char, v: int): string {
    var s := FormatUint(Magnitude(conv, v), S.Base(conv));
    if conv == 'X' then ToUpper(s) else s
  }

  lemma NumeralValue(conv: char, v: int)
    requires conv in {'d', 'o', 'x', 'X', 'u'}
    ensures var s := Numeral(conv, v);
            s != "" && AllDigits(s, S.Base(conv)) && Value(s, S.Base(conv)) == Magnitude(conv, v) && !Signed(s)
  {
    var s, base := FormatUint(Magnitude(conv, v), S.Base(conv)), S.Base(conv);
    FormatUintIsDigits(Magnitude(conv, v), base);
    FormatUintValue(Magnitude(conv, v), base);
    if conv == 'X' {
      UpperKeepsValue(s, base);
    }
    assert DigitValue(Numeral(conv, v)[0]) < 16;
  }

  function Body(d: Spec, v: int): string {
    Sign(d, v) + Numeral(d.conv, v)
  }

  lemma BodyIsPrinted(d: Spec, v: int)
    requires Valid(d)
    ensures P.WithPlus(FlagsOf(d), d.conv, P.IntegerText(d.conv, v)) == Body(d, v)
  {
    NumeralValue(d.conv, v);
  }

  lemma {:induction false} PadIsBlankOrZero(flags: string, o: P.Flags)
    requires (forall i :: 0 <= i < |flags| ==> IsFlag(flags[i])) && (o.pad == ' ' || o.pad == '0')
    ensures var p := Effect(flags, o).pad; p == ' ' || p == '0'
  {
    if flags != "" {
      var c := flags[0];
      assert IsFlag(c);
      PadIsBlankOrZero(flags[1..],
        if c == '-' then o.(left := true) else if c == '+' then o.(plus := true) else o.(pad := c));
    }
  }

  function Gap(d: Spec, v: int): nat {
    if d.width > |Body(d, v)| then d.width - |Body(d, v)| else 0
  }

  /** The digits of the field, with the zeros it is padded with. */
  function PaddedDigits(d: Spec, v: int): string {
    if FlagsOf(d).pad != '0' then Numeral(d.conv, v)
    else if FlagsOf(d).left then Numeral(d.conv, v) + Repeat('0', Gap(d, v))
    else Repeat('0', Gap(d, v)) + Numeral(d.conv, v)
  }

  function Before(d: Spec, v: int): nat {
    if FlagsOf(d).pad == ' ' && !FlagsOf(d).left then Gap(d, v) else 0
  }

  function Behind(d: Spec, v: int): nat {
    if FlagsOf(d).pad == ' ' && FlagsOf(d).left then Gap(d, v) else 0
  }

  /** Every field is blanks, a sign, digits, blanks. */
  lemma FieldShape(d: Spec, v: int)
    requires Valid(d)
    ensures FieldText(d, v) == Repeat(' ', Before(d, v)) + Sign(d, v) + PaddedDigits(d, v) + Repeat(' ', Behind(d, v))
  {
    var o, gap := FlagsOf(d), Gap(d, v);
    var sign, digits := Sign(d, v), Numeral(d.conv, v);
    PadIsBlankOrZero(d.flags, P.Flags(false, false, ' '));
    BodyIsPrinted(d, v);
    NumeralValue(d.conv, v);
    P.RepeatAscii(o.pad, gap);
    PaddedShape(o, sign, digits, d.width);
    assert FieldText(d, v) == Laid(o, sign, digits, gap);
    LaidOut(o, sign, digits, gap);
  }

  function Laid(o: P.Flags, sign: string, digits: string, gap: nat): string {
    if o.left then sign + digits + Repeat(o.pad, gap)
    else if o.pad == ' ' then Repeat(' ', gap) + sign + digits
    else sign + Repeat('0', gap) + digits
  }

  lemma LaidOut(o: P.Flags, sign: string, digits: string, gap: nat)
    requires o.pad == ' ' || o.pad == '0'
    ensures Laid(o, sign, digits, gap)
         == Repeat(' ', if o.pad == ' ' && !o.left then gap else 0) + sign
            + (if o.pad != '0' then digits else if o.left then digits + Repeat('0', gap) else Repeat('0', gap) + digits)
            + Repeat(' ', if o.pad == ' ' && o.left then gap else 0)
  {
    assert Repeat(' ', 0) == "";
  }

  lemma PaddedShape(o: P.Flags, sign: string, digits: string, width: nat)
    requires (o.pad == ' ' || o.pad == '0') && sign in {"", "+", "-"} && digits != "" && !Signed(digits)
    ensures var gap: nat := if width > |sign + digits| then width - |sign + digits| else 0;
            P.RepeatText(P.Utf8(o.pad), gap) == Repeat(o.pad, gap) ==>
            P.Pad(sign + digits, width, o) == Laid(o, sign, digits, gap)
  {
    var body := sign + digits;
    if sign == "" {
      assert body == digits;
    } else {
      assert body[..1] == sign && body[1..] == digits;
    }
    assert Repeat(o.pad, 0) == "" && Repeat('0', 0) == "";
  }

  // ----- scanning a field -----

  lemma {:induction false} DigitRunStops(s: string, base: nat, after: string)
    requires AllDigits(s, base) && base <= 16 && (after == "" || after[0] == ' ')
    ensures S.DigitRun(s + after, base, -1) == |s|
  {
    if s == "" {
      assert s + after == after;
    } else {
      assert (s + after)[1..] == s[1..] + after;
      DigitRunStops(s[1..], base, after);
    }
  }

  lemma FieldIsRead(sign: string, digits: string, base: nat, after: string)
    requires sign in {"", "+", "-"} && digits != "" && AllDigits(digits, base) && base <= 16
    requires after == "" || after[0] == ' '
    ensures S.ReadInt(sign + digits + after, base, -1) == S.Int64Read(S.ToInteger(sign + digits, base), after)
  {
    DigitsAreCollected(sign, digits, base, after);
    Assoc(sign, digits, after);
    if sign == "" {
      FirstDigit(digits, base, after);
      assert sign + (digits + after) == digits + after;
      UnsignedRead(digits + after, base);
    } else {
      SignedRead(sign, digits + after, sign + (digits + after), base);
    }
  }

  lemma FirstDigit(digits: string, base: nat, after: string)
    requires digits != "" && AllDigits(digits, base) && base <= 16
    ensures digits + after != "" && !Signed(digits + after)
  {
    assert DigitValue(digits[0]) < 16 && (digits + after)[0] == digits[0];
  }

  lemma UnsignedRead(s: string, base: nat)
    requires s != "" && !Signed(s)
    ensures S.ReadInt(s, base, -1) == S.ReadMagnitude("", s, base, -1)
  {
  }

  lemma SignedRead(sign: string, rest: string, s: string, base: nat)
    requires (sign == "+" || sign == "-") && s == sign + rest
    ensures S.ReadInt(s, base, -1) == S.ReadMagnitude(sign, rest, base, -1)
  {
    assert s[..1] == sign && s[1..] == rest;
  }

  lemma DigitsAreCollected(sign: string, digits: string, base: nat, after: string)
    requires digits != "" && AllDigits(digits, base) && base <= 16 && (after == "" || after[0] == ' ')
    ensures S.ReadMagnitude(sign, digits + after, base, -1) == S.Int64Read(S.ToInteger(sign + digits, base), after)
  {
    var s := digits + after;
    NoHexPrefix(digits, base, after);
    DigitRunStops(digits, base, after);
    assert s[..|digits|] == digits && s[|digits|..] == after;
  }

  lemma NoHexPrefix(digits: string, base: nat, after: string)
    requires digits != "" && AllDigits(digits, base) && base <= 16 && (after == "" || after[0] == ' ')
    ensures !S.HexPrefix(digits + after, base)
  {
    var s := digits + after;
    if |s| >= 2 {
      assert s[1] == if |digits| >= 2 then digits[1] else after[0];
      assert |digits| >= 2 ==> DigitValue(digits[1]) < 16;
    }
  }

  /** The integer a sign and digits stand for, once wrapped to 64 bits. */
  function Meaning(sign: string, m: nat): Option<int> {
    if sign == "-" then if m > Two63 then None else Some(0 - m)
    else if m >= Two64 then None else Some(ToInt64(m))
  }

  lemma ParsedMeaning(sign: string, digits: string, base: nat)
    requires sign in {"", "+", "-"} && digits != "" && AllDigits(digits, base) && 2 <= base <= 16
    ensures S.ToInteger(sign + digits, base) == Meaning(sign, Value(digits, base))
  {
    var s := sign + digits;
    assert DigitValue(digits[0]) < 16;
    if sign == "" {
      assert s == digits;
      assert ParseInt(s, base) == if Value(digits, base) < Two63 then Some(Value(digits, base) as int) else None;
    } else {
      assert s[0] == sign[0] && s[1..] == digits;
      if sign == "-" {
        NotADigit(s, base);
      } else {
        assert S.TrimPlus(s) == digits;
      }
    }
  }

  lemma NotADigit(s: string, base: nat)
    requires s != "" && s[0] == '-' && base <= 16
    ensures ParseUint(s, base).None? && ParseUint(S.TrimPlus(s), base).None?
  {
    assert DigitValue(s[0]) == 16;
  }

  lemma {:induction false} BlanksAreSkipped(k: nat, s: string)
    requires s == "" || !F.IsSpace(s[0])
    ensures S.Spaces(Repeat(' ', k) + s) == k && (Repeat(' ', k) + s)[k..] == s
    decreases k
  {
    var t := Repeat(' ', k) + s;
    if k == 0 {
      assert t == s;
    } else {
      assert t[1..] == Repeat(' ', k - 1) + s;
      BlanksAreSkipped(k - 1, s);
    }
  }

  /** What scanning gives for a value printed with a conversion. */
  function Expected(conv: char, v: int): S.Val {
    if conv == 'u' then S.Unsigned(v) else S.IntV(v)
  }

  /** The printed digits are the value's, unless zeros were appended to them. */
  predicate Faithful(d: Spec, v: int) {
    !(FlagsOf(d).left && FlagsOf(d).pad == '0' && d.width > |Body(d, v)| && v != 0)
  }

  lemma ZerosKeepDigits(s: string, k: nat, base: nat)
    requires AllDigits(s, base) && base >= 2
    ensures AllDigits(s + Repeat('0', k), base) && AllDigits(Repeat('0', k) + s, base)
  {
    assert DigitValue('0') == 0;
  }

  lemma MagnitudeIsZero(conv: char, v: int)
    requires IsInt64(v)
    ensures Magnitude(conv, v) == 0 <==> v == 0
  {
  }

  lemma PaddedValue(d: Spec, v: int)
    requires Valid(d) && IsInt64(v)
    ensures var s, base := PaddedDigits(d, v), S.Base(d.conv);
            && s != "" && AllDigits(s, base)
            && Value(s, base) >= Magnitude(d.conv, v)
            && (Value(s, base) == Magnitude(d.conv, v) <==> Faithful(d, v))
  {
    var s, base, k := Numeral(d.conv, v), S.Base(d.conv), Gap(d, v);
    NumeralValue(d.conv, v);
    MagnitudeIsZero(d.conv, v);
    LeadingZeros(k, s, base);
    TrailingZeros(s, k, base);
    ZerosKeepDigits(s, k, base);
    assert k == 0 ==> s + Repeat('0', k) == s;
  }

  lemma MeaningOfMagnitude(d: Spec, v: int, m: nat)
    requires Valid(d) && IsInt64(v) && m >= Magnitude(d.conv, v)
    ensures var n := Meaning(Sign(d, v), m);
            (n == Some(v) <==> m == Magnitude(d.conv, v)) && (n.Some? ==> IsInt64(n.value))
  {
  }

  /** `s` is read by `conv` as `v`, leaving `after`. */
  predicate ReadsAs(conv: char, s: string, consumed: nat, v: S.Val, after: string) {
    |after| <= |s| && S.ScanInteger(conv, s, -1, consumed) == S.Got(v, after, consumed + |s| - |after|)
  }

  /** `s` is a printed integer between blanks, and `rest` is what is left behind its digits. */
  predicate Around(d: Spec, v: int, k: nat, after: string, s: string, rest: string) {
    && s == Repeat(' ', k) + FieldText(d, v) + after
    && rest == Repeat(' ', Behind(d, v)) + after
    && (after == "" || after[0] == ' ')
  }

  /** A printed integer is scanned back as its value, if and only if it is not left-justified with
      zeros behind it; the scan then stops right behind its digits. */
  lemma FieldRoundTrip(d: Spec, v: int, k: nat, after: string, s: string, rest: string, consumed: nat)
    requires Valid(d) && IsInt64(v) && Around(d, v, k, after, s, rest)
    ensures ReadsAs(d.conv, s, consumed, Expected(d.conv, v), rest) <==> Faithful(d, v)
  {
    FieldIsScanned(d, v, k, after, s, rest);
    ScannedMeaning(d, v);
    ScanDecides(d.conv, s, consumed, v, rest, Scanned(d, v));
  }

  /** The integer that the digits of a field stand for. */
  function Scanned(d: Spec, v: int): Option<int> {
    Meaning(Sign(d, v), Value(PaddedDigits(d, v), S.Base(d.conv)))
  }

  lemma ScannedMeaning(d: Spec, v: int)
    requires Valid(d) && IsInt64(v)
    ensures Scanned(d, v).Some? ==> IsInt64(Scanned(d, v).value)
    ensures Scanned(d, v) == Some(v) <==> Faithful(d, v)
  {
    PaddedValue(d, v);
    MeaningOfMagnitude(d, v, Value(PaddedDigits(d, v), S.Base(d.conv)));
  }

  lemma ScanDecides(conv: char, s: string, consumed: nat, v: int, rest: string, n: Option<int>)
    requires IsInt64(v) && |rest| <= |s| && (n.Some? ==> IsInt64(n.value))
    requires S.ReadInt(s[S.Spaces(s)..], S.Base(conv), -1) == S.Int64Read(n, rest)
    ensures ReadsAs(conv, s, consumed, Expected(conv, v), rest) <==> n == Some(v)
  {
    DeliverDecides(conv, s, consumed, v, rest, n);
    assert S.ScanInteger(conv, s, -1, consumed) == S.Deliver(conv, S.Int64Read(n, rest), s, consumed);
  }

  lemma FieldIsScanned(d: Spec, v: int, k: nat, after: string, s: string, rest: string)
    requires Valid(d) && IsInt64(v) && Around(d, v, k, after, s, rest)
    ensures |rest| <= |s|
    ensures S.ReadInt(s[S.Spaces(s)..], S.Base(d.conv), -1)
         == S.Int64Read(Scanned(d, v), rest)
  {
    PaddedValue(d, v);
    FieldAfterBlanks(d, v, k, after);
    FieldIsRead(Sign(d, v), PaddedDigits(d, v), S.Base(d.conv), rest);
    ParsedMeaning(Sign(d, v), PaddedDigits(d, v), S.Base(d.conv));
    FieldShape(d, v);
  }

  lemma FieldAfterBlanks(d: Spec, v: int, k: nat, after: string)
    requires Valid(d) && IsInt64(v)
    ensures var s := Repeat(' ', k) + FieldText(d, v) + after;
            s[S.Spaces(s)..] == Sign(d, v) + PaddedDigits(d, v) + (Repeat(' ', Behind(d, v)) + after)
  {
    FieldShape(d, v);
    PaddedValue(d, v);
    AfterBlanks(k, Before(d, v), Sign(d, v), PaddedDigits(d, v), Repeat(' ', Behind(d, v)), after, S.Base(d.conv));
  }

  lemma AfterBlanks(k: nat, before: nat, sign: string, digits: string, behind: string, after: string, base: nat)
    requires sign in {"", "+", "-"} && digits != "" && AllDigits(digits, base) && base <= 16
    ensures var s := Repeat(' ', k) + (Repeat(' ', before) + sign + digits + behind) + after;
            s[S.Spaces(s)..] == sign + digits + (behind + after)
  {
    var core := sign + digits + (behind + after);
    assert DigitValue(digits[0]) < 16;
    assert core[0] == if sign == "" then digits[0] else sign[0];
    BlanksAreSkipped(k + before, core);
    BlanksJoin(k, before, core);
    Regroup(Repeat(' ', k), Repeat(' ', before), sign, digits, behind, after);
  }

  lemma Assoc(a: string, b: string, c: string)
    ensures a + b + c == a + (b + c)
  {
  }

  lemma Regroup(a: string, b: string, c: string, d: string, e: string, f: string)
    ensures a + (b + c + d + e) + f == a + (b + (c + d + (e + f)))
  {
    var cd := c + d;
    Assoc(b, c, d);
    Assoc(b, cd, e);
    Assoc(a, b + (cd + e), f);
    Assoc(b, cd + e, f);
    Assoc(cd, e, f);
  }

  lemma BlanksJoin(a: nat, b: nat, s: string)
    ensures Repeat(' ', a) + (Repeat(' ', b) + s) == Repeat(' ', a + b) + s
  {
    assert Repeat(' ', a) + Repeat(' ', b) == Repeat(' ', a + b);
  }

  lemma DeliverDecides(conv: char, s: string, consumed: nat, v: int, rest: string, n: Option<int>)
    requires IsInt64(v) && |rest| <= |s| && (n.Some? ==> IsInt64(n.value))
    ensures (S.Deliver(conv, S.Int64Read(n, rest), s, consumed)
        == S.Got(Expected(conv, v), rest, consumed + |s| - |rest|)) <==> n == Some(v)
  {
    if n.Some? {
      UnsignedInjective(n.value, v);
    }
  }

  lemma UnsignedInjective(a: int, b: int)
    requires IsInt64(a) && IsInt64(b)
    ensures S.Unsigned(a) == S.Unsigned(b) <==> a == b
  {
    var x, y := if a < 0 then a + Two64 else a, if b < 0 then b + Two64 else b;
    FormatUintValue(x, 10);
    FormatUintValue(y, 10);
  }

  // ----- whole formats -----

  function PrintFormat(ds: seq<Spec>): string {
    if ds == [] then "" else "%" + Text(ds[0]) + " " + PrintFormat(ds[1..])
  }

  function ScanFormat(ds: seq<Spec>): string {
    if ds == [] then " %n" else "%" + [ds[0].conv] + ScanFormat(ds[1..])
  }

  /** A line of fields, each followed by a blank. */
  function Line(fields: seq<string>): string {
    if fields == [] then "" else fields[0] + " " + Line(fields[1..])
  }

  function FieldTexts(ds: seq<Spec>, vs: seq<int>): (fields: seq<string>)
    requires |ds| == |vs|
    ensures |fields| == |ds| && forall i :: 0 <= i < |ds| ==> fields[i] == FieldText(ds[i], vs[i])
  {
    seq(|ds|, i requires 0 <= i < |ds| => FieldText(ds[i], vs[i]))
  }

  function ExpectedAll(ds: seq<Spec>, vs: seq<int>): (values: seq<S.Val>)
    requires |ds| == |vs|
    ensures |values| == |ds| && forall i :: 0 <= i < |ds| ==> values[i] == Expected(ds[i].conv, vs[i])
  {
    seq(|ds|, i requires 0 <= i < |ds| => Expected(ds[i].conv, vs[i]))
  }

  function Args(vs: seq<int>): seq<P.Arg> {
    seq(|vs|, i requires 0 <= i < |vs| => P.IntA(vs[i]))
  }

  // ----- printing a line -----

  /** `print` turns the directive `d` into `field`. */
  ghost predicate Prints(print_: (string, nat) -> P.Printed, d: Spec, field: string, argp: nat) {
    forall rest :: print_("%" + Text(d) + " " + rest, argp) == P.Prepend(field + " ", print_(rest, argp + 1))
  }

  ghost predicate IsPrint(c: P.Casts, args: seq<P.Arg>, print_: (string, nat) -> P.Printed) {
    forall f: string, n: nat {:trigger print_(f, n)} :: print_(f, n) == P.Print(c, f, args, n)
  }

  lemma DirectivePrints(c: P.Casts, args: seq<P.Arg>, print_: (string, nat) -> P.Printed, d: Spec, v: int,
      field: string, argp: nat)
    requires IsPrint(c, args, print_)
    requires Valid(d) && argp < |args| && args[argp] == P.IntA(v) && field == FieldText(d, v)
    ensures Prints(print_, d, field, argp)
  {
    forall rest ensures print_("%" + Text(d) + " " + rest, argp) == P.Prepend(field + " ", print_(rest, argp + 1)) {
      var f := "%" + Text(d) + " " + rest;
      DirectiveStart(f, Text(d), rest);
      DirectiveIsRead(c, d, " " + rest, args, argp, v);
      TextStart(d);
      PrintField(c, f, args, argp, field, rest);
    }
  }

  lemma DirectiveStart(f: string, text: string, rest: string)
    requires f == "%" + text + " " + rest && text != ""
    ensures |f| > 1 && f[0] == '%' && f[1] == text[0] && f[1..] == text + (" " + rest)
  {
  }

  lemma PrintField(c: P.Casts, f: string, args: seq<P.Arg>, argp: nat, field: string, rest: string)
    requires |f| > 1 && f[0] == '%' && f[1] != '%'
    requires P.Directive(c, f[1..], args, argp) == P.Field(field, " " + rest, argp + 1)
    ensures P.Print(c, f, args, argp) == P.Prepend(field + " ", P.Print(c, rest, args, argp + 1))
  {
    var tail := " " + rest;
    var p := P.Print(c, rest, args, argp + 1);
    assert tail[1..] == rest && tail[..1] == " ";
    assert P.Print(c, tail, args, argp + 1) == P.Prepend(" ", p);
    assert field + (" " + p.out) == field + " " + p.out;
  }

  lemma TextStart(d: Spec)
    requires Valid(d)
    ensures Text(d) != "" && Text(d)[0] != '%'
  {
    WidthTextIsDigits(d.width);
    if d.flags != "" {
      assert IsFlag(d.flags[0]);
    }
  }

  lemma {:induction false} LineIsPrinted(print_: (string, nat) -> P.Printed, ds: seq<Spec>, fields: seq<string>,
      argp: nat)
    requires |ds| == |fields| && forall i {:trigger ds[i]} :: 0 <= i < |ds| ==>
      Prints(print_, ds[i], fields[i], argp + i)
    requires forall n :: print_("", n) == P.Printed("", None)
    ensures print_(PrintFormat(ds), argp) == P.Printed(Line(fields), None)
    decreases |ds|
  {
    if ds != [] {
      assert Prints(print_, ds[0], fields[0], argp + 0);
      forall i {:trigger ds[1..][i]} | 0 <= i < |ds[1..]|
        ensures Prints(print_, ds[1..][i], fields[1..][i], argp + 1 + i) {
        assert Prints(print_, ds[i + 1], fields[i + 1], argp + (i + 1));
      }
      LineIsPrinted(print_, ds[1..], fields[1..], argp + 1);
    }
  }

  // ----- scanning a line -----

  /** `scan` passes from any state in front of `field` to one behind it, storing `v`. */
  ghost predicate Scans(scan: S.State -> S.Outcome, conv: char, field: string, behind: nat, v: S.Val) {
    forall k, f, after, consumed, values :: (after == "" || after[0] == ' ') ==>
      ScansFrom(scan, conv, field, behind, v, k, f, after, consumed, values)
  }

  predicate ScansFrom(scan: S.State -> S.Outcome, conv: char, field: string, behind: nat, v: S.Val, k: nat, f: string,
      after: string, consumed: nat, values: seq<S.Val>) {
    var s, s' := Repeat(' ', k) + field + after, Repeat(' ', behind) + after;
    |s'| <= |s| && scan(S.State("%" + [conv] + f, s, consumed, values)) ==
      scan(S.State(f, s', consumed + |s| - |s'|, values + [v]))
  }

  /** Reading an integer: a conversion, the input, and the count so far. */
  type Reader = (char, string, nat) -> S.Conversion

  ghost predicate IsReader(read: Reader) {
    forall conv: char, s: string, consumed: nat {:trigger read(conv, s, consumed)} ::
      read(conv, s, consumed) == S.ScanInteger(conv, s, -1, consumed)
  }

  /** `read` takes `s` as `v`, leaving `after`. */
  predicate Takes(read: Reader, conv: char, s: string, consumed: nat, v: S.Val, after: string) {
    |after| <= |s| && read(conv, s, consumed) == S.Got(v, after, consumed + |s| - |after|)
  }

  /** `conv` reads `field` as `v` behind any blanks and in front of a blank or the end. */
  ghost predicate TakesAlways(read: Reader, conv: char, field: string, behind: nat, v: S.Val) {
    forall k: nat, after: string, consumed: nat :: (after == "" || after[0] == ' ') ==>
      Takes(read, conv, Repeat(' ', k) + field + after, consumed, v, Repeat(' ', behind) + after)
  }

  lemma FieldReads(read: Reader, d: Spec, v: int)
    requires IsReader(read) && Valid(d) && IsInt64(v) && Faithful(d, v)
    ensures TakesAlways(read, d.conv, FieldText(d, v), Behind(d, v), Expected(d.conv, v))
  {
    var field, behind, e := FieldText(d, v), Behind(d, v), Expected(d.conv, v);
    forall k: nat, after: string, consumed: nat | after == "" || after[0] == ' '
      ensures Takes(read, d.conv, Repeat(' ', k) + field + after, consumed, e, Repeat(' ', behind) + after)
    {
      FieldRoundTrip(d, v, k, after, Repeat(' ', k) + field + after, Repeat(' ', behind) + after, consumed);
    }
  }

  /** Reading `v` with `%conv` leads from state `a` to state `b`. */
  predicate Passes(read: Reader, conv: char, v: S.Val, a: S.State, b: S.State) {
    && conv in {'d', 'o', 'x', 'X', 'u'} && a.f == "%" + [conv] + b.f
    && Takes(read, conv, a.s, a.consumed, v, b.s)
    && b.consumed == a.consumed + |a.s| - |b.s| && b.values == a.values + [v]
  }

  ghost predicate StepsOver(read: Reader, scan: S.State -> S.Outcome) {
    forall conv, v, a, b :: Passes(read, conv, v, a, b) ==> scan(a) == scan(b)
  }

  lemma ReadsScans(read: Reader, scan: S.State -> S.Outcome, conv: char, field: string, behind: nat, v: S.Val)
    requires StepsOver(read, scan) && TakesAlways(read, conv, field, behind, v) && conv in {'d', 'o', 'x', 'X', 'u'}
    ensures Scans(scan, conv, field, behind, v)
  {
    forall k, f, after, consumed, values | after == "" || after[0] == ' '
      ensures ScansFrom(scan, conv, field, behind, v, k, f, after, consumed, values)
    {
      var s, s' := Repeat(' ', k) + field + after, Repeat(' ', behind) + after;
      assert Takes(read, conv, s, consumed, v, s');
      FieldPasses(read, conv, v, s, s', f, consumed, values);
    }
  }

  lemma FieldPasses(read: Reader, conv: char, v: S.Val, s: string, s': string, f: string, consumed: nat,
      values: seq<S.Val>)
    requires conv in {'d', 'o', 'x', 'X', 'u'} && Takes(read, conv, s, consumed, v, s')
    ensures |s'| <= |s|
    ensures var (a, b) := (S.State("%" + [conv] + f, s, consumed, values),
      S.State(f, s', consumed + |s| - |s'|, values + [v]));
            Passes(read, conv, v, a, b)
  {
  }

  lemma ScanStepsOver(w: S.Readers, read: Reader)
    requires IsReader(read)
    ensures StepsOver(read, st => S.Scan(w, st))
  {
    forall conv, v, a, b | Passes(read, conv, v, a, b) ensures S.Scan(w, a) == S.Scan(w, b) {
      PassField(w, read, conv, v, a, b);
    }
  }

  lemma PassField(w: S.Readers, read: Reader, conv: char, v: S.Val, a: S.State, b: S.State)
    requires IsReader(read) && Passes(read, conv, v, a, b)
    ensures S.Scan(w, a) == S.Scan(w, b)
  {
    var t := F.Token(-1, false, -1, Some(conv), "", b.f);
    BareDirective(a.f, conv, b.f);
    IntegerConversion(w, t, a.s, a.consumed, v, b.s);
    StepOver(w, a, t, v, b);
  }

  lemma BareDirective(g: string, conv: char, f: string)
    requires conv in {'d', 'o', 'x', 'X', 'u', 'n'} && g == "%" + [conv] + f
    ensures S.AtDirective(g) && F.Tokenise(g[1..]) == F.Token(-1, false, -1, Some(conv), "", f)
  {
    assert g[1..] == [conv] + f;
    BareToken(conv, f);
  }

  lemma IntegerConversion(w: S.Readers, t: F.Token, s: string, consumed: nat, v: S.Val, s': string)
    requires t.conv.Some? && t.conv.value in {'d', 'o', 'x', 'X', 'u'} && t.width == -1
    requires ReadsAs(t.conv.value, s, consumed, v, s')
    ensures S.Convert(w, t, s, consumed) == S.Got(v, s', consumed + |s| - |s'|)
  {
  }

  lemma StepOver(w: S.Readers, st: S.State, t: F.Token, v: S.Val, next: S.State)
    requires S.AtDirective(st.f) && F.Tokenise(st.f[1..]) == t && t.position == -1 && !t.suppress && t.conv.Some?
    requires S.Convert(w, t, st.s, st.consumed) == S.Got(v, next.s, next.consumed)
    requires next.f == t.after && next.values == st.values + [v]
    ensures S.Scan(w, st) == S.Scan(w, next)
  {
    assert S.Directive(w, st) == S.Next(next);
  }

  lemma BareToken(conv: char, f: string)
    requires conv in {'d', 'o', 'x', 'X', 'u', 'n'}
    ensures F.Tokenise([conv] + f) == F.Token(-1, false, -1, Some(conv), "", f)
  {
    var g := [conv] + f;
    assert F.Digits(g) == 0 && g[0..] == g && F.Modifiers(g) == 0 && g[1..] == f;
  }

  /** `scan` ends a format with ` %n` behind any blanks, storing the count. */
  ghost predicate Ends(scan: S.State -> S.Outcome) {
    forall f: string, k: nat, consumed: nat, values: seq<S.Val> :: f == " %n" ==>
      scan(S.State(f, Repeat(' ', k), consumed, values)) == S.Done(values + [S.IntV(consumed + k)], false)
  }

  lemma ScanEnds(w: S.Readers)
    ensures Ends(st => S.Scan(w, st))
  {
    forall f: string, k: nat, consumed: nat, values: seq<S.Val> | f == " %n"
      ensures S.Scan(w, S.State(f, Repeat(' ', k), consumed, values)) == S.Done(values + [S.IntV(consumed + k)], false)
    {
      CountIsScanned(w, k, S.State(f, Repeat(' ', k), consumed, values));
    }
  }

  lemma CountIsScanned(w: S.Readers, k: nat, st: S.State)
    requires st.f == " %n" && st.s == Repeat(' ', k)
    ensures S.Scan(w, st) == S.Done(st.values + [S.IntV(st.consumed + k)], false)
  {
    BlanksAlone(k);
    BlankThenCount(w, st, k);
  }

  lemma BlanksAlone(k: nat)
    ensures S.Spaces(Repeat(' ', k)) == k
  {
    BlanksAreSkipped(k, "");
    assert Repeat(' ', k) + "" == Repeat(' ', k);
  }

  lemma BlankThenCount(w: S.Readers, st: S.State, k: nat)
    requires st.f == " %n" && S.Spaces(st.s) == k
    ensures S.Scan(w, st) == S.Done(st.values + [S.IntV(st.consumed + k)], false)
  {
    assert st.f[1..] == "%n";
    var next := S.State("%n", st.s[k..], st.consumed + k, st.values);
    assert S.Step(w, st) == S.Next(next);
    CountStored(w, next);
  }

  lemma CountStored(w: S.Readers, st: S.State)
    requires st.f == "%n"
    ensures S.Scan(w, st) == S.Done(st.values + [S.IntV(st.consumed)], false)
  {
    assert st.f[1..] == ['n'] + "";
    BareToken('n', "");
    var next := st.(f := "", values := st.values + [S.IntV(st.consumed)]);
    StepOver(w, st, F.Token(-1, false, -1, Some('n'), "", ""), S.IntV(st.consumed), next);
  }

  lemma {:induction false} LineIsScanned(
      scan: S.State -> S.Outcome, ds: seq<Spec>, fields: seq<string>, behind: seq<nat>, vals: seq<S.Val>,
      k: nat, consumed: nat, values: seq<S.Val>)
    requires |ds| == |fields| == |behind| == |vals| && Ends(scan)
    requires forall i :: 0 <= i < |ds| ==> Scans(scan, ds[i].conv, fields[i], behind[i], vals[i])
    ensures scan(S.State(ScanFormat(ds), Repeat(' ', k) + Line(fields), consumed, values))
         == S.Done(values + vals + [S.IntV(consumed + k + |Line(fields)|)], false)
    decreases |ds|
  {
    if ds == [] {
      assert Repeat(' ', k) + "" == Repeat(' ', k) && values + vals == values;
    } else {
      var rest := Line(fields[1..]);
      var after := " " + rest;
      var n := behind[0];
      assert Scans(scan, ds[0].conv, fields[0], n, vals[0]);
      assert ScansFrom(scan, ds[0].conv, fields[0], n, vals[0], k, ScanFormat(ds[1..]), after, consumed, values);
      assert Repeat(' ', k) + fields[0] + after == Repeat(' ', k) + Line(fields);
      assert Repeat(' ', n) + after == Repeat(' ', n + 1) + rest by {
        assert Repeat(' ', n) + " " == Repeat(' ', n + 1);
      }
      LineIsScanned(scan, ds[1..], fields[1..], behind[1..], vals[1..], n + 1,
        consumed + k + |Line(fields)| - (n + 1 + |rest|), values + [vals[0]]);
      assert values + [vals[0]] + vals[1..] == values + vals;
    }
  }

  predicate AllFaithful(ds: seq<Spec>, vs: seq<int>) {
    |ds| == |vs| && forall i :: 0 <= i < |ds| ==> Valid(ds[i]) && IsInt64(vs[i]) && Faithful(ds[i], vs[i])
  }

  lemma FieldPrints(c: P.Casts, args: seq<P.Arg>, print_: (string, nat) -> P.Printed, ds: seq<Spec>, vs: seq<int>,
      fields: seq<string>, i: nat)
    requires IsPrint(c, args, print_) && i < |ds| == |vs| == |fields| && Valid(ds[i]) && args == Args(vs)
      && fields[i] == FieldText(ds[i], vs[i])
    ensures Prints(print_, ds[i], fields[i], i)
  {
    DirectivePrints(c, args, print_, ds[i], vs[i], fields[i], i);
  }

  lemma LinePrints(c: P.Casts, args: seq<P.Arg>, print_: (string, nat) -> P.Printed, ds: seq<Spec>, vs: seq<int>,
      fields: seq<string>)
    requires IsPrint(c, args, print_) && AllFaithful(ds, vs) && args == Args(vs) && fields == FieldTexts(ds, vs)
    ensures print_(PrintFormat(ds), 0) == P.Printed(Line(fields), None)
  {
    forall i {:trigger ds[i]} | 0 <= i < |ds| ensures Prints(print_, ds[i], fields[i], i) {
      FieldPrints(c, args, print_, ds, vs, fields, i);
    }
    PrintsNothing(c, args, print_);
    FieldsPrint(print_, ds, fields);
  }

  lemma FieldsPrint(print_: (string, nat) -> P.Printed, ds: seq<Spec>, fields: seq<string>)
    requires |ds| == |fields| && forall i {:trigger ds[i]} :: 0 <= i < |ds| ==> Prints(print_, ds[i], fields[i], i)
    requires forall n :: print_("", n) == P.Printed("", None)
    ensures print_(PrintFormat(ds), 0) == P.Printed(Line(fields), None)
  {
    forall i {:trigger ds[i]} | 0 <= i < |ds| ensures Prints(print_, ds[i], fields[i], 0 + i) {
    }
    LineIsPrinted(print_, ds, fields, 0);
  }

  lemma PrintsNothing(c: P.Casts, args: seq<P.Arg>, print_: (string, nat) -> P.Printed)
    requires IsPrint(c, args, print_)
    ensures forall n :: print_("", n) == P.Printed("", None)
  {
    forall n ensures print_("", n) == P.Printed("", None) {
      assert print_("", n) == P.Print(c, "", args, n);
    }
  }

  lemma FieldScans(read: Reader, scan: S.State -> S.Outcome, d: Spec, v: int, field: string, behind: nat, e: S.Val)
    requires IsReader(read) && StepsOver(read, scan) && Valid(d) && IsInt64(v) && Faithful(d, v)
    requires field == FieldText(d, v) && behind == Behind(d, v) && e == Expected(d.conv, v)
    ensures Scans(scan, d.conv, field, behind, e)
  {
    FieldReads(read, d, v);
    ReadsScans(read, scan, d.conv, field, behind, e);
  }

  lemma LineScans(read: Reader, scan: S.State -> S.Outcome, ds: seq<Spec>, vs: seq<int>)
    requires IsReader(read) && AllFaithful(ds, vs) && StepsOver(read, scan) && Ends(scan)
    ensures var line := Line(FieldTexts(ds, vs));
            scan(S.Start(ScanFormat(ds), line)) == S.Done(ExpectedAll(ds, vs) + [S.IntV(|line|)], false)
  {
    var fields, vals := FieldTexts(ds, vs), ExpectedAll(ds, vs);
    var behind := seq(|ds|, i requires 0 <= i < |ds| => Behind(ds[i], vs[i]));
    forall i | 0 <= i < |ds| ensures Scans(scan, ds[i].conv, fields[i], behind[i], vals[i]) {
      FieldScans(read, scan, ds[i], vs[i], fields[i], behind[i], vals[i]);
    }
    WholeLine(scan, ds, fields, behind, vals);
  }

  lemma WholeLine(scan: S.State -> S.Outcome, ds: seq<Spec>, fields: seq<string>, behind: seq<nat>, vals: seq<S.Val>)
    requires |ds| == |fields| == |behind| == |vals| && Ends(scan)
    requires forall i :: 0 <= i < |ds| ==> Scans(scan, ds[i].conv, fields[i], behind[i], vals[i])
    ensures scan(S.Start(ScanFormat(ds), Line(fields))) == S.Done(vals + [S.IntV(|Line(fields)|)], false)
  {
    LineIsScanned(scan, ds, fields, behind, vals, 0, 0, []);
    assert Repeat(' ', 0) + Line(fields) == Line(fields) && [] + vals == vals;
  }

  lemma LineScansBack(w: S.Readers, ds: seq<Spec>, vs: seq<int>)
    requires AllFaithful(ds, vs)
    ensures var line := Line(FieldTexts(ds, vs));
            S.Scan(w, S.Start(ScanFormat(ds), line)) == S.Done(ExpectedAll(ds, vs) + [S.IntV(|line|)], false)
  {
    var read := (conv: char, s: string, consumed: nat) => S.ScanInteger(conv, s, -1, consumed);
    ScanStepsOver(w, read);
    ScanEnds(w);
    LineScans(read, st => S.Scan(w, st), ds, vs);
  }

  lemma LinePrintsWhole(c: P.Casts, ds: seq<Spec>, vs: seq<int>)
    requires AllFaithful(ds, vs)
    ensures P.Print(c, PrintFormat(ds), Args(vs), 0) == P.Printed(Line(FieldTexts(ds, vs)), None)
  {
    LinePrints(c, Args(vs), (f: string, n: nat) => P.Print(c, f, Args(vs), n), ds, vs, FieldTexts(ds, vs));
  }

  /** Printing any integers through any list of directives and scanning the line with the same
      conversions gives the integers back, and %n the length of the line. */
  lemma PrintThenScan(c: P.Casts, w: S.Readers, ds: seq<Spec>, vs: seq<int>)
    requires AllFaithful(ds, vs)
    ensures var p := P.Print(c, PrintFormat(ds), Args(vs), 0);
            && p.problem.None?
            && S.Scan(w, S.Start(ScanFormat(ds), p.out)) == S.Done(ExpectedAll(ds, vs) + [S.IntV(|p.out|)], false)
  {
    LinePrintsWhole(c, ds, vs);
    LineScansBack(w, ds, vs);
  }
}
