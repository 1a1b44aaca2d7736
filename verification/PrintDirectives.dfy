/** What one directive prints (core/zprintf.go): every conversion, with position, flags, width and
    precision, read off the directive as it is written. */
module PrintDirectives {
  import opened Options
  import opened Numerals
  import P = Printf
  import F = ScanFormats
  import PrintScan

  /** A directive: an argument position (0: the next argument), flags out of `+`, `-`, `0` and space,
      a width, a precision, and a conversion, which an `l` may precede. */
  datatype Spec = Spec(position: nat, flags: string, width: nat, precision: Option<nat>, long: bool, conv: char)

  predicate Valid(d: Spec) {
    && d.position < P.MaxWidth && d.width <= P.MaxWidth && (d.precision.Some? ==> d.precision.value <= P.MaxWidth)
    && (forall i :: 0 <= i < |d.flags| ==> PrintScan.IsFlag(d.flags[i]))
    && IsConversion(d.conv)
  }

  /** Letters other than `l`, which is skipped, and most other characters. */
  predicate IsConversion(c: char) {
    !IsDigit(c) && !PrintScan.IsFlag(c) && c !in {'\'', '.', '*', '$', 'l', '%'}
  }

  function PositionText(position: nat): string {
    if position == 0 then "" else FormatUint(position, 10) + "$"
  }

  function PrecisionText(precision: Option<nat>): string {
    if precision.None? then "" else "." + FormatUint(precision.value, 10)
  }

  function End(d: Spec): string {
    if d.long then ['l', d.conv] else [d.conv]
  }

  /** Behind the flags. */
  function Sizes(d: Spec): string {
    PrintScan.WidthText(d.width) + (PrecisionText(d.precision) + End(d))
  }

  /** The directive as written, without its `%`. */
  function Text(d: Spec): string {
    PositionText(d.position) + (d.flags + Sizes(d))
  }

  // ----- flags -----

  /** The last padding character among the flags, a blank if there is none. */
  function LastPad(flags: string): char {
    if flags == "" then ' '
    else if flags[|flags| - 1] == '0' || flags[|flags| - 1] == ' ' then flags[|flags| - 1]
    else LastPad(flags[..|flags| - 1])
  }

  function Flags(d: Spec): P.Flags {
    P.Flags('-' in d.flags, '+' in d.flags, LastPad(d.flags))
  }

  lemma {:induction false} EffectOfConcat(a: string, b: string, o: P.Flags)
    ensures PrintScan.Effect(a + b, o) == PrintScan.Effect(b, PrintScan.Effect(a, o))
    decreases a
  {
    if a == "" {
      assert a + b == b;
    } else {
      assert (a + b)[0] == a[0] && (a + b)[1..] == a[1..] + b;
      EffectOfConcat(a[1..], b, if a[0] == '-' then o.(left := true) else if a[0] == '+' then o.(plus := true)
                                else o.(pad := a[0]));
    }
  }

  lemma {:induction false} EffectIsFlags(flags: string)
    requires forall i :: 0 <= i < |flags| ==> PrintScan.IsFlag(flags[i])
    ensures PrintScan.Effect(flags, P.Flags(false, false, ' ')) == P.Flags('-' in flags, '+' in flags, LastPad(flags))
    decreases |flags|
  {
    if flags != "" {
      var init, last := flags[..|flags| - 1], flags[|flags| - 1..];
      assert PrintScan.IsFlag(flags[|flags| - 1]) && flags == init + last && last[1..] == "";
      EffectIsFlags(init);
      EffectOfConcat(init, last, P.Flags(false, false, ' '));
    }
  }

  // ----- the directive is read as written -----

  lemma DecimalIsRead(n: nat)
    ensures var t := FormatUint(n, 10); t != "" && AllDigits(t, 10) && Value(t, 10) == n && IsDigit(t[0])
  {
    FormatUintIsDigits(n, 10);
    FormatUintValue(n, 10);
    assert DigitValue(FormatUint(n, 10)[0]) < 10;
  }

  lemma PrecisionIsRead(p: nat, tail: string)
    requires p <= P.MaxWidth && tail != "" && !IsDigit(tail[0]) && tail[0] != '*'
    ensures P.ReadSize(FormatUint(p, 10) + tail) == (P.Fixed(p), tail)
  {
    DecimalIsRead(p);
    PrintScan.SizeIsRead(FormatUint(p, 10), tail);
  }

  lemma SizesAreRead(d: Spec, rest: string)
    requires Valid(d)
    ensures P.ReadWidth(Sizes(d) + rest) ==
      (if d.width == 0 then P.Absent else P.Fixed(d.width),
       if d.precision.None? then P.Absent else P.Fixed(d.precision.value), End(d) + rest)
  {
    var w, end := PrintScan.WidthText(d.width), End(d) + rest;
    var tail := PrecisionText(d.precision) + end;
    assert Sizes(d) + rest == w + tail;
    assert end[0] == (if d.long then 'l' else d.conv) && tail[0] == (if d.precision.None? then end[0] else '.');
    PrintScan.WidthTextIsDigits(d.width);
    PrintScan.SizeIsRead(w, tail);
    if d.precision.Some? {
      PrecisionFollows(d.precision.value, tail, end);
    } else {
      assert tail == end;
    }
    WidthThenPrecision(w + tail, if d.width == 0 then P.Absent else P.Fixed(d.width), tail);
  }

  lemma PrecisionFollows(p: nat, tail: string, end: string)
    requires p <= P.MaxWidth && tail == "." + FormatUint(p, 10) + end && end != "" && !IsDigit(end[0]) && end[0] != '*'
    ensures P.ReadSize(tail[1..]) == (P.Fixed(p), end)
  {
    assert tail[1..] == FormatUint(p, 10) + end;
    PrecisionIsRead(p, end);
  }

  lemma WidthThenPrecision(g: string, w: P.Size, tail: string)
    requires P.ReadSize(g) == (w, tail) && tail != ""
    ensures P.ReadWidth(g) ==
      if tail[0] != '.' then (w, P.Absent, tail)
      else var (p, end) := P.ReadSize(tail[1..]); (w, if p.Absent? then P.Fixed(0) else p, end)
  {
  }

  lemma PositionIsRead(d: Spec, rest: string)
    requires Valid(d)
    ensures P.ReadPosition(Text(d) + rest) ==
      (if d.position == 0 then None else Some(d.position), d.flags + (Sizes(d) + rest))
  {
    var g, tail := Text(d) + rest, d.flags + (Sizes(d) + rest);
    if d.position == 0 {
      assert g == tail;
      NothingPositional(d, rest);
    } else {
      PlaceIsRead(d.position, tail, g);
    }
  }

  lemma PlaceIsRead(n: nat, tail: string, g: string)
    requires 0 < n < P.MaxWidth && g == PositionText(n) + tail
    ensures P.ReadPosition(g) == (Some(n), tail)
  {
    var t, u := FormatUint(n, 10), "$" + tail;
    DecimalIsRead(n);
    assert g == t + u;
    PrintScan.DigitsAreRead(t, u);
    PlaceIsTaken(t, u, tail, g);
  }

  lemma PlaceIsTaken(t: string, u: string, tail: string, g: string)
    requires t != "" && IsDigit(t[0]) && Value(t, 10) < Two63 && u == "$" + tail && g == t + u && F.Digits(g) == |t|
    ensures P.ReadPosition(g) == (Some(Value(t, 10)), tail)
  {
    assert g[0] == t[0] && g[..|t|] == t && g[|t|] == '$' && g[|t| + 1..] == tail;
  }

  lemma NothingPositional(d: Spec, rest: string)
    requires Valid(d)
    ensures var g := d.flags + (Sizes(d) + rest); P.ReadPosition(g) == (None, g)
  {
    var w := PrintScan.WidthText(d.width);
    var g, m := d.flags + (Sizes(d) + rest), |d.flags| + |w|;
    PrintScan.WidthTextIsDigits(d.width);
    assert g[m] == (Sizes(d) + rest)[|w|];
    assert (Sizes(d) + rest)[|w|] == (PrecisionText(d.precision) + End(d))[0];
    forall i | 0 <= i <= m ensures g[i] != '$' {
      if i < |d.flags| {
        assert PrintScan.IsFlag(d.flags[i]);
      } else if i < m {
        assert g[i] == w[i - |d.flags|] && DigitValue(w[i - |d.flags|]) < 10;
      }
    }
    PrintScan.NoPosition(g, m);
  }

  /** Which argument the directive prints, and which comes next. */
  function Chosen(d: Spec, argp: nat): nat {
    if d.position == 0 then argp else d.position - 1
  }

  function Next(d: Spec, argp: nat): nat {
    if d.position == 0 then argp + 1 else argp
  }

  function Precision(d: Spec): int {
    if d.precision.None? then -1 else d.precision.value
  }

  /** A directive is read as written, whatever follows it, and prints the argument it chooses. */
  lemma DirectiveIsRead(c: P.Casts, d: Spec, rest: string, args: seq<P.Arg>, argp: nat)
    requires Valid(d) && Chosen(d, argp) < |args|
    ensures P.Directive(c, Text(d) + rest, args, argp) ==
      P.Convert(c, Flags(d), d.width, Precision(d), false, d.conv, args[Chosen(d, argp)], rest, Next(d, argp))
  {
    var g, g2 := Text(d) + rest, Sizes(d) + rest;
    var position := if d.position == 0 then None else Some(d.position);
    assert P.ReadPosition(g) == (position, d.flags + g2) by { PositionIsRead(d, rest); }
    assert P.ReadFlags(d.flags + g2, P.Flags(false, false, ' ')) == P.Read(Flags(d), g2) by {
      SizesStart(d, rest);
      PrintScan.FlagsAreRead(d.flags, g2, P.Flags(false, false, ' '));
      EffectIsFlags(d.flags);
    }
    PartsAreRead(c, g, d.flags + g2, g2, position, Flags(d), args, argp);
    SizedIsRead(c, d, rest, args, argp);
  }

  lemma PartsAreRead(c: P.Casts, g: string, g1: string, g2: string, position: Option<nat>, o: P.Flags, args: seq<P.Arg>,
      argp: nat)
    requires P.ReadPosition(g) == (position, g1) && P.ReadFlags(g1, P.Flags(false, false, ' ')) == P.Read(o, g2)
    requires position.Some? ==> 0 < position.value < P.MaxWidth && position.value <= |args|
    requires position.None? ==> argp < |args|
    ensures P.Directive(c, g, args, argp) == P.Sized(c, o, if position.None? then 0 else position.value, g2, args, argp)
  {
  }

  lemma SizesStart(d: Spec, rest: string)
    requires Valid(d)
    ensures var g := Sizes(d) + rest; g != "" && !PrintScan.IsFlag(g[0]) && g[0] != '\''
  {
    var w := PrintScan.WidthText(d.width);
    PrintScan.WidthTextIsDigits(d.width);
    assert (Sizes(d) + rest)[0] == if d.width > 0 then w[0] else (PrecisionText(d.precision) + End(d))[0];
  }

  lemma SizedIsRead(c: P.Casts, d: Spec, rest: string, args: seq<P.Arg>, argp: nat)
    requires Valid(d) && Chosen(d, argp) < |args|
    ensures P.Sized(c, Flags(d), d.position, Sizes(d) + rest, args, argp) ==
      P.Convert(c, Flags(d), d.width, Precision(d), false, d.conv, args[Chosen(d, argp)], rest, Next(d, argp))
  {
    SizesAreRead(d, rest);
    var w := if d.width == 0 then P.Absent else P.Fixed(d.width);
    var p := if d.precision.None? then P.Absent else P.Fixed(d.precision.value);
    var a := args[Chosen(d, argp)];
    assert P.NextArg(args, argp, d.position) == P.Given(a, Next(d, argp));
    SizesAreResolved(c, Flags(d), d.position, Sizes(d) + rest, w, p, End(d) + rest, d.conv, rest, args, argp, d.width,
      Precision(d), a, Next(d, argp));
  }

  lemma SizesAreResolved(c: P.Casts, o: P.Flags, position: nat, g: string, w: P.Size, p: P.Size, g1: string, conv: char,
      rest: string, args: seq<P.Arg>, argp: nat, width: nat, precision: int, a: P.Arg, next: nat)
    requires P.ReadWidth(g) == (w, p, g1) && (g1 == [conv] + rest || g1 == ['l', conv] + rest) && conv != 'l'
    requires P.ResolveWidth(c, w, args, argp) == P.Given(width, argp)
    requires P.ResolvePrecision(c, p, args, argp) == P.Given(precision, argp)
    requires P.NextArg(args, argp, position) == P.Given(a, next) && !p.Star?
    ensures P.Sized(c, o, position, g, args, argp) == P.Convert(c, o, width, precision, false, conv, a, rest, next)
  {
    if g1 == [conv] + rest {
      assert g1[0] == conv && g1[1..] == rest;
    } else {
      assert g1[0] == 'l' && g1[1] == conv && g1[1..][1..] == rest;
    }
  }

  // ----- padding -----

  /** `t` in a field of the width: blanks or zeros behind it, or before it, zeros behind its sign. */
  function InField(d: Spec, t: string): string {
    var gap := if d.width > |t| then d.width - |t| else 0;
    if '-' in d.flags then t + Repeat(LastPad(d.flags), gap)
    else if LastPad(d.flags) == '0' && Signed(t) then t[..1] + Repeat('0', gap) + t[1..]
    else Repeat(LastPad(d.flags), gap) + t
  }

  lemma {:induction false} LastPadIsBlankOrZero(flags: string)
    ensures LastPad(flags) == ' ' || LastPad(flags) == '0'
  {
    if flags != "" { LastPadIsBlankOrZero(flags[..|flags| - 1]); }
  }

  lemma PadsField(d: Spec, t: string)
    ensures P.Pad(t, d.width, Flags(d)) == InField(d, t)
  {
    LastPadIsBlankOrZero(d.flags);
    if d.width > |t| {
      P.RepeatAscii(LastPad(d.flags), d.width - |t|);
    } else {
      assert t + "" == t && "" + t == t && (Signed(t) ==> t[..1] + "" + t[1..] == t);
    }
  }

  // ----- what each conversion prints -----

  /** The field of a bare text, which the flags may give a plus. */
  lemma FieldOf(c: P.Casts, d: Spec, a: P.Arg, t: string, u: string, rest: string, args: seq<P.Arg>, argp: nat)
    requires Valid(d) && Chosen(d, argp) < |args| && args[Chosen(d, argp)] == a
    requires P.BareText(c, d.conv, Precision(d), false, a) == Some(t) && P.WithPlus(Flags(d), d.conv, t) == u
    ensures P.Directive(c, Text(d) + rest, args, argp) == P.Field(InField(d, u), rest, Next(d, argp))
  {
    DirectiveIsRead(c, d, rest, args, argp);
    PadsField(d, u);
    Converts(c, Flags(d), d.width, Precision(d), d.conv, a, t, u, rest, Next(d, argp));
  }

  lemma Converts(c: P.Casts, o: P.Flags, width: nat, precision: int, conv: char, a: P.Arg, t: string, u: string,
      rest: string, argp: nat)
    requires P.BareText(c, conv, precision, false, a) == Some(t) && P.WithPlus(o, conv, t) == u
    ensures P.Convert(c, o, width, precision, false, conv, a, rest, argp) == P.Field(P.Pad(u, width, o), rest, argp)
  {
  }

  /** A cast that fails ends the output. */
  lemma NoFieldOf(c: P.Casts, d: Spec, a: P.Arg, rest: string, args: seq<P.Arg>, argp: nat)
    requires Valid(d) && Chosen(d, argp) < |args| && args[Chosen(d, argp)] == a
    requires P.BareText(c, d.conv, Precision(d), false, a) == None
    ensures P.Directive(c, Text(d) + rest, args, argp) == P.Halt(Some(P.CastFailed))
  {
    DirectiveIsRead(c, d, rest, args, argp);
  }

  /** `%s` prints the first bytes of a string, as many as the precision allows. */
  lemma StringField(c: P.Casts, d: Spec, s: string, rest: string, args: seq<P.Arg>, argp: nat)
    requires Valid(d) && d.conv == 's' && Chosen(d, argp) < |args| && args[Chosen(d, argp)] == P.StrA(s)
    ensures var t := if d.precision.Some? && d.precision.value < |s| then s[..d.precision.value] else s;
            P.Directive(c, Text(d) + rest, args, argp) == P.Field(InField(d, t), rest, Next(d, argp))
  {
    var t := if d.precision.Some? && d.precision.value < |s| then s[..d.precision.value] else s;
    FieldOf(c, d, P.StrA(s), t, t, rest, args, argp);
  }

  /** Of any other argument it prints the text that it is cast to, or fails. */
  lemma TextField(c: P.Casts, d: Spec, a: P.Arg, rest: string, args: seq<P.Arg>, argp: nat)
    requires Valid(d) && d.conv == 's' && d.precision.None? && Chosen(d, argp) < |args| && args[Chosen(d, argp)] == a
    requires !a.StrA?
    ensures P.Directive(c, Text(d) + rest, args, argp) ==
      if c.text(a).None? then P.Halt(Some(P.CastFailed)) else P.Field(InField(d, c.text(a).value), rest, Next(d, argp))
  {
    if c.text(a).Some? {
      FieldOf(c, d, a, c.text(a).value, c.text(a).value, rest, args, argp);
    } else {
      NoFieldOf(c, d, a, rest, args, argp);
    }
  }

  /** The integer that an argument is or is cast to. */
  function IntegerOf(c: P.Casts, a: P.Arg): Option<int> {
    match a case IntA(n) => Some(n) case _ => c.integer(a)
  }

  lemma IntegerIsPrinted(c: P.Casts, conv: char, precision: int, a: P.Arg, n: int)
    requires conv in {'d', 'o', 'u', 'x', 'X', 'b', 'c'} && IntegerOf(c, a) == Some(n)
    ensures P.BareText(c, conv, precision, false, a) == Some(P.IntegerText(conv, n))
  {
  }

  /** `%c` prints the one byte of the number modulo 256. */
  lemma CharacterField(c: P.Casts, d: Spec, n: int, b: char, rest: string, args: seq<P.Arg>, argp: nat)
    requires Valid(d) && d.conv == 'c' && Chosen(d, argp) < |args| && IntegerOf(c, args[Chosen(d, argp)]) == Some(n)
    requires b as int == n % 256
    ensures P.Directive(c, Text(d) + rest, args, argp) == P.Field(InField(d, [b]), rest, Next(d, argp))
  {
    IntegerIsPrinted(c, d.conv, Precision(d), args[Chosen(d, argp)], n);
    FieldOf(c, d, args[Chosen(d, argp)], [b], [b], rest, args, argp);
  }

  /** The numeral of `m` in a base: its value, its digits, and no zero in front. */
  ghost predicate IsNumeral(t: string, m: nat, base: nat) {
    && t != "" && AllDigits(t, base) && Value(t, base) == m && (m > 0 ==> t[0] != '0') && (m == 0 ==> t == "0")
  }

  predicate InCase(t: string, upper: bool) {
    forall i :: 0 <= i < |t| ==> IsDigit(t[i]) || (if upper then 'A' <= t[i] <= 'F' else 'a' <= t[i] <= 'f')
  }

  lemma NumeralIs(m: nat, base: nat)
    requires 2 <= base <= 16
    ensures IsNumeral(FormatUint(m, base), m, base)
  {
    FormatUintIsDigits(m, base);
    FormatUintValue(m, base);
  }

  lemma {:induction false} NumeralIsLower(m: nat, base: nat)
    requires 2 <= base <= 16
    ensures InCase(FormatUint(m, base), false)
  {
    if m >= base {
      QuotientRemainder(m, base);
      NumeralIsLower(m / base, base);
    }
  }

  lemma UpperNumeral(t: string, m: nat)
    requires IsNumeral(t, m, 16) && InCase(t, false)
    ensures IsNumeral(ToUpper(t), m, 16) && InCase(ToUpper(t), true)
  {
    UpperKeepsValue(t, 16);
  }

  function BaseOf(conv: char): nat {
    match conv case 'b' => 2 case 'o' => 8 case 'u' => 10 case _ => 16
  }

  lemma UnsignedText(conv: char, n: int) returns (t: string)
    requires conv in {'b', 'o', 'u', 'x', 'X'}
    ensures t == P.IntegerText(conv, n) && IsNumeral(t, n % Two64, BaseOf(conv)) && InCase(t, conv == 'X')
  {
    t := FormatUint(n % Two64, BaseOf(conv));
    NumeralIs(n % Two64, BaseOf(conv));
    NumeralIsLower(n % Two64, BaseOf(conv));
    if conv == 'X' {
      UpperNumeral(t, n % Two64);
      t := ToUpper(t);
    }
  }

  /** `%b`, `%o`, `%u`, `%x` and `%X` print the numeral of the number, taken as unsigned, in their
      base; letters are small, and capitals for `%X`. */
  lemma UnsignedField(c: P.Casts, d: Spec, n: int, rest: string, args: seq<P.Arg>, argp: nat) returns (t: string)
    requires Valid(d) && d.conv in {'b', 'o', 'u', 'x', 'X'}
    requires Chosen(d, argp) < |args| && IntegerOf(c, args[Chosen(d, argp)]) == Some(n)
    ensures IsNumeral(t, n % Two64, BaseOf(d.conv)) && InCase(t, d.conv == 'X')
    ensures P.Directive(c, Text(d) + rest, args, argp) == P.Field(InField(d, t), rest, Next(d, argp))
  {
    t := UnsignedText(d.conv, n);
    IntegerIsPrinted(c, d.conv, Precision(d), args[Chosen(d, argp)], n);
    FieldOf(c, d, args[Chosen(d, argp)], t, t, rest, args, argp);
  }

  function SignOf(d: Spec, n: int): string {
    if n < 0 then "-" else if '+' in d.flags then "+" else ""
  }

  lemma SignedText(d: Spec, conv: char, n: int, m: nat) returns (t: string)
    requires conv == 'd' && m == if n < 0 then -n else n
    ensures IsNumeral(t, m, 10) && P.WithPlus(Flags(d), conv, P.IntegerText(conv, n)) == SignOf(d, n) + t
  {
    t := FormatUint(m, 10);
    NumeralIs(m, 10);
    FirstDigit(t, 10);
    DecimalText(conv, n, m, t);
    PlusIsPut(Flags(d), conv, n, P.IntegerText(conv, n), t);
  }

  lemma DecimalText(conv: char, n: int, m: nat, t: string)
    requires conv == 'd' && m == (if n < 0 then -n else n) && t == FormatUint(m, 10)
    ensures P.IntegerText(conv, n) == if n < 0 then "-" + t else t
  {
    assert P.IntegerText(conv, n) == FormatInt(n);
  }

  lemma PlusIsPut(o: P.Flags, conv: char, n: int, s: string, t: string)
    requires conv == 'd' && t != "" && t[0] != '-' && s == if n < 0 then "-" + t else t
    ensures P.WithPlus(o, conv, s) == (if n < 0 then "-" else if o.plus then "+" else "") + t
  {
    assert "" + t == t;
  }

  lemma FirstDigit(t: string, base: nat)
    requires t != "" && AllDigits(t, base) && base <= 10
    ensures t[0] != '-' && t[0] != '+'
  {
    assert DigitValue(t[0]) < base;
  }

  /** `%d` prints the decimal numeral behind its sign, a plus where the flags ask for it. */
  lemma SignedField(c: P.Casts, d: Spec, n: int, rest: string, args: seq<P.Arg>, argp: nat) returns (t: string)
    requires Valid(d) && d.conv == 'd' && Chosen(d, argp) < |args| && IntegerOf(c, args[Chosen(d, argp)]) == Some(n)
    ensures IsNumeral(t, if n < 0 then -n else n, 10)
    ensures P.Directive(c, Text(d) + rest, args, argp) == P.Field(InField(d, SignOf(d, n) + t), rest, Next(d, argp))
  {
    t := SignedText(d, d.conv, n, if n < 0 then -n else n);
    IntegerIsPrinted(c, d.conv, Precision(d), args[Chosen(d, argp)], n);
    FieldOf(c, d, args[Chosen(d, argp)], P.IntegerText(d.conv, n), SignOf(d, n) + t, rest, args, argp);
  }

  /** A float is printed as its text for this precision, behind a plus where the flags ask for it. */
  lemma FloatField(c: P.Casts, d: Spec, s: Option<string>, rest: string, args: seq<P.Arg>, argp: nat)
    requires Valid(d) && d.conv in {'e', 'E', 'f', 'F', 'g', 'G', 'h', 'H'} && Chosen(d, argp) < |args|
    requires s == c.float(d.conv, if d.precision.None? then None else Some(d.precision.value), args[Chosen(d, argp)])
    ensures P.Directive(c, Text(d) + rest, args, argp) ==
      if s.None? then P.Halt(Some(P.CastFailed))
      else
        var sign := if '+' in d.flags && s.value != "" && s.value[0] != '-' then "+" else "";
        P.Field(InField(d, sign + s.value), rest, Next(d, argp))
  {
    if s.None? {
      NoFieldOf(c, d, args[Chosen(d, argp)], rest, args, argp);
    } else {
      var sign := if '+' in d.flags && s.value != "" && s.value[0] != '-' then "+" else "";
      assert "" + s.value == s.value;
      FieldOf(c, d, args[Chosen(d, argp)], s.value, sign + s.value, rest, args, argp);
    }
  }

  /** Any other letter prints an empty field, and takes its argument. */
  lemma UnknownField(c: P.Casts, d: Spec, rest: string, args: seq<P.Arg>, argp: nat)
    requires Valid(d) && Chosen(d, argp) < |args|
    requires d.conv !in {'d', 'o', 'u', 'x', 'X', 'b', 'c', 's', 'e', 'E', 'f', 'F', 'g', 'G', 'h', 'H'}
    ensures P.Directive(c, Text(d) + rest, args, argp) == P.Field(InField(d, ""), rest, Next(d, argp))
  {
    FieldOf(c, d, args[Chosen(d, argp)], "", "", rest, args, argp);
  }

  /** A quote makes the character behind it the padding, whatever it is. */
  lemma QuoteIsRead(pad: char, rest: string, o: P.Flags)
    ensures P.ReadFlags(['\'', pad] + rest, o) == P.ReadFlags(rest, o.(pad := pad))
  {
    var g := ['\'', pad] + rest;
    assert g[0] == '\'' && g[1] == pad && g[2..] == rest;
  }

  /** A directive whose argument is not there ends the output, naming how many arguments it takes,
      the format counted. */
  lemma ArgumentIsMissing(c: P.Casts, d: Spec, rest: string, args: seq<P.Arg>, argp: nat)
    requires Valid(d) && Chosen(d, argp) >= |args|
    ensures P.Directive(c, Text(d) + rest, args, argp) == P.Halt(Some(P.TooFewArguments(Chosen(d, argp) + 2)))
  {
    PositionIsRead(d, rest);
  }

  // ----- sizes out of arguments -----

  /** `%*.*s`, and so for every conversion: width and precision are the two arguments before. */
  lemma StarsAreTaken(c: P.Casts, d: Spec, w: int, p: int, rest: string, args: seq<P.Arg>, argp: nat)
    requires Valid(d) && d.position == 0 && argp + 2 < |args| && args[argp] == P.IntA(w) && args[argp + 1] == P.IntA(p)
    requires 0 <= w < P.MaxWidth && -1 <= p < P.MaxWidth
    ensures P.Directive(c, d.flags + ("*.*" + [d.conv] + rest), args, argp) ==
      P.Convert(c, Flags(d), w, p, true, d.conv, args[argp + 2], rest, argp + 3)
  {
    var g := "*.*" + [d.conv] + rest;
    var end := [d.conv] + rest;
    var whole := d.flags + g;
    assert g[0] == '*' && g[1..] == ".*" + end && g[1..][0] == '.' && g[1..][1..] == "*" + end;
    assert ("*" + end)[0] == '*' && ("*" + end)[1..] == end && end[0] == d.conv && end[1..] == rest;
    forall i | 0 <= i <= |d.flags| ensures whole[i] != '$' {
      if i < |d.flags| { assert PrintScan.IsFlag(d.flags[i]); }
    }
    PrintScan.NoPosition(whole, |d.flags|);
    PrintScan.FlagsAreRead(d.flags, g, P.Flags(false, false, ' '));
    EffectIsFlags(d.flags);
    PartsAreRead(c, whole, whole, g, None, Flags(d), args, argp);
    StarSizes(c, Flags(d), w, p, g, end, d.conv, rest, args, argp);
  }

  lemma StarSizes(c: P.Casts, o: P.Flags, w: int, p: int, g: string, end: string, conv: char, rest: string,
      args: seq<P.Arg>, argp: nat)
    requires argp + 2 < |args| && args[argp] == P.IntA(w) && args[argp + 1] == P.IntA(p)
    requires 0 <= w < P.MaxWidth && -1 <= p < P.MaxWidth
    requires end == [conv] + rest && IsConversion(conv)
    requires g != "" && g[0] == '*' && g[1..] == ".*" + end
    ensures P.Sized(c, o, 0, g, args, argp) == P.Convert(c, o, w, p, true, conv, args[argp + 2], rest, argp + 3)
  {
    StarsAreRead(g, end, conv, rest);
    StarsAreResolved(c, o, w, p, g, end, args, argp);
    assert end[0] == conv && end[1..] == rest;
  }

  lemma StarsAreRead(g: string, end: string, conv: char, rest: string)
    requires end == [conv] + rest && IsConversion(conv) && g != "" && g[0] == '*' && g[1..] == ".*" + end
    ensures P.ReadWidth(g) == (P.Star(0), P.Star(0), end)
  {
    var t, u := g[1..], "*" + end;
    assert t[0] == '.' && t[1..] == u && u[0] == '*' && u[1..] == end && end[0] == conv;
    assert F.Digits(t) == 0 && F.Digits(end) == 0;
  }

  lemma StarsAreResolved(c: P.Casts, o: P.Flags, w: int, p: int, g: string, end: string, args: seq<P.Arg>, argp: nat)
    requires P.ReadWidth(g) == (P.Star(0), P.Star(0), end) && end != "" && end[0] != 'l'
    requires argp + 2 < |args| && args[argp] == P.IntA(w) && args[argp + 1] == P.IntA(p)
    requires 0 <= w < P.MaxWidth && -1 <= p < P.MaxWidth
    ensures P.Sized(c, o, 0, g, args, argp) ==
      P.Convert(c, o, w, p, true, end[0], args[argp + 2], end[1..], argp + 3)
  {
  }

  /** A precision of -1 out of an argument is for `%g` and `%h` only. */
  lemma NoPrecision(c: P.Casts, d: Spec, w: int, rest: string, args: seq<P.Arg>, argp: nat)
    requires Valid(d) && d.position == 0 && argp + 2 < |args| && args[argp] == P.IntA(w) && args[argp + 1] == P.IntA(-1)
    requires 0 <= w < P.MaxWidth && d.conv !in {'g', 'G', 'h', 'H'}
    ensures P.Directive(c, d.flags + ("*.*" + [d.conv] + rest), args, argp) == P.Halt(Some(P.PrecisionUnsupported))
  {
    StarsAreTaken(c, d, w, -1, rest, args, argp);
  }

  /** `*n$` takes the size from the n-th argument. */
  lemma PlacedStarIsRead(n: nat, tail: string)
    requires 0 < n < P.MaxWidth
    ensures P.ReadSize("*" + (PositionText(n) + tail)) == (P.Star(n), tail)
  {
    var g, t, u := PositionText(n) + tail, FormatUint(n, 10), "$" + tail;
    assert ("*" + g)[0] == '*' && ("*" + g)[1..] == g;
    DecimalIsRead(n);
    assert g == t + u;
    PrintScan.DigitsAreRead(t, u);
    assert g[..|t|] == t && g[|t|] == '$' && g[|t| + 1..] == tail;
  }

  /** Such a size leaves the next argument where it was. */
  lemma PlacedStarIsTaken(c: P.Casts, n: nat, w: int, args: seq<P.Arg>, argp: nat)
    requires 0 < n <= |args| && args[n - 1] == P.IntA(w) && 0 <= w < P.MaxWidth
    ensures P.ResolveWidth(c, P.Star(n), args, argp) == P.Given(w, argp)
    ensures P.ResolvePrecision(c, P.Star(n), args, argp) == P.Given(w, argp)
  {
  }

  // ----- whole formats -----

  /** `print` prints a character that is no percent sign as it is, and goes on behind it. */
  ghost predicate PrintsCharacters(print_: string -> P.Printed) {
    forall g: string {:trigger print_(g)} :: g != "" && g[0] != '%' ==> print_(g) == P.Prepend(g[..1], print_(g[1..]))
  }

  lemma {:induction false} CharactersArePrinted(print_: string -> P.Printed, s: string, f: string)
    requires PrintsCharacters(print_) && '%' !in s
    ensures print_(s + f) == P.Prepend(s, print_(f))
    decreases s
  {
    var p := print_(f);
    if s == "" {
      assert s + f == f && "" + p.out == p.out;
    } else {
      assert (s + f)[0] == s[0] && s[0] in s && (s + f)[..1] == s[..1] && (s + f)[1..] == s[1..] + f;
      CharactersArePrinted(print_, s[1..], f);
      assert s[..1] + (s[1..] + p.out) == s + p.out;
    }
  }

  /** Text without a percent sign is printed as it is. */
  lemma LiteralIsPrinted(c: P.Casts, s: string, f: string, args: seq<P.Arg>, argp: nat)
    requires '%' !in s
    ensures P.Print(c, s + f, args, argp) == P.Prepend(s, P.Print(c, f, args, argp))
  {
    var print_ := g => P.Print(c, g, args, argp);
    CharactersArePrinted(print_, s, f);
  }

  /** `%%` prints one percent sign. */
  lemma PercentIsPrinted(c: P.Casts, g: string, f: string, args: seq<P.Arg>, argp: nat)
    requires g == "%%" + f
    ensures P.Print(c, g, args, argp) == P.Prepend("%", P.Print(c, f, args, argp))
  {
    assert g[0] == '%' && g[1] == '%' && g[2..] == f;
  }

  /** A directive prints its field, and the format goes on behind it. */
  lemma PrintGoesOn(c: P.Casts, whole: string, g: string, args: seq<P.Arg>, argp: nat, step: P.Step)
    requires |whole| > 1 && whole[0] == '%' && whole[1] != '%' && whole[1..] == g
    requires P.Directive(c, g, args, argp) == step && step.Field?
    ensures P.Print(c, whole, args, argp) == P.Prepend(step.text, P.Print(c, step.rest, args, step.argp))
  {
  }

  lemma TextStart(d: Spec, f: string)
    requires Valid(d)
    ensures var g := Text(d) + f; g != "" && g[0] != '%'
  {
    var g := Text(d) + f;
    if d.position > 0 {
      DecimalIsRead(d.position);
      assert g[0] == FormatUint(d.position, 10)[0];
    } else if d.flags != "" {
      assert g[0] == d.flags[0] && PrintScan.IsFlag(d.flags[0]);
    } else {
      assert g == Sizes(d) + f;
      PrintScan.WidthTextIsDigits(d.width);
      assert d.width > 0 ==> g[0] == PrintScan.WidthText(d.width)[0];
      assert d.width == 0 ==> g[0] == (PrecisionText(d.precision) + End(d))[0];
    }
  }

  /** `printf("a%sb", s)` prints s between a and b, where neither has a percent sign. */
  lemma StringIsPrinted(c: P.Casts, a: string, b: string, s: string)
    requires '%' !in a && '%' !in b
    ensures P.Print(c, a + ("%s" + b), [P.StrA(s)], 0) == P.Printed(a + (s + b), None)
  {
    var d, args := Spec(0, "", 0, None, false, 's'), [P.StrA(s)];
    var f := "%s" + b;
    assert f[0] == '%' && f[1] == 's' && f[1..] == "s" + b;
    SIsRead(c, d, s, b, args);
    LiteralIsPrinted(c, a, f, args, 0);
    PrintGoesOn(c, f, "s" + b, args, 0, P.Field(s, b, 1));
    LiteralIsPrinted(c, b, "", args, 1);
    NothingIsPrinted(c, "", args, 1);
    assert b + "" == b;
  }

  lemma NothingIsPrinted(c: P.Casts, f: string, args: seq<P.Arg>, argp: nat)
    requires f == ""
    ensures P.Print(c, f, args, argp) == P.Printed("", None)
  {
  }

  lemma SIsRead(c: P.Casts, d: Spec, s: string, rest: string, args: seq<P.Arg>)
    requires d == Spec(0, "", 0, None, false, 's') && args == [P.StrA(s)]
    ensures P.Directive(c, "s" + rest, args, 0) == P.Field(s, rest, 1)
  {
    assert Text(d) == "s";
    assert InField(d, s) == s;
    StringField(c, d, s, rest, args, 0);
  }
}
