/** Formatted output (ZFprintf in core/zprintf.go). Strings are sequences of bytes; conversions of
    arguments to other types and the texts of floats are parameters. */
module Printf {
  import opened Options
  import opened Numerals
  import Scan = ScanFormats

  datatype Arg = IntA(n: int) | StrA(s: string) | OtherA(id: nat)

  datatype Casts = Casts(
    integer: Arg -> Option<int>,
    text: Arg -> Option<string>,
    precision: Arg -> Option<int>,
    float: (char, Option<int>, Arg) -> Option<string>)

  datatype Problem =
    | LonePercent | BadPosition | TooFewArguments(needed: int) | MissingPadChar
    | WidthTooLarge | PrecisionTooLarge | WidthNotInteger | WidthOutOfRange
    | PrecisionNotInteger | PrecisionOutOfRange | PrecisionUnsupported | CastFailed

  datatype Flags = Flags(left: bool, plus: bool, pad: char)

  const MaxWidth := 2147483647

  // ----- padding -----

  /** Go's string(b) of a byte is the UTF-8 form of the code point. */
  function Utf8(b: char): string {
    if b as int < 0x80 then [b] else [(0xC0 + b as int / 64 % 32) as char, (0x80 + b as int % 64) as char]
  }

  function RepeatText(s: string, n: nat): string {
    if n == 0 then "" else s + RepeatText(s, n - 1)
  }

  function Pad(s: string, width: nat, o: Flags): string {
    if |s| >= width then s
    else if o.left then s + RepeatText(Utf8(o.pad), width - |s|)
    else if o.pad == '0' && Signed(s) then s[..1] + Repeat('0', width - |s|) + s[1..]
    else RepeatText(Utf8(o.pad), width - |s|) + s
  }

  // ----- parsing a directive -----

  /** readPositionSpecifier: None without a specifier. */
  function ReadPosition(g: string): (r: (Option<nat>, string))
    ensures |r.1| <= |g|
  {
    var j := Scan.Digits(g);
    if g != "" && g[0] == '$' then (Some(0), g[1..])
    else if 0 < j < |g| && g[j] == '$' then (Some(Atoi(g[..j])), g[j + 1..])
    else (None, g)
  }

  datatype FlagsRead = NoPadChar | Ended | Read(o: Flags, rest: string)

  function ReadFlags(g: string, o: Flags): (r: FlagsRead)
    ensures r.Read? ==> 0 < |r.rest| <= |g|
    decreases |g|
  {
    if g == "" then Ended
    else if g[0] == '-' then ReadFlags(g[1..], o.(left := true))
    else if g[0] == '+' then ReadFlags(g[1..], o.(plus := true))
    else if g[0] == '0' || g[0] == ' ' then ReadFlags(g[1..], o.(pad := g[0]))
    else if g[0] == '\'' then
      if |g| == 1 then NoPadChar else ReadFlags(g[2..], o.(pad := g[1]))
    else Read(o, g)
  }

  /** A width or precision as written. `Star(p)` takes it from an argument, `p` > 0 naming which. */
  datatype Size = Absent | Fixed(n: nat) | TooLarge | Star(p: nat)

  function ReadStar(g: string): (r: (Size, string))
    ensures |r.1| <= |g|
  {
    var j := Scan.Digits(g);
    if 0 < j < |g| && g[j] == '$' && Atoi(g[..j]) > 0 then (Star(Atoi(g[..j])), g[j + 1..]) else (Star(0), g)
  }

  function ReadSize(g: string): (r: (Size, string))
    ensures |r.1| <= |g|
  {
    if g != "" && g[0] == '*' then ReadStar(g[1..])
    else
      var j := Scan.Digits(g);
      (if j == 0 then Absent else if Value(g[..j], 10) > MaxWidth then TooLarge else Fixed(Value(g[..j], 10)), g[j..])
  }

  /** readFormatWidth; the remaining text is empty when the format ends first. */
  function ReadWidth(g: string): (r: (Size, Size, string))
    ensures |r.2| <= |g|
  {
    var (w, g1) := ReadSize(g);
    if g1 == "" || g1[0] != '.' then (w, Absent, g1)
    else
      var (p, g2) := ReadSize(g1[1..]);
      (w, if p.Absent? then Fixed(0) else p, g2)
  }

  // ----- resolving against the arguments -----

  datatype Resolved<T> = Failed(problem: Problem) | Given(v: T, argp: nat)

  function NextArg(args: seq<Arg>, argp: nat, position: nat): Resolved<Arg> {
    var k := if position > 0 then position - 1 else argp;
    if k >= |args| then Failed(TooFewArguments(k + 2))
    else Given(args[k], if position > 0 then argp else argp + 1)
  }

  function ToInt(c: Casts, a: Arg): Option<int> {
    if a.IntA? then Some(a.n) else c.integer(a)
  }

  function ResolveWidth(c: Casts, size: Size, args: seq<Arg>, argp: nat): (r: Resolved<nat>) {
    match size
    case Absent => Given(0, argp)
    case Fixed(n) => Given(n, argp)
    case TooLarge => Failed(WidthTooLarge)
    case Star(p) =>
      var a := NextArg(args, argp, p);
      if a.Failed? then Failed(a.problem)
      else
        var n := ToInt(c, a.v);
        if n.None? then Failed(WidthNotInteger)
        else if n.value < 0 || n.value >= MaxWidth then Failed(WidthOutOfRange)
        else Given(n.value, a.argp)
  }

  /** The precision, -1 when there is none. */
  function ResolvePrecision(c: Casts, size: Size, args: seq<Arg>, argp: nat): Resolved<int> {
    match size
    case Absent => Given(-1, argp)
    case Fixed(n) => Given(n, argp)
    case TooLarge => Failed(PrecisionTooLarge)
    case Star(p) =>
      var a := NextArg(args, argp, p);
      if a.Failed? then Failed(a.problem)
      else
        var n := if a.v.IntA? then Some(a.v.n) else c.precision(a.v);
        if n.None? then Failed(PrecisionNotInteger)
        else if n.value < -1 || n.value >= MaxWidth then Failed(PrecisionOutOfRange)
        else Given(n.value, a.argp)
  }

  // ----- one field -----

  function Uint(n: int): nat {
    n % Two64
  }

  function IntegerText(conv: char, n: int): string {
    match conv
    case 'd' => FormatInt(n)
    case 'o' => FormatUint(Uint(n), 8)
    case 'u' => FormatUint(Uint(n), 10)
    case 'x' => FormatUint(Uint(n), 16)
    case 'X' => ToUpper(FormatUint(Uint(n), 16))
    case 'b' => FormatUint(Uint(n), 2)
    case _ => [(n % 256) as char]
  }

  /** The text of a conversion before sign and padding; unknown conversions print nothing. */
  function BareText(c: Casts, conv: char, precision: int, star: bool, a: Arg): Option<string> {
    if conv in {'d', 'o', 'u', 'x', 'X', 'b', 'c'} then
      var n := ToInt(c, a);
      if n.None? then None else Some(IntegerText(conv, n.value))
    else if conv == 's' then
      var s := if a.StrA? then Some(a.s) else c.text(a);
      if s.Some? && 0 <= precision < |s.value| then Some(s.value[..precision]) else s
    else if conv in {'e', 'E', 'g', 'G', 'h', 'H', 'f', 'F'} then
      c.float(conv, if precision >= 0 || star then Some(precision) else None, a)
    else Some("")
  }

  function IsSigned(conv: char): bool {
    conv in {'d', 'e', 'E', 'g', 'G', 'h', 'H', 'f', 'F'}
  }

  function WithPlus(o: Flags, conv: char, s: string): string {
    if o.plus && IsSigned(conv) && s != "" && s[0] != '-' then "+" + s else s
  }

  datatype Step = Halt(problem: Option<Problem>) | Field(text: string, rest: string, argp: nat)

  /** One directive, from behind its `%`. */
  function Directive(c: Casts, g: string, args: seq<Arg>, argp: nat): (r: Step)
    ensures r.Field? ==> |r.rest| < |g|
  {
    var (position, g1) := ReadPosition(g);
    if position.Some? && (position.value == 0 || position.value >= MaxWidth) then Halt(Some(BadPosition))
    else if position.Some? && position.value > |args| then Halt(Some(TooFewArguments(position.value + 1)))
    else if position.None? && argp >= |args| then Halt(Some(TooFewArguments(argp + 2)))
    else
      match ReadFlags(g1, Flags(false, false, ' '))
      case NoPadChar => Halt(Some(MissingPadChar))
      case Ended => Halt(None)
      case Read(o, g2) => Sized(c, o, if position.None? then 0 else position.value, g2, args, argp)
  }

  function Sized(c: Casts, o: Flags, position: nat, g: string, args: seq<Arg>, argp: nat): (r: Step)
    ensures r.Field? ==> |r.rest| < |g|
  {
    var (width, precision, g1) := ReadWidth(g);
    if g1 == "" then Halt(None)
    else if width.TooLarge? then Halt(Some(WidthTooLarge))
    else if precision.TooLarge? then Halt(Some(PrecisionTooLarge))
    else
      var w := ResolveWidth(c, width, args, argp);
      if w.Failed? then Halt(Some(w.problem))
      else
        var p := ResolvePrecision(c, precision, args, w.argp);
        if p.Failed? then Halt(Some(p.problem))
        else
          var a := NextArg(args, p.argp, position);
          if a.Failed? then Halt(Some(a.problem))
          else
            var g2 := if g1[0] == 'l' && |g1| > 1 then g1[1..] else g1;
            Convert(c, o, w.v, p.v, precision.Star?, g2[0], a.v, g2[1..], a.argp)
  }

  function Convert(c: Casts, o: Flags, width: nat, precision: int, star: bool, conv: char, a: Arg, rest: string,
      argp: nat): (r: Step)
    ensures r.Field? ==> r.rest == rest
  {
    if star && precision == -1 && conv !in {'g', 'G', 'h', 'H'} then Halt(Some(PrecisionUnsupported))
    else
      var s := BareText(c, conv, precision, star, a);
      if s.None? then Halt(Some(CastFailed)) else Field(Pad(WithPlus(o, conv, s.value), width, o), rest, argp)
  }

  // ----- a whole format -----

  datatype Printed = Printed(out: string, problem: Option<Problem>)

  function Prepend(s: string, p: Printed): Printed {
    p.(out := s + p.out)
  }

  function Print(c: Casts, f: string, args: seq<Arg>, argp: nat): Printed
    decreases |f|
  {
    if f == "" then Printed("", None)
    else if f[0] != '%' then Prepend(f[..1], Print(c, f[1..], args, argp))
    else if |f| == 1 then Printed("%", Some(LonePercent))
    else if f[1] == '%' then Prepend("%", Print(c, f[2..], args, argp))
    else
      match Directive(c, f[1..], args, argp)
      case Halt(problem) => Printed("", problem)
      case Field(text, rest, argp') => Prepend(text, Print(c, rest, args, argp'))
  }

  // ----- padding -----

  lemma {:induction false} RepeatTextLength(s: string, n: nat)
    ensures |RepeatText(s, n)| == n * |s|
  {
    if n > 0 {
      RepeatTextLength(s, n - 1);
      assert n * |s| == (n - 1) * |s| + |s|;
    }
  }

  /** A padded field is exactly as wide as asked, if and only if it needs no padding or the padding
      character is ASCII; other characters are written as two bytes each. */
  lemma PadWidth(s: string, width: nat, o: Flags)
    requires o.pad as int < 256
    ensures |Pad(s, width, o)| == (if width > |s| then width else |s|) <==> width <= |s| || o.pad as int < 0x80
    ensures |Pad(s, width, o)| >= width
  {
    if width > |s| {
      RepeatTextLength(Utf8(o.pad), width - |s|);
      if o.pad as int < 0x80 {
        assert (width - |s|) * 1 == width - |s|;
      } else {
        assert |Utf8(o.pad)| == 2;
      }
    }
  }

  lemma {:induction false} RepeatAscii(c: char, n: nat)
    requires c as int < 0x80
    ensures RepeatText(Utf8(c), n) == Repeat(c, n)
  {
    if n > 0 {
      RepeatAscii(c, n - 1);
      assert [c] + Repeat(c, n - 1) == Repeat(c, n);
    }
  }
}
