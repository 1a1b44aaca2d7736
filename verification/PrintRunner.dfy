/** ZFprintf of core/zprintf.go as the source runs it: a loop that eats the format, moves through
    the arguments and counts the bytes it writes. */
module PrintRunner {
  import opened Options
  import opened Numerals
  import opened Printf
  import Scan = ScanFormats

  method CountDigits(s: string) returns (n: nat)
    ensures n == Scan.Digits(s)
  {
    n := 0;
    while n < |s| && IsDigit(s[n])
      invariant n <= |s| && n + Scan.Digits(s[n..]) == Scan.Digits(s)
    {
      assert s[n..][1..] == s[n + 1..];
      n := n + 1;
    }
  }

  method ReadPositionSpecifier(g: string) returns (position: Option<nat>, rest: string)
    ensures ReadPosition(g) == (position, rest)
  {
    if g == "" {
      return None, g;
    }
    if g[0] == '$' {
      return Some(0), g[1..];
    }
    var j := CountDigits(g);
    if j > 0 && j < |g| && g[j] == '$' {
      return Some(Atoi(g[..j])), g[j + 1..];
    }
    return None, g;
  }

  method ReadFormatOptions(g: string) returns (r: FlagsRead)
    ensures r == ReadFlags(g, Flags(false, false, ' '))
  {
    var o, i := Flags(false, false, ' '), 0;
    while i < |g|
      invariant i <= |g|
      invariant ReadFlags(g[i..], o) == ReadFlags(g, Flags(false, false, ' '))
    {
      ghost var rest := g[i..];
      var c := g[i];
      assert rest[1..] == g[i + 1..];
      if c == '-' {
        o := o.(left := true);
      } else if c == '+' {
        o := o.(plus := true);
      } else if c == '0' || c == ' ' {
        o := o.(pad := c);
      } else if c == '\'' {
        if i + 1 >= |g| {
          return NoPadChar;
        }
        i := i + 1;
        assert rest[2..] == g[i + 1..];
        o := o.(pad := g[i]);
      } else {
        return Read(o, g[i..]);
      }
      i := i + 1;
    }
    return Ended;
  }

  method ReadFormatSize(g: string) returns (size: Size, rest: string)
    ensures ReadSize(g) == (size, rest)
  {
    if g != "" && g[0] == '*' {
      var h := g[1..];
      var j := CountDigits(h);
      if j > 0 && j < |h| && h[j] == '$' && Atoi(h[..j]) > 0 {
        return Star(Atoi(h[..j])), h[j + 1..];
      }
      return Star(0), h;
    }
    var j := CountDigits(g);
    if j == 0 {
      return Absent, g[j..];
    }
    var n := Value(g[..j], 10);
    return if n > MaxWidth then TooLarge else Fixed(n), g[j..];
  }

  method ReadFormatWidth(g: string) returns (width: Size, precision: Size, rest: string)
    ensures ReadWidth(g) == (width, precision, rest)
  {
    width, rest := ReadFormatSize(g);
    precision := Absent;
    if rest != "" && rest[0] == '.' {
      precision, rest := ReadFormatSize(rest[1..]);
      if precision.Absent? {
        precision := Fixed(0);
      }
    }
  }

  method RunDirective(c: Casts, g: string, args: seq<Arg>, argp: nat) returns (r: Step)
    ensures r == Directive(c, g, args, argp)
  {
    var position, g1 := ReadPositionSpecifier(g);
    if position.Some? && (position.value == 0 || position.value >= MaxWidth) {
      return Halt(Some(BadPosition));
    } else if position.Some? && position.value > |args| {
      return Halt(Some(TooFewArguments(position.value + 1)));
    }
    if position.None? && |args| <= argp {
      return Halt(Some(TooFewArguments(argp + 2)));
    }
    var flags := ReadFormatOptions(g1);
    match flags
    case NoPadChar => return Halt(Some(MissingPadChar));
    case Ended => return Halt(None);
    case Read(o, g2) => r := RunSized(c, o, if position.None? then 0 else position.value, g2, args, argp);
  }

  method RunSized(c: Casts, o: Flags, position: nat, g: string, args: seq<Arg>, argp: nat) returns (r: Step)
    ensures r == Sized(c, o, position, g, args, argp)
  {
    var width, precision, rest := ReadFormatWidth(g);
    if rest == "" {
      return Halt(None);
    }
    if width.TooLarge? {
      return Halt(Some(WidthTooLarge));
    }
    if precision.TooLarge? {
      return Halt(Some(PrecisionTooLarge));
    }
    var next := argp;
    var w := ResolveWidth(c, width, args, next);
    if w.Failed? {
      return Halt(Some(w.problem));
    }
    next := w.argp;
    var p := ResolvePrecision(c, precision, args, next);
    if p.Failed? {
      return Halt(Some(p.problem));
    }
    next := p.argp;
    var a := NextArg(args, next, position);
    if a.Failed? {
      return Halt(Some(a.problem));
    }
    next := a.argp;
    if rest[0] == 'l' && |rest| > 1 {
      rest := rest[1..];
    }
    r := Convert(c, o, w.v, p.v, precision.Star?, rest[0], a.v, rest[1..], next);
  }

  method IndexPercent(s: string) returns (p: nat)
    ensures p <= |s| && (forall i :: 0 <= i < p ==> s[i] != '%') && (p < |s| ==> s[p] == '%')
  {
    p := 0;
    while p < |s| && s[p] != '%'
      invariant p <= |s| && forall i :: 0 <= i < p ==> s[i] != '%'
    {
      p := p + 1;
    }
  }

  lemma PrependTwice(a: string, b: string, p: Printed)
    ensures Prepend(a, Prepend(b, p)) == Prepend(a + b, p)
  {
    assert a + (b + p.out) == a + b + p.out;
  }

  lemma {:induction false} LiteralRun(c: Casts, f: string, p: nat, args: seq<Arg>, argp: nat)
    requires p <= |f| && forall i :: 0 <= i < p ==> f[i] != '%'
    ensures Print(c, f, args, argp) == Prepend(f[..p], Print(c, f[p..], args, argp))
  {
    if p == 0 {
      assert f[0..] == f && f[..0] == "";
      assert "" + Print(c, f, args, argp).out == Print(c, f, args, argp).out;
    } else {
      LiteralRun(c, f[1..], p - 1, args, argp);
      assert f[1..][p - 1..] == f[p..] && f[..1] + f[1..][..p - 1] == f[..p];
      PrependTwice(f[..1], f[1..][..p - 1], Print(c, f[p..], args, argp));
    }
  }

  /** What comes at a `%`: an escaped one, or a directive. */
  function AtPercent(c: Casts, rest: string, args: seq<Arg>, argp: nat): Step
    requires |rest| > 1
  {
    if rest[1] == '%' then Field("%", rest[2..], argp) else Directive(c, rest[1..], args, argp)
  }

  method RunPercent(c: Casts, rest: string, args: seq<Arg>, argp: nat) returns (r: Step)
    requires |rest| > 1
    ensures r == AtPercent(c, rest, args, argp)
  {
    if rest[1] == '%' {
      return Field("%", rest[2..], argp);
    }
    r := RunDirective(c, rest[1..], args, argp);
  }

  /** The text up to and with the next directive; `over` where printing stops with it. */
  ghost predicate PrintsNext(c: Casts, f: string, args: seq<Arg>, argp: nat, text: string,
      over: Option<Option<Problem>>, rest: string, argp': nat) {
    match over
    case Some(problem) => Print(c, f, args, argp) == Printed(text, problem)
    case None => |rest| < |f| && Print(c, f, args, argp) == Prepend(text, Print(c, rest, args, argp'))
  }

  lemma LiteralThenPercent(c: Casts, f: string, args: seq<Arg>, argp: nat, p: nat, r: Step)
    requires p + 1 < |f| && (forall i :: 0 <= i < p ==> f[i] != '%') && f[p] == '%'
    requires r == AtPercent(c, f[p..], args, argp)
    ensures match r
            case Halt(problem) => PrintsNext(c, f, args, argp, f[..p], Some(problem), "", argp)
            case Field(text, after, argp') => PrintsNext(c, f, args, argp, f[..p] + text, None, after, argp')
  {
    LiteralRun(c, f, p, args, argp);
    match r
    case Halt(problem) => assert f[..p] + "" == f[..p];
    case Field(text, after, argp') => PrependTwice(f[..p], text, Print(c, after, args, argp'));
  }

  lemma LiteralThenEnd(c: Casts, f: string, args: seq<Arg>, argp: nat, p: nat)
    requires p <= |f| <= p + 1 && (forall i :: 0 <= i < p ==> f[i] != '%') && (p < |f| ==> f[p] == '%')
    ensures Print(c, f, args, argp) == Printed(f, if p < |f| then Some(LonePercent) else None)
  {
    LiteralRun(c, f, p, args, argp);
    assert f[..p] + f[p..] == f;
    assert p < |f| ==> f[p..] == "%";
    assert p == |f| ==> f[p..] == "";
  }

  method PrintNext(c: Casts, f: string, args: seq<Arg>, argp: nat)
      returns (text: string, over: Option<Option<Problem>>, rest: string, argp': nat)
    ensures PrintsNext(c, f, args, argp, text, over, rest, argp')
  {
    rest, argp' := "", argp;
    var p := IndexPercent(f);
    if p + 1 >= |f| {
      LiteralThenEnd(c, f, args, argp, p);
      return f, Some(if p < |f| then Some(LonePercent) else None), rest, argp';
    }
    var r := RunPercent(c, f[p..], args, argp);
    LiteralThenPercent(c, f, args, argp, p, r);
    match r
    case Halt(problem) => text, over := f[..p], Some(problem);
    case Field(field, after, next) => text, over, rest, argp' := f[..p] + field, None, after, next;
  }

  method ZFprintf(c: Casts, format: string, args: seq<Arg>)
    returns (out: string, written: nat, problem: Option<Problem>)
    ensures Print(c, format, args, 0) == Printed(out, problem) && written == |out|
  {
    var rest, argp := format, 0;
    out, written := "", 0;
    assert "" + Print(c, rest, args, argp).out == Print(c, rest, args, argp).out;
    while true
      invariant written == |out| && Print(c, format, args, 0) == Prepend(out, Print(c, rest, args, argp))
      decreases |rest|
    {
      var text, over, after, next := PrintNext(c, rest, args, argp);
      PrependTwice(out, text, Print(c, after, args, next));
      out, written := out + text, written + |text|;
      if over.Some? {
        return out, written, over.value;
      }
      rest, argp := after, next;
    }
  }
}
