/** Formatted input (zscanRead and zscanfIntoArray in core/zscanf.go). Strings are sequences of
    bytes; the reads of `%i` and of floats, which unread several bytes, are parameters. */
module Scanf {
  import opened Options
  import opened Numerals
  import opened ScanFormats

  datatype Val = Unset | Null | IntV(n: int) | StrV(s: string) | FloatV(f: real)

  /** What a parameterised read gives: a value, the unread input, and the new consumed count. */
  datatype Other<T> = Other(v: T, rest: string, consumed: nat)

  datatype Readers = Readers(
    integer: (string, int, nat) -> Option<Other<int>>,
    float: (string, int, nat) -> Option<Other<real>>)

  // ----- reading the input -----

  function Spaces(s: string): (n: nat)
    ensures n <= |s|
  {
    if s == "" || !IsSpace(s[0]) then 0 else 1 + Spaces(s[1..])
  }

  /** Length of the run of digits; a negative width is no limit. */
  function DigitRun(s: string, base: nat, width: int): (n: nat)
    ensures n <= |s| && AllDigits(s[..n], base)
    decreases s
  {
    if width == 0 || s == "" || DigitValue(s[0]) >= base then 0
    else
      var n := DigitRun(s[1..], base, if width > 0 then width - 1 else width);
      assert s[..1 + n] == [s[0]] + s[1..][..n];
      1 + n
  }

  function NonSpaceRun(s: string, width: int): (n: nat)
    ensures n <= |s|
    decreases s
  {
    if width == 0 || s == "" || IsSpace(s[0]) then 0 else 1 + NonSpaceRun(s[1..], width - 1)
  }

  /** A class item is one character or, as in `a-z`, a range. */
  predicate RangeAt(body: string, i: nat) {
    i + 2 < |body| && body[i + 1] == '-'
  }

  function HeadItems(body: string): set<char> {
    if ClassHead(body) > 0 && body[ClassHead(body) - 1] == ']' then {']'} else {}
  }

  predicate InItems(c: char, body: string, i: nat)
    decreases |body| - i
  {
    if i >= |body| then false
    else if RangeAt(body, i) then body[i] <= c <= body[i + 2] || InItems(c, body, i + 3)
    else c == body[i] || InItems(c, body, i + 1)
  }

  predicate InClass(c: char, body: string) {
    (c in HeadItems(body) || InItems(c, body, ClassHead(body))) != (body != "" && body[0] == '^')
  }

  /** A range up to the byte 255 never ends: its loop variable is a byte. */
  predicate Endless(body: string, i: nat)
    decreases |body| - i
  {
    if i >= |body| then false
    else if RangeAt(body, i) then body[i + 2] == '\U{FF}' || Endless(body, i + 3)
    else Endless(body, i + 1)
  }

  function ClassRun(s: string, body: string, width: int): (n: nat)
    ensures n <= |s|
    decreases s
  {
    if width == 0 || s == "" || !InClass(s[0], body) then 0 else 1 + ClassRun(s[1..], body, width - 1)
  }

  function TrimPlus(s: string): string {
    if s != "" && s[0] == '+' then s[1..] else s
  }

  function ToInteger(s: string, base: nat): Option<int> {
    var n := ParseInt(s, base);
    if n.Some? then n
    else
      var u := ParseUint(TrimPlus(s), base);
      if u.Some? then Some(ToInt64(u.value)) else None
  }

  datatype Int64Read = Int64Read(n: Option<int>, rest: string)

  /** scanReadIntTracked. */
  function ReadInt(s: string, base: nat, width: int): (r: Int64Read)
    ensures |r.rest| <= |s|
  {
    if s == "" then Int64Read(None, s)
    else if !Signed(s) then ReadMagnitude("", s, base, width)
    else ReadMagnitude(s[..1], s[1..], base, if width > 0 then width - 1 else width)
  }

  predicate HexPrefix(s: string, base: nat) {
    base == 16 && |s| >= 2 && s[0] == '0' && s[1] in {'x', 'X'}
  }

  function ReadMagnitude(sign: string, s: string, base: nat, width: int): (r: Int64Read)
    ensures |r.rest| <= |s|
  {
    if width == 0 then Int64Read(None, s)
    else if HexPrefix(s, base) then ReadRun(sign, s[2..], base, if width > 0 then width - 2 else width)
    else ReadRun(sign, s, base, width)
  }

  function ReadRun(sign: string, s: string, base: nat, width: int): (r: Int64Read)
    ensures |r.rest| <= |s|
  {
    var n := DigitRun(s, base, width);
    Int64Read(if n == 0 then None else ToInteger(sign + s[..n], base), s[n..])
  }

  // ----- one conversion -----

  datatype Conversion = Bad | Hangs | Fails | Got(v: Val, rest: string, consumed: nat)

  function Base(c: char): nat {
    if c == 'o' then 8 else if c == 'x' || c == 'X' then 16 else 10
  }

  function ScanInteger(c: char, s: string, width: int, consumed: nat): Conversion {
    Deliver(c, ReadInt(s[Spaces(s)..], Base(c), width), s, consumed)
  }

  function Deliver(c: char, r: Int64Read, s: string, consumed: nat): Conversion {
    if r.n.None? || |r.rest| > |s| then Fails
    else Got(if c == 'u' then Unsigned(r.n.value) else IntV(r.n.value), r.rest, consumed + |s| - |r.rest|)
  }

  /** `%u`: an integer where it fits, otherwise the decimal text. */
  function Unsigned(n: int): Val {
    var u: int := if n < 0 then n + Two64 else n;
    if u < Two63 then IntV(u) else StrV(FormatUint(u, 10))
  }

  function ScanOther<T>(r: Option<Other<T>>, wrap: T -> Val): Conversion {
    if r.None? then Fails else Got(wrap(r.value.v), r.value.rest, r.value.consumed)
  }

  function ScanChars(s: string, width: int, consumed: nat): Conversion {
    var n := NonSpaceRun(s, if width > 0 then width else 1);
    if s == "" then Fails else Got(StrV(s[..n]), s[n..], consumed + n)
  }

  function ScanWord(s: string, width: int, consumed: nat): Conversion {
    var n := NonSpaceRun(s, width);
    if n == 0 then Fails else Got(StrV(s[..n]), s[n..], consumed + n)
  }

  function ScanClass(s: string, body: string, width: int, consumed: nat): Conversion {
    if Endless(body, ClassHead(body)) then Hangs
    else
      var n := ClassRun(s, body, width);
      Got(if n == 0 then Null else StrV(s[..n]), s[n..], consumed + n)
  }

  function Convert(w: Readers, t: Token, s: string, consumed: nat): Conversion
    requires t.conv.Some?
  {
    var c := t.conv.value;
    var s1 := s[Spaces(s)..];
    var consumed1 := consumed + Spaces(s);
    if c == 'n' then Got(IntV(consumed), s, consumed)
    else if c == 'c' then ScanChars(s, t.width, consumed)
    else if c == 's' then ScanWord(s1, t.width, consumed1)
    else if c in {'d', 'o', 'x', 'X', 'u'} then ScanInteger(c, s, t.width, consumed)
    else if c == 'i' then ScanOther(w.integer(s1, t.width, consumed1), n => IntV(n))
    else if c in {'f', 'e', 'E', 'g'} then ScanOther(w.float(s1, t.width, consumed1), f => FloatV(f))
    else if c == '[' then ScanClass(s, t.body, t.width, consumed)
    else Bad
  }

  // ----- a whole scan -----

  datatype Outcome =
    | BadChar(c: char)
    | IndexOutOfRange
    | Endlessly
    | Done(values: seq<Val>, failed: bool)

  function Store(values: seq<Val>, position: int, v: Val): seq<Val> {
    if position <= 0 then values + [v]
    else
      var padded := values + seq(if |values| < position then position - |values| else 0, _ => Unset);
      padded[position - 1 := v]
  }

  /** Where a scan is: the format and input ahead, the %n count, the values so far. */
  datatype State = State(f: string, s: string, consumed: nat, values: seq<Val>)

  datatype Progress = Stop(o: Outcome) | Next(st: State)

  function Directive(w: Readers, st: State): (p: Progress)
    requires st.f != ""
    ensures p.Next? ==> |p.st.f| < |st.f|
  {
    var t := Tokenise(st.f[1..]);
    if t.position > MaxPosition then Stop(IndexOutOfRange)
    else if t.conv.None? then Stop(Done(st.values, false))
    else Continue(t, Convert(w, t, st.s, st.consumed), st.values)
  }

  function Continue(t: Token, c: Conversion, values: seq<Val>): (p: Progress)
    requires t.conv.Some?
    ensures p.Next? ==> p.st.f == t.after
  {
    match c
    case Bad => Stop(BadChar(t.conv.value))
    case Hangs => Stop(Endlessly)
    case Fails => Stop(Done(values, true))
    case Got(v, s, consumed) =>
        Next(State(t.after, s, consumed, if t.suppress then values else Store(values, t.position, v)))
  }

  function Literal(c: char, after: string, st: State): Progress {
    if st.s == "" || st.s[0] != c then Stop(Done(st.values, false))
    else Next(State(after, st.s[1..], st.consumed + 1, st.values))
  }

  predicate AtDirective(f: string) {
    f != "" && f[0] == '%' && (|f| == 1 || f[1] != '%')
  }

  function Step(w: Readers, st: State): (p: Progress)
    requires st.f != ""
    ensures p.Next? ==> |p.st.f| < |st.f|
  {
    var n := Spaces(st.s);
    if AtDirective(st.f) then Directive(w, st)
    else if IsSpace(st.f[0]) then Next(State(st.f[1..], st.s[n..], st.consumed + n, st.values))
    else if st.f[0] != '%' then Literal(st.f[0], st.f[1..], st)
    else Literal('%', st.f[2..], st)
  }

  function Scan(w: Readers, st: State): Outcome
    decreases |st.f|
  {
    if st.f == "" then Done(st.values, false)
    else
      match Step(w, st)
      case Stop(o) => o
      case Next(st') => Scan(w, st')
  }

  function Start(f: string, input: string): State {
    State(f, input, 0, [])
  }

  datatype Answer = Error(o: Outcome) | Nothing | Array(slots: seq<Val>)

  const Peeked := 4096

  predicate AllSpace(s: string) {
    forall i :: 0 <= i < |s| ==> IsSpace(s[i])
  }

  /** zscanfIntoArray. */
  function IntoArray(w: Readers, f: string, input: string): Answer {
    var o := Scan(w, Start(f, input));
    if !o.Done? then Error(o)
    else if o.values == []
      && (input == "" || (o.failed && AllSpace(if |input| > Peeked then input[..Peeked] else input))) then Nothing
    else
      var missing := |Fields(f)| - |o.values|;
      Array(o.values + seq(if missing > 0 then missing else 0, _ => Null))
  }

  // ----- the parsers agree -----

  lemma DirectiveValidates(w: Readers, st: State)
    requires AtDirective(st.f)
    ensures match Directive(w, st)
            case Next(st') => Validate(st.f) == Validate(st'.f)
            case Stop(o) => o.BadChar? ==> Validate(st.f) == Some(o.c)
  {
    var t := Tokenise(st.f[1..]);
    if t.conv.Some? {
      var c := Convert(w, t, st.s, st.consumed);
      OnlyConversionsConvert(w, t, st.s, st.consumed);
      assert c.Got? ==> Continue(t, c, st.values).st.f == t.after;
      assert c.Bad? ==> Continue(t, c, st.values) == Stop(BadChar(t.conv.value));
    }
  }

  /** A step keeps the validator's verdict; when it rejects a character, so does the validator. */
  lemma StepValidates(w: Readers, st: State)
    requires st.f != ""
    ensures match Step(w, st)
            case Next(st') => Validate(st.f) == Validate(st'.f)
            case Stop(o) => o.BadChar? ==> Validate(st.f) == Some(o.c)
  {
    if AtDirective(st.f) {
      DirectiveValidates(w, st);
    } else {
      assert Step(w, st).Next? ==> Validate(st.f) == Validate(Step(w, st).st.f);
    }
  }

  lemma OnlyConversionsConvert(w: Readers, t: Token, s: string, consumed: nat)
    requires t.conv.Some?
    ensures Convert(w, t, s, consumed).Bad? <==> !IsConversion(t.conv.value)
    ensures Convert(w, t, s, consumed).Got? ==> Fits(t.conv.value, Convert(w, t, s, consumed).v)
  {
  }

  /** When scanning complains about a character, the validator names the same character. */
  lemma {:induction false} ErrorsAgree(w: Readers, st: State)
    requires Scan(w, st).BadChar?
    ensures Validate(st.f) == Some(Scan(w, st).c)
    decreases |st.f|
  {
    StepValidates(w, st);
    if Step(w, st).Next? {
      ErrorsAgree(w, Step(w, st).st);
    }
  }

  /** The kind of value a conversion produces. */
  predicate Fits(c: char, v: Val) {
    if c in {'d', 'i', 'o', 'x', 'X', 'n'} then v.IntV?
    else if c in {'f', 'e', 'E', 'g'} then v.FloatV?
    else if c == 'u' then v.IntV? || v.StrV?
    else if c == '[' then v.Null? || v.StrV?
    else v.StrV?
  }

  predicate FitAll(fields: seq<char>, values: seq<Val>) {
    |values| <= |fields| && forall k :: 0 <= k < |values| ==> Fits(fields[k], values[k])
  }

  /** A step uses up no field, or the first one, for a value that fits it. */
  predicate Advances(before: State, after: State) {
    var fields := Fields(before.f);
    && Sequential(after.f)
    && (|| (after.values == before.values && fields == Fields(after.f))
        || (&& |after.values| == |before.values| + 1 && after.values[..|before.values|] == before.values
            && fields != [] && fields[1..] == Fields(after.f) && Fits(fields[0], after.values[|before.values|])))
  }

  lemma DirectiveFits(w: Readers, st: State)
    requires AtDirective(st.f) && Sequential(st.f)
    ensures match Directive(w, st)
            case Next(st') => Advances(st, st')
            case Stop(o) => (o.Done? ==> o.values == st.values) && !o.IndexOutOfRange?
  {
    var t := Tokenise(st.f[1..]);
    if t.conv.Some? {
      var c := Convert(w, t, st.s, st.consumed);
      OnlyConversionsConvert(w, t, st.s, st.consumed);
      FieldOf(st.f, t);
      ContinueFits(t, c, st);
    }
  }

  lemma FieldOf(f: string, t: Token)
    requires AtDirective(f) && Sequential(f) && t == Tokenise(f[1..]) && t.conv.Some?
    ensures t.position <= 0 && Sequential(t.after)
    ensures Fields(f) == (if t.suppress then [] else [t.conv.value]) + Fields(t.after)
  {
  }

  lemma ContinueFits(t: Token, c: Conversion, st: State)
    requires t.conv.Some? && t.position <= 0 && Sequential(t.after)
    requires Fields(st.f) == (if t.suppress then [] else [t.conv.value]) + Fields(t.after)
    requires c.Got? ==> Fits(t.conv.value, c.v)
    ensures match Continue(t, c, st.values)
            case Next(st') => Advances(st, st')
            case Stop(o) => (o.Done? ==> o.values == st.values) && !o.IndexOutOfRange?
  {
  }

  lemma StepFits(w: Readers, st: State)
    requires st.f != "" && Sequential(st.f)
    ensures match Step(w, st)
            case Next(st') => Advances(st, st')
            case Stop(o) => (o.Done? ==> o.values == st.values) && !o.IndexOutOfRange?
  {
    if AtDirective(st.f) {
      DirectiveFits(w, st);
    } else {
      assert Step(w, st).Next? ==> Advances(st, Step(w, st).st);
    }
  }

  predicate LinesUp(st: State, values: seq<Val>) {
    st.values <= values && FitAll(Fields(st.f), values[|st.values|..])
  }

  lemma AdvanceLinesUp(before: State, after: State, values: seq<Val>)
    requires Advances(before, after) && LinesUp(after, values)
    ensures LinesUp(before, values)
  {
    if after.values != before.values {
      var n := |before.values|;
      assert after.values[n] == values[n];
      assert values[n..] == [values[n]] + values[n + 1..];
      assert Fields(before.f) == [Fields(before.f)[0]] + Fields(after.f);
    }
  }

  /** Without positions, the values scanned line up with the first fields of the format. */
  lemma {:induction false} ValuesFitFields(w: Readers, st: State)
    requires Sequential(st.f)
    ensures var o := Scan(w, st); !o.IndexOutOfRange? && (o.Done? ==> LinesUp(st, o.values))
    decreases |st.f|
  {
    if st.f != "" {
      StepFits(w, st);
      var p := Step(w, st);
      if p.Next? {
        ValuesFitFields(w, p.st);
        if Scan(w, st).Done? {
          AdvanceLinesUp(st, p.st, Scan(w, st).values);
        }
      }
    }
  }

  /** For a validated format without positions, any array answer has one slot per field, each
      holding null or a value of the field's kind. */
  lemma OneSlotPerField(w: Readers, f: string, input: string)
    requires Validate(f).None? && Sequential(f)
    ensures match IntoArray(w, f, input)
            case Error(o) => o.Endlessly?
            case Nothing => true
            case Array(slots) =>
              |slots| == |Fields(f)| && forall k :: 0 <= k < |slots| ==> slots[k].Null? || Fits(Fields(f)[k], slots[k])
  {
    var o := Scan(w, Start(f, input));
    ValuesFitFields(w, Start(f, input));
    if o.BadChar? {
      ErrorsAgree(w, Start(f, input));
    } else if o.Done? {
      assert o.values[0..] == o.values;
    }
  }

  // ----- %n counts the bytes read -----

  /** `after` is reached from `before` by reading bytes off the input and counting each once. */
  predicate Counts(before: string, consumed: nat, after: string, consumed': nat) {
    |after| <= |before| && after == before[|before| - |after|..] && consumed' == consumed + |before| - |after|
  }

  lemma CountsCompose(a: string, i: nat, b: string, j: nat, c: string, k: nat)
    requires Counts(a, i, b, j) && Counts(b, j, c, k)
    ensures Counts(a, i, c, k)
  {
  }

  ghost predicate Honest<T>(read: (string, int, nat) -> Option<Other<T>>) {
    forall s: string, width: int, consumed: nat :: read(s, width, consumed).Some? ==>
      Counts(s, consumed, read(s, width, consumed).value.rest, read(s, width, consumed).value.consumed)
  }

  lemma ReadIntIsSuffix(s: string, base: nat, width: int)
    ensures var r := ReadInt(s, base, width).rest; |r| <= |s| && r == s[|s| - |r|..]
  {
  }

  lemma IntegerCounts(c: char, s: string, width: int, consumed: nat)
    ensures var r := ScanInteger(c, s, width, consumed); r.Got? ==> Counts(s, consumed, r.rest, r.consumed)
  {
    ReadIntIsSuffix(s[Spaces(s)..], Base(c), width);
  }

  lemma OtherCounts<T>(read: (string, int, nat) -> Option<Other<T>>, wrap: T -> Val, s: string, width: int,
      consumed: nat)
    requires Honest(read)
    ensures var r := ScanOther(read(s[Spaces(s)..], width, consumed + Spaces(s)), wrap);
            r.Got? ==> Counts(s, consumed, r.rest, r.consumed)
  {
    var r := read(s[Spaces(s)..], width, consumed + Spaces(s));
    if r.Some? {
      CountsCompose(s, consumed, s[Spaces(s)..], consumed + Spaces(s), r.value.rest, r.value.consumed);
    }
  }

  lemma ConvertCounts(w: Readers, t: Token, s: string, consumed: nat)
    requires t.conv.Some? && Honest(w.integer) && Honest(w.float)
    ensures var c := Convert(w, t, s, consumed); c.Got? ==> Counts(s, consumed, c.rest, c.consumed)
  {
    var c := t.conv.value;
    if c in {'d', 'o', 'x', 'X', 'u'} {
      IntegerCounts(c, s, t.width, consumed);
    } else if c == 'i' {
      OtherCounts(w.integer, n => IntV(n), s, t.width, consumed);
      assert Convert(w, t, s, consumed) ==
        ScanOther(w.integer(s[Spaces(s)..], t.width, consumed + Spaces(s)), n => IntV(n));
    } else if c in {'f', 'e', 'E', 'g'} {
      OtherCounts(w.float, f => FloatV(f), s, t.width, consumed);
      assert Convert(w, t, s, consumed) ==
        ScanOther(w.float(s[Spaces(s)..], t.width, consumed + Spaces(s)), f => FloatV(f));
    } else {
      TextCounts(w, t, s, consumed);
    }
  }

  lemma TextCounts(w: Readers, t: Token, s: string, consumed: nat)
    requires t.conv.Some? && t.conv.value !in {'d', 'o', 'x', 'X', 'u', 'i', 'f', 'e', 'E', 'g'}
    ensures var c := Convert(w, t, s, consumed); c.Got? ==> Counts(s, consumed, c.rest, c.consumed)
  {
    var c := t.conv.value;
    if c == 'c' {
      assert var r := ScanChars(s, t.width, consumed); r.Got? ==> Counts(s, consumed, r.rest, r.consumed);
    } else if c == 's' {
      assert var r := ScanWord(s[Spaces(s)..], t.width, consumed + Spaces(s));
        r.Got? ==> Counts(s, consumed, r.rest, r.consumed);
    } else if c == '[' {
      assert var r := ScanClass(s, t.body, t.width, consumed); r.Got? ==> Counts(s, consumed, r.rest, r.consumed);
    }
  }

  /** The state after one step, if the scan does not stop there. */
  function After(w: Readers, st: State): Option<State> {
    if st.f == "" then None
    else
      match Step(w, st)
      case Stop(_) => None
      case Next(st') => Some(st')
  }

  predicate ReadsOn(before: State, after: State) {
    Counts(before.s, before.consumed, after.s, after.consumed)
  }

  lemma DirectiveReadsOn(w: Readers, st: State)
    requires Honest(w.integer) && Honest(w.float) && st.f != ""
    ensures var p := Directive(w, st); p.Next? ==> ReadsOn(st, p.st)
  {
    var t := Tokenise(st.f[1..]);
    if t.conv.Some? {
      var c := Convert(w, t, st.s, st.consumed);
      ConvertCounts(w, t, st.s, st.consumed);
      ContinueReadsOn(t, c, st);
      assert t.position <= MaxPosition ==> Directive(w, st) == Continue(t, c, st.values);
    }
  }

  lemma ContinueReadsOn(t: Token, c: Conversion, st: State)
    requires t.conv.Some? && (c.Got? ==> Counts(st.s, st.consumed, c.rest, c.consumed))
    ensures var p := Continue(t, c, st.values); p.Next? ==> ReadsOn(st, p.st)
  {
  }

  lemma StepReadsOn(w: Readers, st: State)
    requires Honest(w.integer) && Honest(w.float)
    ensures After(w, st).Some? ==> ReadsOn(st, After(w, st).value)
  {
    if st.f == "" {
    } else if AtDirective(st.f) {
      DirectiveReadsOn(w, st);
    } else {
      LiteralReadsOn(st);
      var p := Step(w, st);
      assert IsSpace(st.f[0]) ==> ReadsOn(st, p.st);
      assert !IsSpace(st.f[0]) && p.Next? ==> ReadsOn(st, p.st);
    }
  }

  lemma LiteralReadsOn(st: State)
    ensures forall c, after :: Literal(c, after, st).Next? ==> ReadsOn(st, Literal(c, after, st).st)
    ensures Counts(st.s, st.consumed, st.s[Spaces(st.s)..], st.consumed + Spaces(st.s))
  {
  }

  /** The state after `n` steps, if the scan gets that far. */
  function Run(after: State -> Option<State>, st: State, n: nat): Option<State>
    decreases n
  {
    if n == 0 then Some(st)
    else
      match after(st)
      case None => None
      case Some(st') => Run(after, st', n - 1)
  }

  lemma {:induction false} RunReadsOn(after: State -> Option<State>, st: State, n: nat)
    requires forall a :: after(a).Some? ==> ReadsOn(a, after(a).value)
    requires Run(after, st, n).Some?
    ensures ReadsOn(st, Run(after, st, n).value)
    decreases n
  {
    if n > 0 {
      RunReadsOn(after, after(st).value, n - 1);
    }
  }

  /** At any point of a scan the count that %n stores is the number of input bytes read. */
  lemma CountIsExact(w: Readers, st: State, n: nat)
    requires Honest(w.integer) && Honest(w.float)
    requires Run(a => After(w, a), st, n).Some?
    ensures ReadsOn(st, Run(a => After(w, a), st, n).value)
  {
    var after := a => After(w, a);
    forall a ensures after(a).Some? ==> ReadsOn(a, after(a).value) {
      StepReadsOn(w, a);
    }
    RunReadsOn(after, st, n);
  }
}
