/** The parsers and the reader of core/zscanf.go as the source runs them, on indices and a buffer,
    each shown to compute its specification in ScanFormats and Scanf. */
module ScanRunner {
  import opened Options
  import opened Numerals
  import opened ScanFormats
  import opened Scanf

  // ----- walking a directive -----

  method SkipDigits(f: string, i: nat) returns (j: nat)
    requires i <= |f|
    ensures i <= j <= |f| && j == i + Digits(f[i..])
  {
    j := i;
    while j < |f| && IsDigit(f[j])
      invariant i <= j <= |f|
      invariant i + Digits(f[i..]) == j + Digits(f[j..])
    {
      assert f[j..][1..] == f[j + 1..];
      j := j + 1;
    }
  }

  method WalkPosition(f: string, i: nat) returns (position: int, k: nat)
    requires i <= |f|
    ensures i <= k <= |f| && ReadPosition(f[i..]) == (position, f[k..])
  {
    var j := SkipDigits(f, i);
    PositionAt(f, i, j);
    if j > i && j < |f| && f[j] == '$' {
      return Atoi(f[i..j]), j + 1;
    }
    return -1, i;
  }

  lemma PositionAt(f: string, i: nat, j: nat)
    requires i <= j <= |f| && j == i + Digits(f[i..])
    ensures i < j < |f| && f[j] == '$' ==> ReadPosition(f[i..]) == (Atoi(f[i..j]), f[j + 1..])
    ensures !(i < j < |f| && f[j] == '$') ==> ReadPosition(f[i..]) == (-1, f[i..])
  {
    var g := f[i..];
    if j < |f| {
      assert g[..j - i] == f[i..j] && g[j - i + 1..] == f[j + 1..];
      assert g[j - i] == f[j];
    }
  }

  method WalkWidth(f: string, i: nat) returns (width: int, k: nat)
    requires i <= |f|
    ensures i <= k <= |f| && ReadWidth(f[i..]) == (width, f[k..])
  {
    width := -1;
    k := SkipDigits(f, i);
    if k > i {
      width := Atoi(f[i..k]);
      assert f[i..k] == f[i..][..k - i];
    }
    assert f[k..] == f[i..][k - i..];
  }

  method WalkHead(f: string, i: nat) returns (position: int, suppress: bool, width: int, k: nat)
    requires i <= |f|
    ensures i <= k <= |f| && ReadHead(f[i..]) == Head(position, suppress, width, f[k..])
  {
    position, k := WalkPosition(f, i);
    var j := k;
    suppress := j < |f| && f[j] == '*';
    if suppress {
      j := j + 1;
    }
    assert ReadStar(f[k..]) == (suppress, f[j..]);
    width, k := WalkWidth(f, j);
  }

  method SkipModifiers(f: string, i: nat) returns (k: nat)
    requires i <= |f|
    ensures i <= k <= |f| && k == i + Modifiers(f[i..])
  {
    k := i;
    if k < |f| && (f[k] == 'h' || f[k] == 'l' || f[k] == 'L') {
      k := k + 1;
      if k < |f| && (f[k] == 'h' || f[k] == 'l') {
        k := k + 1;
      }
    }
  }

  /** Skips the inside of a character class, as the validator and the counter do. */
  method SkipClass(f: string, i: nat) returns (k: nat)
    requires i <= |f|
    ensures i <= k <= |f| && k == i + ClassLength(f[i..])
  {
    k := i;
    if k < |f| && f[k] == '^' {
      k := k + 1;
    }
    if k < |f| && f[k] == ']' {
      k := k + 1;
    }
    var head := k;
    assert head == i + ClassHead(f[i..]) && f[i..][ClassHead(f[i..])..] == f[head..];
    while k < |f| && f[k] != ']'
      invariant head <= k <= |f|
      invariant head + UntilBracket(f[head..]) == k + UntilBracket(f[k..])
    {
      assert f[k..][1..] == f[k + 1..];
      k := k + 1;
    }
  }

  // ----- the validator and the counter -----

  /** The directive whose `%` is at `i`, walked to its conversion at `m`. */
  ghost predicate Walked(f: string, i: nat, t: Token, m: nat) {
    && i < m <= |f| && f[i] == '%' && (i + 1 < |f| ==> f[i + 1] != '%') && Tokenise(f[i + 1..]) == t
    && (t.conv.None? <==> m == |f|) && (m < |f| ==> t.conv == Some(f[m]))
  }

  method WalkDirective(f: string, i: nat) returns (position: int, suppress: bool, width: int, m: nat)
    requires i < |f| && f[i] == '%' && (i + 1 < |f| ==> f[i + 1] != '%')
    ensures i < m <= |f| && Walked(f, i, TokenOf(position, suppress, width, f[m..]), m)
  {
    var k;
    position, suppress, width, k := WalkHead(f, i + 1);
    m := SkipModifiers(f, k);
    HeadWalked(f, i, position, suppress, width, k, m);
  }

  lemma HeadWalked(f: string, i: nat, position: int, suppress: bool, width: int, k: nat, m: nat)
    requires i < k <= m <= |f| && f[i] == '%' && (i + 1 < |f| ==> f[i + 1] != '%')
    requires ReadHead(f[i + 1..]) == Head(position, suppress, width, f[k..]) && m == k + Modifiers(f[k..])
    ensures Walked(f, i, TokenOf(position, suppress, width, f[m..]), m)
  {
    assert f[k..][m - k..] == f[m..];
    TokenAt(f[i + 1..], Head(position, suppress, width, f[k..]));
    ConversionAt(position, suppress, width, f[m..]);
  }

  lemma TokenAt(g: string, h: Head)
    requires ReadHead(g) == h
    ensures Tokenise(g) == TokenOf(h.position, h.suppress, h.width, h.rest[Modifiers(h.rest)..])
  {
  }

  lemma ConversionAt(position: int, suppress: bool, width: int, g: string)
    ensures TokenOf(position, suppress, width, g).conv == if g == "" then None else Some(g[0])
  {
  }

  lemma PassText(f: string, i: nat)
    requires i < |f| && f[i] != '%'
    ensures Validate(f[i..]) == Validate(f[i + 1..]) && Fields(f[i..]) == Fields(f[i + 1..])
  {
    assert f[i..][1..] == f[i + 1..];
  }

  lemma PassPercent(f: string, i: nat)
    requires i + 1 < |f| && f[i] == f[i + 1] == '%'
    ensures Validate(f[i..]) == Validate(f[i + 2..]) && Fields(f[i..]) == Fields(f[i + 2..])
  {
    assert f[i..][2..] == f[i + 2..];
  }

  lemma PassDirective(f: string, i: nat, t: Token, m: nat)
    requires Walked(f, i, t, m)
    ensures Validate(f[i..]) == if m == |f| then Some('\0') else if !IsConversion(f[m]) then Some(f[m])
      else Validate(t.after)
    ensures Fields(f[i..]) == if m == |f| then [] else (if t.suppress then [] else [f[m]]) + Fields(t.after)
  {
    assert f[i..][1..] == f[i + 1..];
  }

  method AfterConversion(f: string, m: nat, ghost position: int, ghost suppress: bool, ghost width: int)
    returns (i: nat)
    requires m < |f|
    ensures m < i <= |f| && TokenOf(position, suppress, width, f[m..]).after == f[i..]
  {
    i := m + 1;
    assert f[m..][1..] == f[m + 1..];
    if f[m] == '[' {
      i := SkipClass(f, m + 1);
      assert f[m + 1..][i - m - 1..] == f[i..];
      if i < |f| {
        i := i + 1;
      }
    }
  }

  method ValidateScanFormat(f: string) returns (bad: Option<char>)
    ensures bad == Validate(f)
  {
    var i := 0;
    while i < |f|
      invariant i <= |f|
      invariant Validate(f[i..]) == Validate(f)
    {
      if f[i] != '%' {
        PassText(f, i);
        i := i + 1;
      } else if i + 1 < |f| && f[i + 1] == '%' {
        PassPercent(f, i);
        i := i + 2;
      } else {
        var position, suppress, width, m := WalkDirective(f, i);
        PassDirective(f, i, TokenOf(position, suppress, width, f[m..]), m);
        if m >= |f| {
          return Some('\0');
        }
        if !IsConversion(f[m]) {
          return Some(f[m]);
        }
        i := AfterConversion(f, m, position, suppress, width);
      }
    }
    return None;
  }

  method CountRemainingScanCodes(f: string, start: nat) returns (count: nat)
    requires start <= |f|
    ensures count == |Fields(f[start..])|
  {
    count := 0;
    var i := start;
    while i < |f|
      invariant start <= i <= |f|
      invariant count + |Fields(f[i..])| == |Fields(f[start..])|
    {
      if f[i] != '%' {
        PassText(f, i);
        i := i + 1;
      } else if i + 1 < |f| && f[i + 1] == '%' {
        PassPercent(f, i);
        i := i + 2;
      } else {
        var position, suppress, width, m := WalkDirective(f, i);
        PassDirective(f, i, TokenOf(position, suppress, width, f[m..]), m);
        if m >= |f| {
          break;
        }
        i := AfterConversion(f, m, position, suppress, width);
        if !suppress {
          count := count + 1;
        }
      }
    }
  }

  // ----- the character class of a scan -----

  predicate IsBytes(s: string) {
    forall i :: 0 <= i < |s| ==> s[i] as int < 256
  }

  /** The characters listed by a class from item `i` on. */
  ghost predicate Lists(chars: seq<char>, body: string, i: nat) {
    forall c :: c in chars <==> InItems(c, body, i)
  }

  /** Builds the characters of a class with its ranges; `k` is where it stopped. */
  method BuildClass(f: string, i: nat) returns (negate: bool, chars: seq<char>, endless: bool, k: nat)
    requires i <= |f| && IsBytes(f)
    ensures k == i + ClassLength(f[i..]) && k <= |f|
    ensures endless <==> Endless(f[i..k], ClassHead(f[i..k]))
    ensures !endless ==> forall c :: (c in chars) != negate <==> InClass(c, f[i..k])
  {
    var head, h;
    negate, head, h := BuildHead(f, i);
    ghost var end := i + ClassLength(f[i..]);
    ClassBounds(f, i, h, end);
    HeadOfBody(f, i, end);
    var items;
    items, endless, k := BuildItems(f, i, h, end);
    chars := head + items;
    HeadListed(f[i..end], head, items, negate);
  }

  /** `^`, then a literal `]`. */
  method BuildHead(f: string, i: nat) returns (negate: bool, head: seq<char>, h: nat)
    requires i <= |f|
    ensures h == i + ClassHead(f[i..]) && h <= |f|
    ensures negate == (f[i..] != "" && f[i..][0] == '^')
    ensures head == if ClassHead(f[i..]) > 0 && f[i..][ClassHead(f[i..]) - 1] == ']' then [']'] else []
  {
    head, h := [], i;
    negate := h < |f| && f[h] == '^';
    if negate {
      h := h + 1;
    }
    if h < |f| && f[h] == ']' {
      head := [']'];
      h := h + 1;
    }
  }

  /** The body of a class begins like the text it is cut from. */
  lemma HeadOfBody(f: string, i: nat, end: nat)
    requires i <= |f| && end == i + ClassLength(f[i..])
    ensures end <= |f|
    ensures var (g, body) := (f[i..], f[i..end]);
            && (body != "" && body[0] == '^' <==> g != "" && g[0] == '^')
            && ClassHead(body) == ClassHead(g) && (ClassHead(g) > 0 ==> body[ClassHead(g) - 1] == g[ClassHead(g) - 1])
  {
    ClassBounds(f, i, i + ClassHead(f[i..]), end);
  }

  lemma HeadListed(body: string, head: seq<char>, items: seq<char>, negate: bool)
    requires negate == (body != "" && body[0] == '^')
    requires head == if ClassHead(body) > 0 && body[ClassHead(body) - 1] == ']' then [']'] else []
    requires Lists(items, body, ClassHead(body))
    ensures forall c :: (c in head + items) != negate <==> InClass(c, body)
  {
  }

  /** The items of a class, up to the `]` that closes it: a range never runs over it. */
  method BuildItems(f: string, ghost i: nat, h: nat, ghost end: nat) returns (chars: seq<char>, endless: bool, k: nat)
    requires i <= h <= end <= |f| && IsBytes(f)
    requires (forall j :: h <= j < end ==> f[j] != ']') && (end < |f| ==> f[end] == ']')
    ensures k == end && (endless <==> Endless(f[i..end], h - i)) && Lists(chars, f[i..end], h - i)
  {
    chars, endless, k := [], false, h;
    ghost var body := f[i..end];
    while k < |f| && f[k] != ']'
      invariant h <= k <= end
      invariant (endless || Endless(body, k - i)) <==> Endless(body, h - i)
      invariant Listed(chars, body, k - i, h - i)
    {
      ItemAt(body, k - i);
      if k + 2 < |f| && f[k + 1] == '-' && f[k + 2] != ']' {
        RangeFits(f, k, end);
        assert RangeAt(body, k - i) && body[k - i] == f[k] && body[k - i + 2] == f[k + 2];
        endless := endless || f[k + 2] == '\U{FF}';
        var range := Range(f[k], f[k + 2]);
        AddItems(chars, range, body, k - i, k - i + 3, h - i);
        chars := chars + range;
        k := k + 3;
      } else {
        assert !RangeAt(body, k - i) && body[k - i] == f[k] by {
          assert k + 2 < end ==> body[k - i + 1] == f[k + 1] && f[k + 2] != ']';
        }
        AddItems(chars, [f[k]], body, k - i, k - i + 1, h - i);
        chars := chars + [f[k]];
        k := k + 1;
      }
    }
  }

  /** `chars` are the items of `body` from `h` up to `i`. */
  ghost predicate Listed(chars: seq<char>, body: string, i: nat, h: nat) {
    forall c :: InItems(c, body, h) <==> c in chars || InItems(c, body, i)
  }

  lemma AddItems(chars: seq<char>, more: seq<char>, body: string, i: nat, next: nat, h: nat)
    requires Listed(chars, body, i, h)
    requires forall c :: InItems(c, body, i) <==> c in more || InItems(c, body, next)
    ensures Listed(chars + more, body, next, h)
  {
  }

  lemma ItemAt(body: string, i: nat)
    requires i < |body|
    ensures RangeAt(body, i) ==>
      forall c :: InItems(c, body, i) <==> body[i] <= c <= body[i + 2] || InItems(c, body, i + 3)
    ensures !RangeAt(body, i) ==> forall c :: InItems(c, body, i) <==> c == body[i] || InItems(c, body, i + 1)
  {
  }

  lemma ClassBounds(f: string, i: nat, head: nat, end: nat)
    requires i <= |f| && head == i + ClassHead(f[i..]) && end == i + ClassLength(f[i..])
    ensures i <= head <= end <= |f| && ClassHead(f[i..end]) == head - i
    ensures (forall j :: head <= j < end ==> f[j] != ']') && (end < |f| ==> f[end] == ']')
  {
    var g := f[i..];
    HeadOfCut(g, end - i);
    assert g[..end - i] == f[i..end];
    assert g[head - i..] == f[head..];
    forall j | head <= j < end ensures f[j] != ']' {
      assert f[head..][j - head] == f[j];
    }
    if end < |f| {
      assert g[end - i] == f[end];
    }
  }

  lemma HeadOfCut(g: string, n: nat)
    requires ClassHead(g) <= n <= |g|
    ensures ClassHead(g[..n]) == ClassHead(g)
  {
    var i := if g != "" && g[0] == '^' then 1 else 0;
    assert i <= ClassHead(g);
    if i < n {
      assert g[..n][i] == g[i] && g[..n][0] == g[0];
    }
  }

  lemma RangeFits(f: string, k: nat, end: nat)
    requires k < end <= |f| && k + 2 < |f| && f[k + 1] != ']' && f[k + 2] != ']' && (end < |f| ==> f[end] == ']')
    ensures k + 2 < end
  {
  }

  method Range(lo: char, hi: char) returns (chars: seq<char>)
    requires lo as int < 256 && hi as int < 256
    ensures forall c :: c in chars <==> lo <= c <= hi
  {
    chars := [];
    if lo <= hi {
      for c := lo as int to hi as int + 1
        invariant forall d: char :: d in chars <==> lo as int <= d as int < c
      {
        chars := chars + [c as char];
      }
    }
  }

  // ----- the buffered input -----

  class Input {
    const bytes: string
    var pos: nat

    ghost predicate Valid()
      reads this
    {
      pos <= |bytes|
    }

    ghost function Rest(): string
      reads this
      requires Valid()
    {
      bytes[pos..]
    }

    constructor (bytes: string)
      ensures Valid() && this.bytes == bytes && pos == 0
    {
      this.bytes, pos := bytes, 0;
    }

    method ReadByte() returns (c: Option<char>)
      requires Valid()
      modifies this
      ensures Valid()
      ensures old(pos) == |bytes| ==> c == None && pos == old(pos)
      ensures old(pos) < |bytes| ==> c == Some(bytes[old(pos)]) && pos == old(pos) + 1
    {
      if pos == |bytes| {
        return None;
      }
      c := Some(bytes[pos]);
      pos := pos + 1;
    }

    method UnreadByte()
      requires Valid() && pos > 0
      modifies this
      ensures Valid() && pos == old(pos) - 1
    {
      pos := pos - 1;
    }

    method SkipWhitespacesTracked() returns (count: nat)
      requires Valid()
      modifies this
      ensures Valid() && count == Spaces(old(Rest())) && pos == old(pos) + count
      ensures Rest() == old(Rest())[count..]
    {
      count := 0;
      while true
        invariant Valid() && pos == old(pos) + count
        invariant count + Spaces(Rest()) == Spaces(old(Rest()))
        decreases |bytes| - pos
      {
        ghost var rest := Rest();
        var c := ReadByte();
        if c.None? {
          break;
        }
        if !IsSpace(c.value) {
          UnreadByte();
          break;
        }
        assert Rest() == rest[1..];
        count := count + 1;
      }
    }

    /** Reads digits while the width lasts; a negative width is no limit. */
    method ReadDigits(base: nat, width: int) returns (s: string)
      requires Valid()
      modifies this
      ensures Valid() && pos == old(pos) + DigitRun(old(Rest()), base, width) && s == bytes[old(pos)..pos]
    {
      s := "";
      var left := width;
      while left != 0
        invariant Valid() && old(pos) <= pos && s == bytes[old(pos)..pos]
        invariant pos + DigitRun(Rest(), base, left) == old(pos) + DigitRun(old(Rest()), base, width)
        decreases |bytes| - pos
      {
        ghost var rest := Rest();
        var c := ReadByte();
        if c.None? {
          break;
        }
        if DigitValue(c.value) >= base {
          UnreadByte();
          break;
        }
        assert Rest() == rest[1..];
        s := s + [c.value];
        if left > 0 {
          left := left - 1;
        }
      }
    }

    /** scanReadIntTracked. */
    method ReadIntTracked(base: nat, width: int, consumed: nat) returns (n: Option<int>, consumed': nat)
      requires Valid()
      modifies this
      ensures Valid() && old(pos) <= pos && consumed' == consumed + (pos - old(pos))
      ensures ReadInt(old(Rest()), base, width) == Int64Read(n, Rest())
    {
      var sign, left := "", width;
      consumed' := consumed;
      ghost var s := Rest();
      var c := ReadByte();
      if c.None? {
        return None, consumed';
      }
      if c.value == '-' || c.value == '+' {
        sign := [c.value];
        consumed' := consumed' + 1;
        if left > 0 {
          left := left - 1;
        }
        assert sign == s[..1] && Rest() == s[1..];
      } else {
        UnreadByte();
      }
      n, consumed' := ReadMagnitudeTracked(sign, base, left, consumed');
    }

    method ReadMagnitudeTracked(sign: string, base: nat, width: int, consumed: nat)
      returns (n: Option<int>, consumed': nat)
      requires Valid()
      modifies this
      ensures Valid() && old(pos) <= pos && consumed' == consumed + (pos - old(pos))
      ensures ReadMagnitude(sign, old(Rest()), base, width) == Int64Read(n, Rest())
    {
      if width == 0 {
        return None, consumed;
      }
      consumed' := consumed;
      var left := width;
      ghost var s := Rest();
      if base == 16 && pos + 1 < |bytes| && bytes[pos] == '0' && (bytes[pos + 1] == 'x' || bytes[pos + 1] == 'X') {
        var _ := ReadByte();
        var _ := ReadByte();
        consumed' := consumed' + 2;
        if left > 0 {
          left := left - 2;
        }
        assert HexPrefix(s, base) && Rest() == s[2..];
      }
      n, consumed' := ReadRunTracked(sign, base, left, consumed');
    }

    method ReadRunTracked(sign: string, base: nat, width: int, consumed: nat) returns (n: Option<int>, consumed': nat)
      requires Valid()
      modifies this
      ensures Valid() && old(pos) <= pos && consumed' == consumed + (pos - old(pos))
      ensures ReadRun(sign, old(Rest()), base, width) == Int64Read(n, Rest())
    {
      ghost var s := Rest();
      var digits := ReadDigits(base, width);
      consumed' := consumed + |digits|;
      n := if digits == "" then None else ToInteger(sign + digits, base);
      assert Rest() == s[|digits|..] && digits == s[..|digits|];
    }

    method ReadWord(width: int) returns (s: string)
      requires Valid()
      modifies this
      ensures Valid() && pos == old(pos) + NonSpaceRun(old(Rest()), width) && s == bytes[old(pos)..pos]
    {
      s := "";
      var left := width;
      while left != 0
        invariant Valid() && old(pos) <= pos && s == bytes[old(pos)..pos]
        invariant pos + NonSpaceRun(Rest(), left) == old(pos) + NonSpaceRun(old(Rest()), width)
        decreases |bytes| - pos
      {
        ghost var rest := Rest();
        var c := ReadByte();
        if c.None? {
          break;
        }
        if IsSpace(c.value) {
          UnreadByte();
          break;
        }
        assert Rest() == rest[1..];
        s := s + [c.value];
        left := left - 1;
      }
    }

    method ReadClass(chars: seq<char>, negate: bool, ghost body: string, width: int) returns (s: string)
      requires Valid() && forall c :: (c in chars) != negate <==> InClass(c, body)
      modifies this
      ensures Valid() && pos == old(pos) + ClassRun(old(Rest()), body, width) && s == bytes[old(pos)..pos]
    {
      s := "";
      var left := width;
      while left != 0
        invariant Valid() && old(pos) <= pos && s == bytes[old(pos)..pos]
        invariant pos + ClassRun(Rest(), body, left) == old(pos) + ClassRun(old(Rest()), body, width)
        decreases |bytes| - pos
      {
        ghost var rest := Rest();
        var c := ReadByte();
        if c.None? {
          break;
        }
        var inSet := c.value in chars;
        if negate {
          inSet := !inSet;
        }
        assert inSet <==> InClass(c.value, body);
        if !inSet {
          UnreadByte();
          break;
        }
        assert Rest() == rest[1..];
        s := s + [c.value];
        left := left - 1;
      }
    }
  }

  // ----- conversions -----

  /** A parameterised read leaves a suffix of what it was given. */
  ghost predicate LeavesSuffix<T>(read: (string, int, nat) -> Option<Other<T>>) {
    forall s: string, width: int, consumed: nat :: read(s, width, consumed).Some? ==>
      IsSuffix(read(s, width, consumed).value.rest, s)
  }

  predicate IsSuffix(a: string, b: string) {
    |a| <= |b| && a == b[|b| - |a|..]
  }

  /** Moves the buffer to where `rest` is what remains. */
  method Leave(buf: Input, rest: string)
    requires buf.Valid() && IsSuffix(rest, buf.Rest())
    modifies buf
    ensures buf.Valid() && buf.Rest() == rest
  {
    buf.pos := |buf.bytes| - |rest|;
  }

  method RunInteger(buf: Input, c: char, width: int, consumed: nat) returns (r: Conversion)
    requires buf.Valid()
    modifies buf
    ensures buf.Valid() && r == ScanInteger(c, old(buf.Rest()), width, consumed) && (r.Got? ==> buf.Rest() == r.rest)
  {
    ghost var s := buf.Rest();
    var skipped := buf.SkipWhitespacesTracked();
    ghost var s1 := buf.Rest();
    assert s1 == s[Spaces(s)..];
    var n, consumed' := buf.ReadIntTracked(Base(c), width, consumed + skipped);
    if n.None? {
      return Fails;
    }
    var rest := buf.bytes[buf.pos..];
    assert consumed' == consumed + |s| - |rest|;
    r := Got(if c == 'u' then Unsigned(n.value) else IntV(n.value), rest, consumed');
    Delivers(c, n, rest, s, consumed);
  }

  lemma Delivers(c: char, n: Option<int>, rest: string, s: string, consumed: nat)
    requires n.Some? && |rest| <= |s|
    ensures Deliver(c, Int64Read(n, rest), s, consumed)
         == Got(if c == 'u' then Unsigned(n.value) else IntV(n.value), rest, consumed + |s| - |rest|)
  {
  }

  method RunWord(buf: Input, width: int, consumed: nat) returns (r: Conversion)
    requires buf.Valid()
    modifies buf
    ensures buf.Valid() && (r.Got? ==> buf.Rest() == r.rest)
    ensures var s := old(buf.Rest()); r == ScanWord(s[Spaces(s)..], width, consumed + Spaces(s))
  {
    var skipped := buf.SkipWhitespacesTracked();
    r := RunWordHere(buf, width, consumed + skipped);
  }

  method RunWordHere(buf: Input, width: int, consumed: nat) returns (r: Conversion)
    requires buf.Valid()
    modifies buf
    ensures buf.Valid() && (r.Got? ==> buf.Rest() == r.rest)
    ensures r == ScanWord(old(buf.Rest()), width, consumed)
  {
    ghost var s := buf.Rest();
    var word := buf.ReadWord(width);
    assert word == s[..|word|] && buf.Rest() == s[|word|..];
    if word == "" {
      return Fails;
    }
    r := Got(StrV(word), buf.bytes[buf.pos..], consumed + |word|);
  }

  method RunChars(buf: Input, width: int, consumed: nat) returns (r: Conversion)
    requires buf.Valid()
    modifies buf
    ensures buf.Valid() && r == ScanChars(old(buf.Rest()), width, consumed) && (r.Got? ==> buf.Rest() == r.rest)
  {
    if buf.pos == |buf.bytes| {
      return Fails;
    }
    ghost var s := buf.Rest();
    var word := buf.ReadWord(if width > 0 then width else 1);
    assert word == s[..|word|] && buf.Rest() == s[|word|..];
    r := Got(StrV(word), buf.bytes[buf.pos..], consumed + |word|);
  }

  method RunClass(buf: Input, f: string, i: nat, width: int, consumed: nat) returns (r: Conversion, k: nat)
    requires buf.Valid() && i <= |f| && IsBytes(f)
    modifies buf
    ensures buf.Valid() && k == i + ClassLength(f[i..]) && k <= |f|
    ensures r == ScanClass(old(buf.Rest()), f[i..k], width, consumed) && (r.Got? ==> buf.Rest() == r.rest)
  {
    var negate, chars, endless;
    negate, chars, endless, k := BuildClass(f, i);
    if endless {
      return Hangs, k;
    }
    ghost var s := buf.Rest();
    var word := buf.ReadClass(chars, negate, f[i..k], width);
    assert word == s[..|word|] && buf.Rest() == s[|word|..];
    r := Got(if word == "" then Null else StrV(word), buf.bytes[buf.pos..], consumed + |word|);
  }

  method RunOther<T(0)>(buf: Input, read: (string, int, nat) -> Option<Other<T>>, wrap: T -> Val, width: int,
      consumed: nat) returns (r: Conversion)
    requires buf.Valid() && LeavesSuffix(read)
    modifies buf
    ensures buf.Valid() && (r.Got? ==> buf.Rest() == r.rest)
    ensures var s := old(buf.Rest()); r == ScanOther(read(s[Spaces(s)..], width, consumed + Spaces(s)), wrap)
  {
    var skipped := buf.SkipWhitespacesTracked();
    var o := read(buf.bytes[buf.pos..], width, consumed + skipped);
    if o.None? {
      return Fails;
    }
    Leave(buf, o.value.rest);
    r := Got(wrap(o.value.v), o.value.rest, o.value.consumed);
  }

  lemma BracketAt(w: Readers, t: Token, g: string, s: string, consumed: nat)
    requires g != "" && g[0] == '[' && t == TokenOf(t.position, t.suppress, t.width, g)
    ensures var n := ClassLength(g[1..]);
            && t.body == g[1..][..n] && t.after == AfterClass(g[1..][n..])
            && Convert(w, t, s, consumed) == ScanClass(s, t.body, t.width, consumed)
  {
  }

  method RunBracket(w: Readers, buf: Input, f: string, m: nat, ghost t: Token, width: int, consumed: nat)
      returns (r: Conversion, i: nat)
    requires buf.Valid() && m < |f| && f[m] == '[' && IsBytes(f)
    requires t == TokenOf(t.position, t.suppress, width, f[m..]) && t.width == width
    modifies buf
    ensures buf.Valid() && m < i <= |f| && t.after == f[i..]
    ensures r == Convert(w, t, old(buf.Rest()), consumed) && (r.Got? ==> buf.Rest() == r.rest)
  {
    BracketAt(w, t, f[m..], buf.Rest(), consumed);
    var k;
    r, k := RunClass(buf, f, m + 1, width, consumed);
    i := if k < |f| then k + 1 else k;
    BracketCut(f, m, k, i);
  }

  lemma BracketCut(f: string, m: nat, k: nat, i: nat)
    requires m < k <= |f| && i == if k < |f| then k + 1 else k
    ensures f[m..][1..] == f[m + 1..] && f[m + 1..][..k - m - 1] == f[m + 1..k]
    ensures AfterClass(f[m + 1..][k - m - 1..]) == f[i..]
  {
    assert f[m + 1..][k - m - 1..] == f[k..];
  }

  method RunConversion(w: Readers, buf: Input, f: string, m: nat, position: int, suppress: bool, width: int,
      consumed: nat)
      returns (r: Conversion, i: nat)
    requires buf.Valid() && m < |f| && IsBytes(f) && LeavesSuffix(w.integer) && LeavesSuffix(w.float)
    modifies buf
    ensures buf.Valid() && m < i <= |f| && TokenOf(position, suppress, width, f[m..]).after == f[i..]
    ensures r == Convert(w, TokenOf(position, suppress, width, f[m..]), old(buf.Rest()), consumed)
      && (r.Got? ==> buf.Rest() == r.rest)
  {
    if f[m] == '[' {
      r, i := RunBracket(w, buf, f, m, TokenOf(position, suppress, width, f[m..]), width, consumed);
    } else {
      var t := Token(position, suppress, width, Some(f[m]), "", f[m + 1..]);
      assert f[m..][1..] == f[m + 1..];
      i := m + 1;
      r := RunOne(w, buf, t, consumed);
    }
  }

  method RunOne(w: Readers, buf: Input, t: Token, consumed: nat) returns (r: Conversion)
    requires buf.Valid() && LeavesSuffix(w.integer) && LeavesSuffix(w.float)
    requires t.conv.Some? && t.conv.value != '['
    modifies buf
    ensures buf.Valid() && r == Convert(w, t, old(buf.Rest()), consumed) && (r.Got? ==> buf.Rest() == r.rest)
  {
    var c := t.conv.value;
    if c == 'n' {
      r := Got(IntV(consumed), buf.bytes[buf.pos..], consumed);
    } else if c == 'c' {
      r := RunChars(buf, t.width, consumed);
    } else if c == 's' {
      r := RunWord(buf, t.width, consumed);
    } else {
      r := RunNumber(w, buf, t, consumed);
    }
  }

  method RunNumber(w: Readers, buf: Input, t: Token, consumed: nat) returns (r: Conversion)
    requires buf.Valid() && LeavesSuffix(w.integer) && LeavesSuffix(w.float)
    requires t.conv.Some? && t.conv.value !in {'[', 'n', 'c', 's'}
    modifies buf
    ensures buf.Valid() && r == Convert(w, t, old(buf.Rest()), consumed) && (r.Got? ==> buf.Rest() == r.rest)
  {
    var c := t.conv.value;
    if c in {'d', 'o', 'x', 'X', 'u'} {
      r := RunInteger(buf, c, t.width, consumed);
    } else if c == 'i' {
      r := RunOther(buf, w.integer, n => IntV(n), t.width, consumed);
    } else if c in {'f', 'e', 'E', 'g'} {
      r := RunOther(buf, w.float, f => FloatV(f), t.width, consumed);
    } else {
      r := Bad;
    }
  }

  // ----- the whole scan -----

  method ZscanRead(w: Readers, f: string, input: string) returns (o: Outcome)
    requires IsBytes(f) && LeavesSuffix(w.integer) && LeavesSuffix(w.float)
    ensures o == Scan(w, Start(f, input))
  {
    var buf := new Input(input);
    var pos, consumed, values := 0, 0, [];
    assert f[0..] == f && input[0..] == input;
    while pos < |f|
      invariant buf.Valid() && pos <= |f|
      invariant Scan(w, Start(f, input)) == Scan(w, State(f[pos..], buf.Rest(), consumed, values))
      decreases |f| - pos
    {
      ghost var st := State(f[pos..], buf.Rest(), consumed, values);
      if f[pos] != '%' || (pos + 1 < |f| && f[pos + 1] == '%') {
        var going;
        going, pos, consumed := ScanText(w, buf, f, pos, consumed, st);
        if !going {
          return Done(values, false);
        }
      } else {
        var over;
        over, pos, consumed, values := RunDirective(w, buf, f, pos, consumed, values, st);
        if over.Some? {
          return over.value;
        }
      }
    }
    return Done(values, false);
  }

  /** One directive, from its `%`; None where the scan goes on behind it. */
  method RunDirective(w: Readers, buf: Input, f: string, pos: nat, consumed: nat, values: seq<Val>, ghost st: State)
      returns (over: Option<Outcome>, pos': nat, consumed': nat, values': seq<Val>)
    requires buf.Valid() && IsBytes(f) && LeavesSuffix(w.integer) && LeavesSuffix(w.float)
    requires pos < |f| && f[pos] == '%' && (pos + 1 < |f| ==> f[pos + 1] != '%')
    requires st == State(f[pos..], buf.Rest(), consumed, values)
    modifies buf
    ensures buf.Valid() && pos < pos' <= |f|
    ensures Step(w, st) == if over.Some? then Stop(over.value)
      else Next(State(f[pos'..], buf.Rest(), consumed', values'))
  {
    pos', consumed', values' := pos + 1, consumed, values;
    var position, suppress, width, m := WalkDirective(f, pos);
    ghost var t := TokenOf(position, suppress, width, f[m..]);
    DirectiveStep(w, st, t, f, pos, m);
    if position > MaxPosition {
      return Some(IndexOutOfRange), pos', consumed', values';
    }
    if m >= |f| {
      return Some(Done(values, false)), pos', consumed', values';
    }
    var r;
    r, pos' := RunConversion(w, buf, f, m, position, suppress, width, consumed);
    match r
    case Bad => over := Some(BadChar(f[m]));
    case Hangs => over := Some(Endlessly);
    case Fails => over := Some(Done(values, true));
    case Got(v, _, next) =>
      over, consumed' := None, next;
      if !suppress {
        values' := Store(values, position, v);
      }
  }

  lemma DirectiveStep(w: Readers, st: State, t: Token, f: string, pos: nat, m: nat)
    requires Walked(f, pos, t, m) && st.f == f[pos..]
    ensures t.position > MaxPosition ==> Step(w, st) == Stop(IndexOutOfRange)
    ensures t.position <= MaxPosition && t.conv.None? ==> Step(w, st) == Stop(Done(st.values, false))
    ensures t.position <= MaxPosition && t.conv.Some? ==>
      Step(w, st) == Continue(t, Convert(w, t, st.s, st.consumed), st.values)
  {
    assert st.f[1..] == f[pos + 1..];
    assert AtDirective(st.f);
    assert Step(w, st) == Directive(w, st);
  }

  /** Format text outside directives: blanks, literal characters and `%%`. */
  method ScanText(w: Readers, buf: Input, f: string, pos: nat, consumed: nat, ghost st: State)
    returns (going: bool, pos': nat, consumed': nat)
    requires buf.Valid() && pos < |f| && (f[pos] != '%' || (pos + 1 < |f| && f[pos + 1] == '%'))
    requires st.f == f[pos..] && st.s == buf.Rest() && st.consumed == consumed
    modifies buf
    ensures buf.Valid() && pos < pos' <= |f|
    ensures Step(w, st) == if going then Next(State(f[pos'..], buf.Rest(), consumed', st.values))
                           else Stop(Done(st.values, false))
  {
    assert f[pos..][1..] == f[pos + 1..];
    if IsSpace(f[pos]) {
      var n := buf.SkipWhitespacesTracked();
      return true, pos + 1, consumed + n;
    }
    pos' := if f[pos] == '%' then pos + 2 else pos + 1;
    assert f[pos'..] == f[pos..][pos' - pos..];
    consumed' := consumed;
    var c := buf.ReadByte();
    if c.None? {
      return false, pos', consumed';
    }
    consumed' := consumed + 1;
    assert st.s[1..] == buf.Rest();
    return c.value == f[pos], pos', consumed';
  }

  /** zscanfIntoArray. */
  method ZscanfIntoArray(w: Readers, f: string, input: string) returns (a: Answer)
    requires IsBytes(f) && LeavesSuffix(w.integer) && LeavesSuffix(w.float)
    ensures a == IntoArray(w, f, input)
  {
    var allSpace := OnlySpace(if |input| > Peeked then input[..Peeked] else input);
    var o := ZscanRead(w, f, input);
    if !o.Done? {
      return Error(o);
    }
    if o.values == [] && (input == "" || (o.failed && allSpace)) {
      return Nothing;
    }
    var count := CountRemainingScanCodes(f, 0);
    assert f[0..] == f;
    var slots := o.values;
    var d := count - |o.values|;
    while d > 0
      invariant |slots| >= |o.values| && d == count - |slots|
      invariant (d >= 0 || slots == o.values) && slots == o.values + seq(|slots| - |o.values|, _ => Null)
      decreases d
    {
      slots := slots + [Null];
      d := d - 1;
    }
    return Array(slots);
  }

  method OnlySpace(s: string) returns (all: bool)
    ensures all == AllSpace(s)
  {
    for i := 0 to |s|
      invariant AllSpace(s[..i])
    {
      if !IsSpace(s[i]) {
        return false;
      }
    }
    return true;
  }
}
