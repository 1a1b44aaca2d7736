/** Positional notation of 64-bit integers: the parts of Go's strconv that core/zprintf.go and
    core/zscanf.go rely on. */
module Numerals {
  import opened Options

  const Two63: nat := 0x8000_0000_0000_0000
  const Two64: nat := 0x1_0000_0000_0000_0000

  predicate IsInt64(v: int) {
    -(Two63 as int) <= v < Two63
  }

  /** The conversion int64(u). */
  function ToInt64(u: nat): int
    requires u < Two64
  {
    if u < Two63 then u else u - Two64
  }

  predicate IsDigit(c: char) {
    '0' <= c <= '9'
  }

  /** The value of a hexadecimal digit of either case, 16 for any other character. */
  function DigitValue(c: char): nat {
    if '0' <= c <= '9' then c as int - '0' as int
    else if 'a' <= c <= 'f' then c as int - 'a' as int + 10
    else if 'A' <= c <= 'F' then c as int - 'A' as int + 10
    else 16
  }

  function DigitChar(d: nat): char
    requires d < 16
  {
    if d < 10 then '0' + d as char else 'a' + (d - 10) as char
  }

  predicate AllDigits(s: string, base: nat) {
    forall i :: 0 <= i < |s| ==> DigitValue(s[i]) < base
  }

  function Value(s: string, base: nat): nat {
    if s == "" then 0 else Value(s[..|s| - 1], base) * base + DigitValue(s[|s| - 1])
  }

  function FormatUint(n: nat, base: nat): string
    requires 2 <= base <= 16
  {
    if n < base then [DigitChar(n)] else FormatUint(n / base, base) + [DigitChar(n % base)]
  }

  function FormatInt(v: int): string {
    if v < 0 then "-" + FormatUint(-v, 10) else FormatUint(v, 10)
  }

  function ToUpper(s: string): string {
    seq(|s|, i requires 0 <= i < |s| => if 'a' <= s[i] <= 'z' then 'A' + (s[i] - 'a') else s[i])
  }

  function ParseUint(s: string, base: nat): Option<nat> {
    if s == "" || !AllDigits(s, base) || Value(s, base) >= Two64 then None else Some(Value(s, base))
  }

  function Signed(s: string): bool {
    s != "" && (s[0] == '-' || s[0] == '+')
  }

  function ParseInt(s: string, base: nat): Option<int> {
    var u := ParseUint(if Signed(s) then s[1..] else s, base);
    if u.None? then None
    else if s[0] == '-' then if u.value > Two63 then None else Some(0 - u.value)
    else if u.value >= Two63 then None else Some(u.value)
  }

  /** strconv.Atoi with its error ignored, on a run of decimal digits. */
  function Atoi(s: string): nat {
    if Value(s, 10) >= Two63 then Two63 - 1 else Value(s, 10)
  }

  function Repeat(c: char, n: nat): string {
    seq(n, _ => c)
  }

  // ----- formatting and parsing are inverse -----

  lemma DigitCharValue(d: nat)
    requires d < 16
    ensures DigitValue(DigitChar(d)) == d && (d > 0 ==> DigitChar(d) != '0')
  {
  }

  lemma {:induction false} FormatUintIsDigits(n: nat, base: nat)
    requires 2 <= base <= 16
    ensures var s := FormatUint(n, base); s != "" && AllDigits(s, base) && (n > 0 ==> s[0] != '0')
  {
    if n < base {
      DigitCharValue(n);
    } else {
      var q, r := n / base, n % base;
      QuotientRemainder(n, base);
      FormatUintIsDigits(q, base);
      DigitCharValue(r);
      AppendDigit(FormatUint(q, base), DigitChar(r), base);
      assert FormatUint(n, base) == FormatUint(q, base) + [DigitChar(r)];
    }
  }

  lemma AppendDigit(s: string, c: char, base: nat)
    requires AllDigits(s, base) && DigitValue(c) < base
    ensures AllDigits(s + [c], base)
  {
  }

  lemma {:induction false} FormatUintValue(n: nat, base: nat)
    requires 2 <= base <= 16
    ensures Value(FormatUint(n, base), base) == n
  {
    if n < base {
      OneDigit(n, base);
    } else {
      var q, r := n / base, n % base;
      QuotientRemainder(n, base);
      FormatUintValue(q, base);
      OneMoreDigit(FormatUint(q, base), q, r, base);
      assert FormatUint(n, base) == FormatUint(q, base) + [DigitChar(r)];
    }
  }

  lemma OneDigit(n: nat, base: nat)
    requires n < base <= 16
    ensures Value([DigitChar(n)], base) == n
  {
    var s := [DigitChar(n)];
    DigitCharValue(n);
    assert s[..0] == "" && Value("", base) == 0;
    Doubles(0, base + 2);
    assert Value(s, base) == 0 * base + DigitValue(s[0]);
  }

  lemma OneMoreDigit(s: string, q: nat, r: nat, base: nat)
    requires Value(s, base) == q && r < base <= 16
    ensures Value(s + [DigitChar(r)], base) == q * base + r
  {
    DigitCharValue(r);
    assert (s + [DigitChar(r)])[..|s|] == s;
  }

  lemma QuotientRemainder(n: nat, base: nat)
    requires 2 <= base <= n
    ensures n / base * base + n % base == n && 0 < n / base < n
  {
  }

  lemma {:induction false} UpperKeepsValue(s: string, base: nat)
    requires AllDigits(s, base) && base <= 16
    ensures |ToUpper(s)| == |s| && AllDigits(ToUpper(s), base) && Value(ToUpper(s), base) == Value(s, base)
  {
    if s != "" {
      var t := ToUpper(s);
      UpperKeepsValue(s[..|s| - 1], base);
      assert t[..|t| - 1] == ToUpper(s[..|s| - 1]);
    }
  }

  lemma {:induction false} LeadingZeros(k: nat, s: string, base: nat)
    ensures Value(Repeat('0', k) + s, base) == Value(s, base)
    decreases |s|, k
  {
    var t := Repeat('0', k) + s;
    if s != "" {
      assert t[..|t| - 1] == Repeat('0', k) + s[..|s| - 1];
      LeadingZeros(k, s[..|s| - 1], base);
    } else if k > 0 {
      assert t[..|t| - 1] == Repeat('0', k - 1) + s;
      LeadingZeros(k - 1, s, base);
    }
  }

  /** A positive number followed by zeros is a larger number. */
  lemma {:induction false} TrailingZeros(s: string, k: nat, base: nat)
    requires base >= 2
    ensures Value(s + Repeat('0', k), base) >= Value(s, base)
    ensures k > 0 && Value(s, base) > 0 ==> Value(s + Repeat('0', k), base) > Value(s, base)
    ensures Value(s, base) == 0 ==> Value(s + Repeat('0', k), base) == 0
  {
    var t := s + Repeat('0', k);
    if k > 0 {
      assert t[..|t| - 1] == s + Repeat('0', k - 1);
      TrailingZeros(s, k - 1, base);
      Doubles(Value(s + Repeat('0', k - 1), base), base);
    } else {
      assert t == s;
    }
  }

  lemma Doubles(x: nat, base: nat)
    requires base >= 2
    ensures x * base >= 2 * x && 0 * base == 0
  {
  }
}
