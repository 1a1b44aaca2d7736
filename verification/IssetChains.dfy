/** `isset($v[k1]...[kn])` and `empty($v[k])` on arrays, strings and scalars: the helpers of the
    bytecode machine against the walk of the syntax tree, both in core/compiler/compile-isset.go. */
module IssetChains {
  import opened Options

  /** Strings are sequences of bytes. `FloatK` holds the truncated key. */
  datatype Key = NullK | BoolK(b: bool) | IntK(n: int) | FloatK(n: int) | StrK(s: string)

  datatype Slot = AtInt(n: int) | AtStr(s: string)

  datatype Value = Null | Bool(b: bool) | Int(n: int) | Float(zero: bool) | Str(s: string)
    | Arr(slots: map<Slot, Value>)

  /** How strings become offsets: into strings (None unless an integer numeral), and into arrays. */
  datatype Conversions = Conversions(offset: string -> Option<int>, slot: string -> Slot)

  function Normal(k: Key): Key {
    if k.NullK? then StrK("") else k
  }

  function Offset(c: Conversions, k: Key): Option<int> {
    match k
    case NullK => Some(0)
    case BoolK(b) => Some(if b then 1 else 0)
    case IntK(n) => Some(n)
    case FloatK(n) => Some(n)
    case StrK(s) => c.offset(s)
  }

  function SlotOf(c: Conversions, k: Key): Slot {
    match k
    case NullK => AtStr("")
    case BoolK(b) => AtInt(if b then 1 else 0)
    case IntK(n) => AtInt(n)
    case FloatK(n) => AtInt(n)
    case StrK(s) => c.slot(s)
  }

  /** The position an offset names in a string; negative offsets count from the end. */
  function Position(s: string, offset: int): Option<nat> {
    var i := if offset < 0 then |s| + offset else offset;
    if 0 <= i < |s| then Some(i) else None
  }

  function BytePosition(c: Conversions, s: string, k: Key): Option<nat> {
    var n := Offset(c, Normal(k));
    if n.None? then None else Position(s, n.value)
  }

  function Present(v: Value): Option<Value> {
    if v.Null? then None else Some(v)
  }

  function ArrayElement(c: Conversions, slots: map<Slot, Value>, k: Key): Option<Value> {
    var slot := SlotOf(c, Normal(k));
    if slot in slots then Present(slots[slot]) else None
  }

  // ----- the syntax tree -----

  /** One step of checkExistenceAndGet. */
  function TreeElement(c: Conversions, v: Value, k: Key): Option<Value> {
    match v
    case Str(s) =>
      var i := BytePosition(c, s, k);
      if i.None? then None else Some(Str([s[i.value]]))
    case Arr(slots) => ArrayElement(c, slots, k)
    case _ => None
  }

  /** checkExistenceAndGet on `$v[k1]...[kn]`, whose syntax tree has the last key outermost. */
  function TreeGet(c: Conversions, v: Value, keys: seq<Key>): Option<Value> {
    if keys == [] then Present(v)
    else
      var container := TreeGet(c, v, keys[..|keys| - 1]);
      if container.None? then None else TreeElement(c, container.value, keys[|keys| - 1])
  }

  /** checkExistence. */
  function TreeIsset(c: Conversions, v: Value, keys: seq<Key>): bool
    requires keys != []
  {
    var container := TreeGet(c, v, keys[..|keys| - 1]);
    container.Some? && IssetDim(c, container.value, keys[|keys| - 1])
  }

  // ----- the bytecode machine -----

  /** Go's string(b) of a byte is the UTF-8 form of the code point. */
  function Utf8(b: char): string {
    if b as int < 0x80 then [b] else [(0xC0 + b as int / 64 % 32) as char, (0x80 + b as int % 64) as char]
  }

  /** IssetChainElement. */
  function ChainElement(c: Conversions, v: Value, k: Key): Option<Value> {
    match v
    case Str(s) =>
      var i := BytePosition(c, s, k);
      if i.None? then None else Some(Str(Utf8(s[i.value])))
    case Arr(slots) => ArrayElement(c, slots, k)
    case _ => None
  }

  /** EvalIssetDim: present and not null. */
  function IssetDim(c: Conversions, v: Value, k: Key): bool {
    match v
    case Str(s) => BytePosition(c, s, k).Some?
    case Arr(slots) => ArrayElement(c, slots, k).Some?
    case _ => false
  }

  /** The instructions for a chain: an element for every key but the last, then the test. */
  function ChainIsset(c: Conversions, v: Option<Value>, keys: seq<Key>): bool
    requires keys != []
    decreases |keys|
  {
    if v.None? then false
    else if |keys| == 1 then IssetDim(c, v.value, keys[0])
    else ChainIsset(c, ChainElement(c, v.value, keys[0]), keys[1..])
  }

  // ----- the machine refines the tree, except past bytes above ASCII -----

  function OffsetIn(c: Conversions, k: Key, offsets: set<int>): bool {
    var n := Offset(c, Normal(k));
    n.Some? && n.value in offsets
  }

  predicate AllIn(c: Conversions, keys: seq<Key>, offsets: set<int>) {
    forall i :: 0 <= i < |keys| ==> OffsetIn(c, keys[i], offsets)
  }

  predicate SomeIn(c: Conversions, keys: seq<Key>, offsets: set<int>) {
    exists i :: 0 <= i < |keys| && OffsetIn(c, keys[i], offsets)
  }

  /** A key before the last lands on a byte above ASCII, and the keys behind it all stay within two
      bytes but not within one. */
  predicate LandsInside(c: Conversions, v: Value, keys: seq<Key>)
    requires keys != []
    decreases |keys|
  {
    if |keys| == 1 then false
    else
      var next := TreeElement(c, v, keys[0]);
      if next.None? then false
      else if v.Str? && next.value.s[0] as int >= 0x80 then AllIn(c, keys[1..], {0, 1, -1, -2})
        && SomeIn(c, keys[1..], {1, -2})
      else LandsInside(c, next.value, keys[1..])
  }

  lemma {:induction false} TreeGetFromFront(c: Conversions, v: Value, keys: seq<Key>)
    requires keys != []
    ensures TreeGet(c, v, keys) == var next := TreeElement(c, v, keys[0]);
      if next.None? then None else TreeGet(c, next.value, keys[1..])
    decreases |keys|
  {
    var n := |keys| - 1;
    if n == 0 {
      assert keys[..0] == [] && keys[1..] == [];
    } else {
      TreeGetFromFront(c, v, keys[..n]);
      assert keys[..n][1..] == keys[1..][..n - 1] && keys[1..][n - 1] == keys[n];
    }
  }

  lemma TreeIssetFromFront(c: Conversions, v: Value, keys: seq<Key>)
    requires |keys| > 1
    ensures TreeIsset(c, v, keys) == var next := TreeElement(c, v, keys[0]);
      next.Some? && TreeIsset(c, next.value, keys[1..])
  {
    var n := |keys| - 1;
    TreeGetFromFront(c, v, keys[..n]);
    assert keys[..n][1..] == keys[1..][..n - 1] && keys[1..][n - 1] == keys[n];
  }

  /** Inside a one-byte string only the offsets 0 and -1 are set, and they lead back to it. */
  lemma {:induction false} OneByte(c: Conversions, b: char, keys: seq<Key>)
    requires keys != []
    ensures TreeIsset(c, Str([b]), keys) <==> AllIn(c, keys, {0, -1})
    decreases |keys|
  {
    if |keys| > 1 {
      TreeIssetFromFront(c, Str([b]), keys);
      OneByte(c, b, keys[1..]);
      SplitAllIn(c, keys, {0, -1});
    } else {
      assert keys[..0] == [];
    }
  }

  /** Inside a two-byte encoding there are four offsets, which lead to further such encodings. */
  lemma {:induction false} TwoBytes(c: Conversions, s: string, keys: seq<Key>)
    requires keys != [] && |s| == 2 && s[0] as int >= 0x80 && s[1] as int >= 0x80
    ensures ChainIsset(c, Some(Str(s)), keys) <==> AllIn(c, keys, {0, 1, -1, -2})
    decreases |keys|
  {
    if |keys| > 1 {
      SplitAllIn(c, keys, {0, 1, -1, -2});
      var next := ChainElement(c, Str(s), keys[0]);
      if next.Some? {
        TwoBytes(c, next.value.s, keys[1..]);
      }
    }
  }

  lemma SplitAllIn(c: Conversions, keys: seq<Key>, offsets: set<int>)
    requires keys != []
    ensures AllIn(c, keys, offsets) <==> OffsetIn(c, keys[0], offsets) && AllIn(c, keys[1..], offsets)
  {
    assert keys == [keys[0]] + keys[1..];
  }

  lemma NearAndFar(c: Conversions, keys: seq<Key>)
    ensures AllIn(c, keys, {0, -1}) <==> AllIn(c, keys, {0, 1, -1, -2}) && !SomeIn(c, keys, {1, -2})
  {
    forall i | 0 <= i < |keys|
      ensures OffsetIn(c, keys[i], {0, -1}) <==> OffsetIn(c, keys[i], {0, 1, -1, -2}) && !OffsetIn(c, keys[i], {1, -2})
    {
    }
  }

  /** The machine and the tree give the same answer for every value and every path of keys, if and
      only if the path does not go on inside the encoding of a byte above ASCII. */
  lemma {:induction false} MachineRefinesTree(c: Conversions, v: Value, keys: seq<Key>)
    requires keys != []
    ensures ChainIsset(c, Some(v), keys) == TreeIsset(c, v, keys) <==> !LandsInside(c, v, keys)
    decreases |keys|
  {
    if |keys| == 1 {
      assert keys[..0] == [];
    } else {
      TreeIssetFromFront(c, v, keys);
      var next := TreeElement(c, v, keys[0]);
      if next.Some? {
        if v.Str? && next.value.s[0] as int >= 0x80 {
          OneByte(c, next.value.s[0], keys[1..]);
          TwoBytes(c, Utf8(next.value.s[0]), keys[1..]);
          NearAndFar(c, keys[1..]);
        } else {
          MachineRefinesTree(c, next.value, keys[1..]);
        }
      }
    }
  }

  // ----- offsets and keys -----

  /** `$s[n]` is there for the offsets from -|s| up to |s| - 1, and is the byte counted from the start
      or from the end. */
  lemma OffsetsOfString(c: Conversions, s: string, n: int)
    ensures IssetDim(c, Str(s), IntK(n)) <==> -|s| <= n < |s|
    ensures TreeElement(c, Str(s), IntK(n)) ==
      if 0 <= n < |s| then Some(Str([s[n]])) else if -|s| <= n < 0 then Some(Str([s[|s| + n]])) else None
    ensures var e := ChainElement(c, Str(s), IntK(n));
            && (e.Some? <==> -|s| <= n < |s|)
            && (e.Some? && s[if n < 0 then |s| + n else n] as int < 0x80 ==> e == TreeElement(c, Str(s), IntK(n)))
  {
  }

  /** Other keys of a string stand for an offset: a boolean for 0 or 1, a float for what it is
      truncated to, a string for its numeral, and null for the empty string. */
  lemma KeysOfString(c: Conversions, s: string, b: bool, n: int, t: string)
    ensures IssetDim(c, Str(s), BoolK(b)) == IssetDim(c, Str(s), IntK(if b then 1 else 0))
    ensures IssetDim(c, Str(s), FloatK(n)) == IssetDim(c, Str(s), IntK(n))
    ensures IssetDim(c, Str(s), StrK(t)) <==> c.offset(t).Some? && IssetDim(c, Str(s), IntK(c.offset(t).value))
    ensures IssetDim(c, Str(s), NullK) == IssetDim(c, Str(s), StrK(""))
  {
  }

  /** `$a[k]` is set if and only if the slot of the key is there and not null, and is what it holds. */
  lemma KeysOfArray(c: Conversions, slots: map<Slot, Value>, k: Key, slot: Slot)
    requires match k
             case NullK => slot == c.slot("")
             case BoolK(b) => slot == AtInt(if b then 1 else 0)
             case IntK(n) => slot == AtInt(n)
             case FloatK(n) => slot == AtInt(n)
             case StrK(s) => slot == c.slot(s)
    ensures IssetDim(c, Arr(slots), k) <==> slot in slots && slots[slot] != Null
    ensures IssetDim(c, Arr(slots), k) ==> TreeElement(c, Arr(slots), k) == Some(slots[slot])
    ensures !IssetDim(c, Arr(slots), k) ==> TreeElement(c, Arr(slots), k) == None
    ensures ChainElement(c, Arr(slots), k) == TreeElement(c, Arr(slots), k)
    ensures c.slot("") == AtStr("") ==> (EmptyDim(c, Arr(slots), k) <==> slot !in slots || Falsy(slots[slot]))
  {
  }

  /** Nothing else has elements. */
  lemma ScalarsHaveNone(c: Conversions, v: Value, k: Key)
    requires !v.Str? && !v.Arr?
    ensures !IssetDim(c, v, k) && TreeElement(c, v, k).None? && ChainElement(c, v, k).None? && EmptyDim(c, v, k)
  {
  }

  /** One key after the other: isset sees what the keys but the last lead to. */
  lemma TwoKeys(c: Conversions, slots: map<Slot, Value>, inner: map<Slot, Value>, m: int, n: int)
    requires AtInt(m) in slots && slots[AtInt(m)] == Arr(inner)
    ensures TreeIsset(c, Arr(slots), [IntK(m), IntK(n)]) <==> AtInt(n) in inner && inner[AtInt(n)] != Null
  {
    var keys := [IntK(m), IntK(n)];
    assert keys[..1] == [IntK(m)] && [IntK(m)][..0] == [];
    assert TreeGet(c, Arr(slots), []) == Some(Arr(slots));
    assert TreeGet(c, Arr(slots), keys[..1]) == Some(Arr(inner));
  }

  // ----- empty -----

  /** What is falsy, value by value. */
  lemma FalsyValues(v: Value)
    ensures Falsy(v) <==> v in {Null, Bool(false), Int(0), Float(true), Str(""), Str("0"), Arr(map[])}
  {
  }

  /** `empty($s[n])` holds where there is no such byte, and where it is `0`. */
  lemma EmptyOffset(c: Conversions, s: string, n: int)
    ensures EmptyDim(c, Str(s), IntK(n)) <==> !(-|s| <= n < |s|) || s[if n < 0 then |s| + n else n] == '0'
  {
    if -|s| <= n < |s| {
      var b := s[if n < 0 then |s| + n else n];
      assert Utf8(b) == "0" <==> b == '0' by {
        assert b as int >= 0x80 ==> |Utf8(b)| == 2;
        assert b as int < 0x80 ==> Utf8(b) == [b];
      }
    }
  }

  /** IsValueEmpty. */
  function Falsy(v: Value): bool {
    match v
    case Null => true
    case Bool(b) => !b
    case Int(n) => n == 0
    case Float(zero) => zero
    case Str(s) => s == "" || s == "0"
    case Arr(slots) => slots == map[]
  }

  /** EvalEmptyDim. */
  function EmptyDim(c: Conversions, v: Value, k: Key): bool {
    match v
    case Str(s) =>
      var n := Offset(c, k);
      if n.None? then true
      else
        var i := Position(s, n.value);
        i.None? || Utf8(s[i.value]) == "0"
    case Arr(slots) =>
      var slot := SlotOf(c, k);
      slot !in slots || Falsy(slots[slot])
    case _ => true
  }

  /** An element is empty when it is not set or is falsy; with a null key this fails exactly for
      strings that start with something other than `0`. `""` is no numeral. */
  lemma EmptyIsUnsetOrFalsy(c: Conversions, v: Value, k: Key)
    requires c.offset("").None? && c.slot("") == AtStr("")
    ensures var e := TreeElement(c, v, k);
            EmptyDim(c, v, k) == (!IssetDim(c, v, k) || Falsy(e.value))
            <==> !(k.NullK? && v.Str? && v.s != "" && v.s[0] != '0')
  {
    if v.Str? {
      var i := if Offset(c, k).None? then None else Position(v.s, Offset(c, k).value);
      if i.Some? {
        var b := v.s[i.value];
        assert Utf8(b) == "0" <==> [b] == "0" by {
          assert b as int >= 0x80 ==> |Utf8(b)| == 2;
        }
      }
    }
  }
}
