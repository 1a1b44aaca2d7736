/** Coercion of class-constant values to their type hints
    (coerceConstToTypeHint, constValueMatchesTypeHint in core/compiler/compile-classref.go). */
module ConstHints {
  import opened Options

  datatype Tag = TNull | TBool | TInt | TFloat | TString | TArray | TObject | TResource | TCallable | TMixed | TVoid
    | TNever

  /** A value; an object carries the names of the classes it is an instance of. */
  datatype Val =
    | VNull | VBool(b: bool) | VInt(i: int) | VFloat(r: real) | VStr(s: string)
    | VArray(elems: seq<Val>) | VObject(classes: set<string>)

  function TagOf(v: Val): Tag {
    match v
    case VNull => TNull
    case VBool(_) => TBool
    case VInt(_) => TInt
    case VFloat(_) => TFloat
    case VStr(_) => TString
    case VArray(_) => TArray
    case VObject(_) => TObject
  }

  /** A type hint; unions and intersections keep the zero tag. */
  datatype Hint = Hint(t: Tag, name: string, nullable: bool, union: seq<Hint>, inter: seq<Hint>)

  /** What the parser builds: only leaves carry a tag other than the zero one. */
  predicate WellFormed(h: Hint) {
    && (h.union != [] || h.inter != [] ==> h.t == TNull)
    && forall u :: u in h.union ==> WellFormed(u)
  }

  predicate IsNullable(h: Hint) {
    if h.nullable then true
    else if h.inter != [] then false
    else if h.union != [] then exists u :: u in h.union && IsNullable(u)
    else h.t == TMixed || h.t == TNull
  }

  /** constValueMatchesTypeHint */
  predicate Matches(v: Val, h: Hint) {
    if IsNullable(h) && v.VNull? then true
    else if h.union != [] then exists u :: u in h.union && Matches(v, u)
    else if h.inter != [] then forall u :: u in h.inter ==> Matches(v, u)
    else if h.t == TMixed then true
    else if h.t == TNull then v.VNull?
    else if h.t == TBool && h.name == "false" then v == VBool(false)
    else if h.t == TBool && h.name == "true" then v == VBool(true)
    else if h.t == TObject then v.VObject? && (h.name == "" || h.name in v.classes)
    else if h.t == TFloat then v.VFloat? || v.VInt?
    else TagOf(v) == h.t
  }

  predicate DirectFloat(h: Hint) {
    h.t == TFloat && h.union == [] && h.inter == []
  }

  /** The union widens an int: it has a float member and no int member. */
  predicate Widens(h: Hint) {
    && (exists u :: u in h.union && u.t == TFloat)
    && (forall u :: u in h.union ==> u.t != TInt)
  }

  /** coerceConstToTypeHint; `None` is the type-mismatch error. */
  function Coerce(v: Val, h: Hint): Option<Val> {
    if DirectFloat(h) then
      match v
      case VInt(i) => Some(VFloat(i as real))
      case VFloat(_) => Some(v)
      case _ => None
    else if v.VInt? && Widens(h) then Some(VFloat(v.i as real))
    else if Matches(v, h) then Some(v)
    else None
  }

  // ----- what hints mean -----

  /** A hint without members: its tag says which values it takes, a class name which objects; a
      float takes ints too, and a nullable hint null. */
  lemma LeafMeaning(v: Val, h: Hint)
    requires h.union == [] && h.inter == []
    ensures Matches(v, h) <==>
      || (h.nullable && v == VNull)
      || match h.t
         case TMixed => true
         case TNull => v == VNull
         case TBool => v.VBool? && (h.name == "true" ==> v.b) && (h.name == "false" ==> !v.b)
         case TInt => v.VInt?
         case TFloat => v.VFloat? || v.VInt?
         case TString => v.VStr?
         case TArray => v.VArray?
         case TObject => v.VObject? && (h.name != "" ==> h.name in v.classes)
         case _ => false
  {
  }

  /** A union takes what one of its members takes; an intersection what all of them take. */
  lemma CompoundMeaning(v: Val, h: Hint)
    requires WellFormed(h) && (h.union != [] || h.inter != [])
    ensures h.union != [] && h.inter == [] ==>
      (Matches(v, h) <==> (h.nullable && v == VNull) || exists u :: u in h.union && Matches(v, u))
    ensures h.union == [] ==>
      (Matches(v, h) <==> (h.nullable && v == VNull) || forall u :: u in h.inter ==> Matches(v, u))
  {
    if h.union != [] && h.inter == [] && !h.nullable && v.VNull? && IsNullable(h) {
      var u :| u in h.union && IsNullable(u);
      assert Matches(v, u);
    }
  }

  /** An int under a union becomes a float if and only if a member is float and none is int. */
  lemma UnionWidens(i: int, h: Hint)
    requires h.union != []
    ensures Coerce(VInt(i), h) == Some(VFloat(i as real)) <==>
      (exists u :: u in h.union && u.t == TFloat) && (forall u :: u in h.union ==> u.t != TInt)
    ensures Coerce(VInt(i), h) == Some(VInt(i)) <==>
      Matches(VInt(i), h)
      && ((forall u :: u in h.union ==> u.t != TFloat) || exists u :: u in h.union && u.t == TInt)
  {
  }

  /** A coerced value matches its hint, so a stored constant always has its declared type. */
  lemma CoercedMatches(v: Val, h: Hint)
    requires WellFormed(h) && Coerce(v, h).Some?
    ensures Matches(Coerce(v, h).value, h)
  {
    if !DirectFloat(h) && v.VInt? && Widens(h) {
      var u :| u in h.union && u.t == TFloat;
      assert WellFormed(u);
      assert Matches(VFloat(v.i as real), u);
    }
  }

  /** Coercing again changes nothing, so re-reading a stored constant returns the first value. */
  lemma CoerceIdempotent(v: Val, h: Hint)
    requires WellFormed(h) && Coerce(v, h).Some?
    ensures Coerce(Coerce(v, h).value, h) == Coerce(v, h)
  {
    CoercedMatches(v, h);
  }

  /** The values accepted are the matching ones, except that a nullable plain float rejects null. */
  lemma AcceptedIffMatches(v: Val, h: Hint)
    requires WellFormed(h)
    ensures Coerce(v, h).Some? <==> Matches(v, h) && !(DirectFloat(h) && h.nullable && v.VNull?)
  {
    if !DirectFloat(h) && v.VInt? && Widens(h) {
      var u :| u in h.union && u.t == TFloat;
      assert WellFormed(u);
      assert Matches(v, u);
    }
  }

  /** `?float` refuses the null it declares. */
  lemma NullableFloatRejectsNull()
    ensures var h := Hint(TFloat, "", true, [], []);
            WellFormed(h) && Matches(VNull, h) && Coerce(VNull, h).None?
  {
  }
}
