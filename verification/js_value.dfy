/**
 * The JavaScript values the form engine walks over, and the small value
 * helpers it takes from `@togglecorp/fujs` (`isDefined`, `isFalsy`,
 * `isList`, `isObject`) together with optional chaining (`obj?.[key]`,
 * `obj?.forEach`).
 *
 * Numbers are modelled as integers; `===` between values is modelled as
 * value equality.
 */
module JsValue {

  datatype Option<+T> = None | Some(value: T)

  /** A (partial) form value: any field may be absent. */
  datatype Value =
    | Undef                              // undefined
    | Null                               // null
    | Bool(b: bool)
    | Num(n: int)
    | Str(s: string)
    | List(items: seq<Value>)
    | Obj(props: map<string, Value>)

  /** `isDefined`: neither undefined nor null. */
  predicate IsDefined(v: Value)
  {
    !v.Undef? && !v.Null?
  }

  /** `isFalsy` (and JavaScript truthiness): undefined, null, false, 0 and '' are falsy. */
  predicate IsFalsy(v: Value)
  {
    v.Undef? || v.Null? || v == Bool(false) || v == Num(0) || v == Str("")
  }

  /** The properties of an object; every other value spreads to `{}`. */
  function Props(v: Value): (m: map<string, Value>)
    ensures v.Obj? ==> m == v.props
    ensures !v.Obj? ==> m == map[]
  {
    if v.Obj? then v.props else map[]
  }

  /** `v?.[key]`: a missing property, or a lookup on a non-object, reads as undefined. */
  function Get(v: Value, key: string): (r: Value)
    ensures r != Undef ==> v.Obj? && key in v.props && v.props[key] == r
    ensures v.Obj? && key in v.props ==> r == v.props[key]
  {
    if v.Obj? && key in v.props then v.props[key] else Undef
  }

  /** The elements `v?.forEach` and `v || []` visit: a non-list visits none. */
  function Items(v: Value): (xs: seq<Value>)
    ensures v.List? ==> xs == v.items
    ensures !v.List? ==> xs == []
  {
    if v.List? then v.items else []
  }

  /** The UTF-16 code units of a character: two for one outside the Basic Multilingual Plane (a surrogate pair). */
  function CodeUnits(c: char): nat
  {
    if c <= '\U{FFFF}' then 1 else 2
  }

  /** A JavaScript string's `length`: its UTF-16 code units, not its characters. */
  function Utf16Length(s: string): (n: nat)
    ensures |s| <= n <= 2 * |s|
    ensures n == 0 <==> s == ""
  {
    if s == "" then 0 else Utf16Length(s[..|s| - 1]) + CodeUnits(s[|s| - 1])
  }

  /** Inside the Basic Multilingual Plane the code units are the characters. */
  lemma {:induction false} Utf16LengthOfBmp(s: string)
    requires forall i | 0 <= i < |s| :: s[i] <= '\U{FFFF}'
    ensures Utf16Length(s) == |s|
  {
    if s != "" {
      Utf16LengthOfBmp(s[..|s| - 1]);
    }
  }

  /** A character outside the Basic Multilingual Plane counts twice. */
  lemma AstralCharCountsTwice()
    ensures Utf16Length("\U{1F600}") == 2
  {
    assert "\U{1F600}"[..0] == "";
  }

  /** `v.length`: defined for strings (in UTF-16 code units) and lists only. */
  function Length(v: Value): (r: Option<int>)
    ensures r.Some? <==> v.Str? || v.List?
    ensures r.Some? ==> r.value >= 0
    ensures r == Some(0) <==> v == Str("") || v == List([])
  {
    match v
    case Str(s) => Some(Utf16Length(s))
    case List(xs) => Some(|xs|)
    case _ => None
  }
}
