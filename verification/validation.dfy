/**
 * The catalog of field conditions (src/utils/validation.ts). A condition maps
 * a value to an optional message; the three marker conditions never report
 * and are recognised by the schema engine through their constructor.
 *
 * Messages are constructors rather than interpolated strings. `isValidEmail`
 * and `isValidUrl` are external predicates: each `Email`/`Url` condition
 * carries the predicate it is checked against.
 */
module Validation {
  import opened JsValue

  /** The messages the catalog produces, plus free text from other sources. */
  datatype Message =
    | FieldRequired                      // 'The field is required'
    | CannotBe(value: Value)             // `The field cannot be ${value}`
    | LengthMustBeGreaterThan(bound: int)
    | LengthMustBeSmallerThan(bound: int)
    | MustBeGreaterThan(bound: int)
    | MustBeSmallerThan(bound: int)
    | InvalidEmail                       // 'The field must be a valid email'
    | InvalidUrl                         // 'The field must be a valid url'
    | Text(text: string)                 // a whole-object message or a server message
  {
    /** JavaScript truthiness of the message string: only the empty string is falsy. */
    predicate Truthy()
    {
      this != Text("")
    }
  }

  datatype Condition =
    | Required
    | RequiredList
    | RequiredString
    | Blacklist(xs: seq<Value>)
    | Whitelist(xs: seq<Value>)
    | LengthGreaterThan(x: int)
    | LengthSmallerThan(x: int)
    | GreaterThan(x: int)
    | SmallerThan(x: int)
    | Email(isValidEmail: Value -> bool)
    | Url(isValidUrl: Value -> bool)
    | Clear                              // clearCondition: submit as null
    | Id                                 // idCondition: never submit as null
    | ArrayDefault                       // arrayCondition: submit [] when missing

  /** The characters `String.prototype.trim` removes: WhiteSpace and LineTerminator of ECMAScript. */
  predicate IsWhitespace(c: char)
  {
    c == '\t' || c == '\n' || c == '\U{B}' || c == '\U{C}' || c == '\r' || c == ' '
    || c == '\U{A0}' || c == '\U{1680}' || ('\U{2000}' <= c <= '\U{200A}')
    || c == '\U{2028}' || c == '\U{2029}' || c == '\U{202F}' || c == '\U{205F}'
    || c == '\U{3000}' || c == '\U{FEFF}'
  }

  ghost predicate IsBlank(s: string)
  {
    forall i | 0 <= i < |s| :: IsWhitespace(s[i])
  }

  function TrimStart(s: string): (r: string)
    ensures |r| <= |s| && r == s[|s| - |r|..]
    ensures r != "" ==> !IsWhitespace(r[0])
  {
    if s != "" && IsWhitespace(s[0]) then TrimStart(s[1..]) else s
  }

  function TrimEnd(s: string): (r: string)
    ensures |r| <= |s| && r == s[..|r|]
    ensures r != "" ==> !IsWhitespace(r[|r| - 1])
  {
    if s != "" && IsWhitespace(s[|s| - 1]) then TrimEnd(s[..|s| - 1]) else s
  }

  /** `s.trim()`: empty exactly when every character of `s` is white space. */
  function Trim(s: string): (r: string)
    ensures r == "" <==> IsBlank(s)
  {
    TrimBothEmptyIffBlank(s);
    TrimEnd(TrimStart(s))
  }

  lemma {:induction false} TrimStartEmptyIffBlank(s: string)
    ensures TrimStart(s) == "" <==> IsBlank(s)
  {
    if s != "" && IsWhitespace(s[0]) {
      TrimStartEmptyIffBlank(s[1..]);
      assert IsBlank(s[1..]) ==> IsBlank(s) by {
        if IsBlank(s[1..]) {
          forall i | 0 <= i < |s| ensures IsWhitespace(s[i]) {
            if i > 0 { assert s[i] == s[1..][i - 1]; }
          }
        }
      }
    }
  }

  lemma TrimBothEmptyIffBlank(s: string)
    ensures TrimEnd(TrimStart(s)) == "" <==> IsBlank(s)
  {
    TrimStartEmptyIffBlank(s);
    var t := TrimStart(s);
    assert t == "" ==> TrimEnd(t) == "";
    assert t != "" ==> TrimEnd(t) != "" by {
      if t != "" {
        assert !IsWhitespace(t[0]);
        assert |TrimEnd(t)| > 0 by {
          if TrimEnd(t) == "" { TrimEndEmptyOnlyIfBlank(t); }
        }
      }
    }
  }

  lemma {:induction false} TrimEndEmptyOnlyIfBlank(s: string)
    requires TrimEnd(s) == ""
    ensures IsBlank(s)
  {
    if s != "" {
      assert IsWhitespace(s[|s| - 1]);
      TrimEndEmptyOnlyIfBlank(s[..|s| - 1]);
      forall i | 0 <= i < |s| ensures IsWhitespace(s[i]) {
        if i < |s| - 1 { assert s[i] == s[..|s| - 1][i]; }
      }
    }
  }

  /**
   * `isDefinedString`: defined and not blank after trimming. A defined value
   * that is not a string is counted as a non-blank string.
   */
  predicate IsDefinedString(v: Value)
  {
    IsDefined(v) && (v.Str? ==> Trim(v.s) != "")
  }

  function RequiredCondition(v: Value): (r: Option<Message>)
    ensures r.Some? <==> v.Undef? || v.Null?
    ensures r.Some? ==> r.value == FieldRequired
  {
    if !IsDefined(v) then Some(FieldRequired) else None
  }

  function RequiredListCondition(v: Value): (r: Option<Message>)
    ensures r.Some? <==> v.Undef? || v.Null? || v == Str("") || v == List([])
    ensures r.Some? ==> r.value == FieldRequired
  {
    if !IsDefined(v) || Length(v) == Some(0) then Some(FieldRequired) else None
  }

  function RequiredStringCondition(v: Value): (r: Option<Message>)
    ensures r.Some? <==> v.Undef? || v.Null? || (v.Str? && IsBlank(v.s))
    ensures r.Some? ==> r.value == FieldRequired
  {
    if !IsDefinedString(v) then Some(FieldRequired) else None
  }

  function BlacklistCondition(xs: seq<Value>, v: Value): (r: Option<Message>)
    ensures r.Some? <==> !v.Undef? && !v.Null? && v in xs
    ensures r.Some? ==> r.value == CannotBe(v)
  {
    if IsDefined(v) && v in xs then Some(CannotBe(v)) else None
  }

  function WhitelistCondition(xs: seq<Value>, v: Value): (r: Option<Message>)
    ensures r.Some? <==> !v.Undef? && !v.Null? && v !in xs
    ensures r.Some? ==> r.value == CannotBe(v)
  {
    if IsDefined(v) && v !in xs then Some(CannotBe(v)) else None
  }

  function LengthGreaterThanCondition(x: int, v: Value): (r: Option<Message>)
    ensures r.Some? <==> (v.Str? && Utf16Length(v.s) <= x) || (v.List? && |v.items| <= x)
    ensures r.Some? ==> r.value == LengthMustBeGreaterThan(x)
  {
    if IsDefined(v) && Length(v).Some? && Length(v).value <= x
    then Some(LengthMustBeGreaterThan(x)) else None
  }

  function LengthSmallerThanCondition(x: int, v: Value): (r: Option<Message>)
    ensures r.Some? <==> (v.Str? && Utf16Length(v.s) > x) || (v.List? && |v.items| > x)
    ensures r.Some? ==> r.value == LengthMustBeSmallerThan(x)
  {
    if IsDefined(v) && Length(v).Some? && Length(v).value > x
    then Some(LengthMustBeSmallerThan(x)) else None
  }

  /** An emoji is two UTF-16 code units long: a bound of one reports it as too long, not as too short. */
  lemma AstralCharLength()
    ensures LengthGreaterThanCondition(1, Str("\U{1F600}")).None?
    ensures LengthSmallerThanCondition(1, Str("\U{1F600}")) == Some(LengthMustBeSmallerThan(1))
  {
    AstralCharCountsTwice();
  }

  /** The number a relational comparison sees: numbers, and booleans as 0 and 1. */
  function NumericValue(v: Value): Option<int>
  {
    match v
    case Num(n) => Some(n)
    case Bool(b) => Some(if b then 1 else 0)
    case _ => None
  }

  function GreaterThanCondition(x: int, v: Value): (r: Option<Message>)
    ensures v.Num? ==> (r.Some? <==> v.n <= x)
    ensures v.Undef? || v.Null? ==> r.None?
    ensures r.Some? ==> r.value == MustBeGreaterThan(x)
  {
    if IsDefined(v) && NumericValue(v).Some? && NumericValue(v).value <= x
    then Some(MustBeGreaterThan(x)) else None
  }

  function SmallerThanCondition(x: int, v: Value): (r: Option<Message>)
    ensures v.Num? ==> (r.Some? <==> v.n > x)
    ensures v.Undef? || v.Null? ==> r.None?
    ensures r.Some? ==> r.value == MustBeSmallerThan(x)
  {
    if IsDefined(v) && NumericValue(v).Some? && NumericValue(v).value > x
    then Some(MustBeSmallerThan(x)) else None
  }

  function EmailCondition(isValidEmail: Value -> bool, v: Value): (r: Option<Message>)
    ensures v.Str? ==> (r.Some? <==> !IsBlank(v.s) && !isValidEmail(v))
    ensures v.Undef? || v.Null? ==> r.None?
    ensures r.Some? ==> r.value == InvalidEmail
  {
    if IsDefinedString(v) && !isValidEmail(v) then Some(InvalidEmail) else None
  }

  function UrlCondition(isValidUrl: Value -> bool, v: Value): (r: Option<Message>)
    ensures v.Str? ==> (r.Some? <==> !IsBlank(v.s) && !isValidUrl(v))
    ensures v.Undef? || v.Null? ==> r.None?
    ensures r.Some? ==> r.value == InvalidUrl
  {
    if IsDefinedString(v) && !isValidUrl(v) then Some(InvalidUrl) else None
  }

  predicate IsMarker(c: Condition)
  {
    c.Clear? || c.Id? || c.ArrayDefault?
  }

  /** Runs one condition of a leaf schema against a value. */
  function Check(c: Condition, v: Value): (r: Option<Message>)
    ensures IsMarker(c) ==> r.None?
    ensures r.Some? ==> r.value.Truthy()
    ensures (v.Undef? || v.Null?) && r.Some? ==> r.value == FieldRequired
  {
    match c
    case Required => RequiredCondition(v)
    case RequiredList => RequiredListCondition(v)
    case RequiredString => RequiredStringCondition(v)
    case Blacklist(xs) => BlacklistCondition(xs, v)
    case Whitelist(xs) => WhitelistCondition(xs, v)
    case LengthGreaterThan(x) => LengthGreaterThanCondition(x, v)
    case LengthSmallerThan(x) => LengthSmallerThanCondition(x, v)
    case GreaterThan(x) => GreaterThanCondition(x, v)
    case SmallerThan(x) => SmallerThanCondition(x, v)
    case Email(p) => EmailCondition(p, v)
    case Url(p) => UrlCondition(p, v)
    case Clear => None
    case Id => None
    case ArrayDefault => None
  }
}
