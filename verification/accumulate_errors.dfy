/**
 * Full error accumulation (`accumulateErrors` of src/utils/schema.js): walks
 * a value against its schema and builds the error tree.
 *
 * `FirstError`, `Errors` and `MemberErrors` specify it; the methods
 * `LeafError` and `AccumulateErrors` compute it the way the source does, with
 * the `every` loop over a leaf's conditions and the `forEach` loops that fill
 * `errors.fields` and `errors.members`.
 */
module ErrorAccumulation {
  import opened JsValue
  import opened Validation
  import opened Schemas

  /** `if (message)`: the condition reports a (truthy) message for the value. */
  predicate Reports(c: Condition, v: Value)
  {
    var m := Check(c, v);
    m.Some? && m.value.Truthy()
  }

  /** The message of the first condition that reports, if any. */
  function FirstError(conditions: seq<Condition>, v: Value): Option<Message>
  {
    FirstErrorFrom(conditions, v, 0)
  }

  /** The message of the first condition at or after `start` that reports. */
  function FirstErrorFrom(conditions: seq<Condition>, v: Value, start: nat): (r: Option<Message>)
    requires start <= |conditions|
    ensures r.Some? ==> r.value.Truthy()
    decreases |conditions| - start
  {
    if start == |conditions| then None
    else if Reports(conditions[start], v) then Check(conditions[start], v)
    else FirstErrorFrom(conditions, v, start + 1)
  }

  /**
   * The leaf's error is absent exactly when no condition reports, and
   * otherwise is the message of a condition that reports, all conditions
   * before it passing.
   */
  lemma {:induction false} FirstErrorIsFirstReport(conditions: seq<Condition>, v: Value, start: nat)
    requires start <= |conditions|
    ensures FirstErrorFrom(conditions, v, start).None? <==> forall i | start <= i < |conditions| :: !Reports(conditions[i], v)
    ensures FirstErrorFrom(conditions, v, start).Some? ==>
      exists i | start <= i < |conditions| ::
        && Reports(conditions[i], v)
        && FirstErrorFrom(conditions, v, start) == Check(conditions[i], v)
        && forall j | start <= j < i :: !Reports(conditions[j], v)
    decreases |conditions| - start
  {
    if start < |conditions| && !Reports(conditions[start], v) {
      FirstErrorIsFirstReport(conditions, v, start + 1);
    }
  }

  /** Conditions after the first one that reports can never change the leaf's error. */
  lemma {:induction false} FirstErrorIgnoresLaterConditions(conditions: seq<Condition>, later: seq<Condition>, v: Value, start: nat)
    requires start <= |conditions| && FirstErrorFrom(conditions, v, start).Some?
    ensures FirstErrorFrom(conditions + later, v, start) == FirstErrorFrom(conditions, v, start)
    decreases |conditions| - start
  {
    assert (conditions + later)[start] == conditions[start];
    if !Reports(conditions[start], v) {
      FirstErrorIgnoresLaterConditions(conditions, later, v, start + 1);
    }
  }

  /** The error tree `accumulateErrors(v, s)`; `None` is `undefined`. */
  function Errors(v: Value, s: Schema): (r: Option<ErrorTree>)
    requires WellFormed(s)
    ensures r.Some? ==> Canonical(r.value)
    ensures s.Leaf? ==> (r.Some? <==> exists i | 0 <= i < |s.conditions| :: Reports(s.conditions[i], v))
    ensures s.ObjectSchema? && r.Some? ==>
      && r.value.Node? && r.value.members.Absent?
      && r.value.internal == Internal(s.validation, v)
      && (r.value.fields.Entries? ==> r.value.fields.entries.Keys <= s.fields(v).Keys)
    ensures s.ArraySchema? && r.Some? ==>
      r.value.Node? && r.value.fields.Absent? && r.value.internal == Internal(s.validation, v)
    ensures s.Invalid? ==> r.None?
    decreases Depth(s), 1
  {
    match s
    case Leaf(conditions) =>
      FirstErrorIsFirstReport(conditions, v, 0);
      var m := FirstError(conditions, v);
      if m.Some? then Some(Msg(m.value)) else None
    case ObjectSchema(_, _, validation) =>
      Assemble(Internal(validation, v), FieldErrors(v, s), map[])
    case ArraySchema(_, _, _, validation) =>
      Assemble(Internal(validation, v), map[], MemberErrors(Items(v), s))
    case Invalid => None
  }

  /** `errors.fields` after the `forEach` over the keys of `fields(v)`. */
  function FieldErrors(v: Value, s: Schema): (r: map<string, ErrorTree>)
    requires s.ObjectSchema? && WellFormed(s)
    ensures r.Keys <= s.fields(v).Keys
    ensures forall k | k in r :: Canonical(r[k])
    decreases Depth(s), 0
  {
    var F := s.fields(v);
    map k | k in F && Present(Errors(Get(v, k), F[k])) :: Errors(Get(v, k), F[k]).value
  }

  /** `errors.members` after the `forEach` over `items`: later elements overwrite earlier ones with the same key. */
  function MemberErrors(items: seq<Value>, s: Schema): (r: map<Key, ErrorTree>)
    requires s.ArraySchema? && WellFormed(s)
    ensures forall k | k in r :: Canonical(r[k])
    ensures forall k | k in r :: exists i | 0 <= i < |items| :: s.keySelector(items[i]) == k
    decreases Depth(s), 0, |items|
  {
    if items == [] then map[]
    else
      var prior := MemberErrors(items[..|items| - 1], s);
      var e := items[|items| - 1];
      var sub := Errors(e, s.member(e));
      assert forall i | 0 <= i < |items| - 1 :: items[..|items| - 1][i] == items[i];
      if Present(sub) then prior[s.keySelector(e) := sub.value] else prior
  }

  /**
   * With unique keys, the members map holds exactly the elements whose own
   * error is defined, each under its key.
   */
  lemma MemberErrorsByKey(items: seq<Value>, s: Schema)
    requires s.ArraySchema? && WellFormed(s) && UniqueKeys(items, s.keySelector)
    ensures forall i | 0 <= i < |items| :: MemberErrorIs(MemberErrors(items, s), s, items[i])
  {
    forall i | 0 <= i < |items| ensures MemberErrorIs(MemberErrors(items, s), s, items[i]) {
      MemberErrorAt(items, s, i);
    }
  }

  /** Element `x` has its own error, when defined, under its key in `m`, and its key is absent otherwise. */
  ghost predicate MemberErrorIs(m: map<Key, ErrorTree>, s: Schema, x: Value)
    requires s.ArraySchema? && WellFormed(s)
  {
    var sub := Errors(x, s.member(x));
    && (s.keySelector(x) in m <==> sub.Some?)
    && (sub.Some? ==> m[s.keySelector(x)] == sub.value)
  }

  lemma {:induction false} MemberErrorAt(items: seq<Value>, s: Schema, i: nat)
    requires s.ArraySchema? && WellFormed(s) && UniqueKeys(items, s.keySelector) && i < |items|
    ensures MemberErrorIs(MemberErrors(items, s), s, items[i])
    decreases |items|
  {
    var n := |items| - 1;
    if i < n {
      var front := items[..n];
      assert UniqueKeys(front, s.keySelector) by {
        forall j, l | 0 <= j < l < |front| ensures s.keySelector(front[j]) != s.keySelector(front[l]) {
          assert front[j] == items[j] && front[l] == items[l];
        }
      }
      assert front[i] == items[i];
      MemberErrorAt(front, s, i);
      assert s.keySelector(items[i]) != s.keySelector(items[n]);
    }
  }

  /** An object is valid exactly when its own validation passes and every field is valid. */
  lemma ObjectValidIff(v: Value, s: Schema)
    requires s.ObjectSchema? && WellFormed(s)
    ensures Errors(v, s).None? <==>
      && Internal(s.validation, v).None?
      && forall k | k in s.fields(v) :: Errors(Get(v, k), s.fields(v)[k]).None?
  {
    var F := s.fields(v);
    if Errors(v, s).None? {
      forall k | k in F ensures Errors(Get(v, k), F[k]).None? {
        assert k !in FieldErrors(v, s);
      }
    } else if FieldErrors(v, s) != map[] {
      var k :| k in FieldErrors(v, s);
      assert Errors(Get(v, k), F[k]).Some?;
    }
  }

  /** An array is valid exactly when its own validation passes and every element is valid (keys need not be unique). */
  lemma ArrayValidIff(v: Value, s: Schema)
    requires s.ArraySchema? && WellFormed(s)
    ensures Errors(v, s).None? <==>
      && Internal(s.validation, v).None?
      && forall x | x in Items(v) :: Errors(x, s.member(x)).None?
  {
    MembersEmptyIffValid(Items(v), s);
  }

  lemma {:induction false} MembersEmptyIffValid(items: seq<Value>, s: Schema)
    requires s.ArraySchema? && WellFormed(s)
    ensures MemberErrors(items, s) == map[] <==> forall x | x in items :: Errors(x, s.member(x)).None?
    decreases |items|
  {
    if items != [] {
      var front, last := items[..|items| - 1], items[|items| - 1];
      assert forall x :: x in items <==> x in front || x == last;
      MembersEmptyIffValid(front, s);
      var sub := Errors(last, s.member(last));
      if sub.Some? {
        assert Present(sub);
        assert s.keySelector(last) in MemberErrors(items, s);
      }
    }
  }

  /** The `every` loop of a leaf: stops at the first condition that reports. */
  method LeafError(conditions: seq<Condition>, v: Value) returns (error: Option<Message>)
    ensures error == FirstError(conditions, v)
  {
    error := None;
    var i := 0;
    var go := true;
    while go && i < |conditions|
      invariant 0 <= i <= |conditions|
      invariant go ==> error.None? && FirstErrorFrom(conditions, v, i) == FirstError(conditions, v)
      invariant !go ==> error == FirstError(conditions, v)
      decreases |conditions| - i, go
    {
      var message := Check(conditions[i], v);
      if message.Some? && message.value.Truthy() {
        error := message;
      }
      go := !(message.Some? && message.value.Truthy());
      i := i + 1;
    }
  }

  /** `accumulateErrors(obj, schema)`. */
  method AccumulateErrors(v: Value, s: Schema) returns (r: Option<ErrorTree>)
    requires WellFormed(s)
    ensures r == Errors(v, s)
    decreases Depth(s), 1
  {
    match s {
      case Leaf(conditions) =>
        var error := LeafError(conditions, v);
        r := if error.Some? then Some(Msg(error.value)) else None;
      case ObjectSchema(_, _, validation) =>
        var internal := Internal(validation, v);
        var fieldErrors := AccumulateFieldErrors(v, s);
        r := Assemble(internal, fieldErrors, map[]);
      case ArraySchema(_, _, _, validation) =>
        var internal := Internal(validation, v);
        var members := AccumulateMemberErrors(Items(v), s);
        r := Assemble(internal, map[], members);
      case Invalid =>
        r := None;
    }
  }

  /** The `forEach` over the field names that fills `errors.fields`. */
  method AccumulateFieldErrors(v: Value, s: Schema) returns (fieldErrors: map<string, ErrorTree>)
    requires s.ObjectSchema? && WellFormed(s)
    ensures fieldErrors == FieldErrors(v, s)
    decreases Depth(s), 0
  {
    var F := s.fields(v);
    fieldErrors := map[];
    var remaining := F.Keys;
    while remaining != {}
      invariant remaining <= F.Keys
      invariant forall k :: k in fieldErrors <==> k in F && k !in remaining && Present(Errors(Get(v, k), F[k]))
      invariant forall k | k in fieldErrors :: fieldErrors[k] == Errors(Get(v, k), F[k]).value
      decreases remaining
    {
      var fieldName :| fieldName in remaining;
      var fieldError := AccumulateErrors(Get(v, fieldName), F[fieldName]);
      if Present(fieldError) {
        fieldErrors := fieldErrors[fieldName := fieldError.value];
      }
      remaining := remaining - {fieldName};
    }
    assert fieldErrors == FieldErrors(v, s);
  }

  /** The `forEach` over the elements that fills `errors.members`. */
  method AccumulateMemberErrors(items: seq<Value>, s: Schema) returns (members: map<Key, ErrorTree>)
    requires s.ArraySchema? && WellFormed(s)
    ensures members == MemberErrors(items, s)
    decreases Depth(s), 0
  {
    members := map[];
    for i := 0 to |items|
      invariant members == MemberErrors(items[..i], s)
    {
      assert items[..i + 1][..i] == items[..i];
      var element := items[i];
      var fieldError := AccumulateErrors(element, s.member(element));
      if Present(fieldError) {
        members := members[s.keySelector(element) := fieldError.value];
      }
    }
    assert items[..|items|] == items;
  }
}
