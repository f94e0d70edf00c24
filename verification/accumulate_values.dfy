/**
 * Value accumulation (`accumulateValues` of src/utils/schema.js): builds the
 * payload that is submitted from the form value, walking the value against
 * its schema and applying the policies of the marker conditions
 * (`clearCondition`, `idCondition`, `arrayCondition`) at the leaves.
 *
 * `Values` specifies it; the method `AccumulateValues` computes it with the
 * `forEach` loops of the source (`values.push(...)` for arrays,
 * `values[fieldName] = ...` for objects).
 */
module ValueAccumulation {
  import opened JsValue
  import opened Validation
  import opened Schemas

  /** `hasNoKeys(values)` on the accumulated object (an object literal is never falsy). */
  predicate HasNoKeys(values: map<string, Value>)
  {
    |values| == 0
  }

  /** `hasNoValues(values)` on the accumulated array: empty, or every element falsy. */
  predicate HasNoValues(values: seq<Value>)
  {
    |values| <= 0 || forall i | 0 <= i < |values| :: IsFalsy(values[i])
  }

  /** The leaf branch: the marker policies, else the input unchanged. */
  function LeafValue(v: Value, conditions: seq<Condition>, nullable: bool): (r: Value)
    ensures r == v || r == Undef || r == Null || r == List([])
  {
    if HasClear(conditions) then
      if HasArray(conditions) then List([]) else Null
    else if !IsDefined(v) then
      if HasId(conditions) then Undef
      else if HasArray(conditions) then List([])
      else if nullable then Null
      else v
    else v
  }

  /** `accumulateValues(v, s, { nullable })`. */
  function Values(v: Value, s: Schema, nullable: bool): (r: Value)
    requires WellFormed(s)
    ensures s.ArraySchema? ==> r.List?
    ensures s.ObjectSchema? ==> r.Obj? || r == (if nullable then Null else Undef)
    ensures s.Invalid? ==> r == Undef
    decreases Depth(s), 1
  {
    match s
    case Leaf(conditions) => LeafValue(v, conditions, nullable)
    case ArraySchema(_, _, _, _) =>
      var values := MemberValues(Items(v), s, nullable);
      if HasNoValues(values) then List([]) else List(values)
    case ObjectSchema(_, _, _) =>
      var values := FieldValues(v, s, nullable);
      if HasNoKeys(values) then (if nullable then Null else Undef) else Obj(values)
    case Invalid => Undef
  }

  /** The array pushed by the `forEach` over the elements: one accumulated value per element, undefined included. */
  function MemberValues(items: seq<Value>, s: Schema, nullable: bool): (r: seq<Value>)
    requires s.ArraySchema? && WellFormed(s)
    ensures |r| == |items|
    decreases Depth(s), 0
  {
    seq(|items|, i requires 0 <= i < |items| => Values(items[i], s.member(items[i]), nullable))
  }

  /** The object filled by the `forEach` over the keys of `fields(v)`: the fields whose value is not undefined. */
  function FieldValues(v: Value, s: Schema, nullable: bool): (r: map<string, Value>)
    requires s.ObjectSchema? && WellFormed(s)
    ensures r.Keys <= s.fields(v).Keys
    ensures forall k | k in r :: r[k] != Undef
    decreases Depth(s), 0
  {
    var F := s.fields(v);
    map k | k in F && Values(Get(v, k), F[k], nullable) != Undef :: Values(Get(v, k), F[k], nullable)
  }

  // ---------------------------------------------------------------------
  // The policies of the leaves
  // ---------------------------------------------------------------------

  /** `clearCondition` discards the input: `[]` together with `arrayCondition`, else null. */
  lemma ClearDiscardsInput(v: Value, conditions: seq<Condition>, nullable: bool)
    requires HasClear(conditions)
    ensures LeafValue(v, conditions, nullable) == (if HasArray(conditions) then List([]) else Null)
    ensures forall w :: LeafValue(w, conditions, nullable) == LeafValue(v, conditions, nullable)
  {
  }

  /** A defined input reaches the payload unchanged unless the field is cleared. */
  lemma DefinedPassesThrough(v: Value, conditions: seq<Condition>, nullable: bool)
    requires IsDefined(v) && !HasClear(conditions)
    ensures LeafValue(v, conditions, nullable) == v
  {
  }

  /** An id is never sent as null: an absent id stays undefined (only clearing can null it). */
  lemma IdNeverNull(v: Value, conditions: seq<Condition>, nullable: bool)
    requires HasId(conditions) && !HasClear(conditions)
    ensures LeafValue(v, conditions, nullable) != Null
    ensures !IsDefined(v) ==> LeafValue(v, conditions, nullable) == Undef
  {
  }

  /**
   * An absent input without markers: `nullable` turns it into null, else it
   * is returned as it came (so a null input stays null).
   */
  lemma AbsentWithoutMarkers(v: Value, conditions: seq<Condition>, nullable: bool)
    requires !IsDefined(v) && !HasClear(conditions) && !HasId(conditions) && !HasArray(conditions)
    ensures LeafValue(v, conditions, nullable) == (if nullable then Null else v)
  {
  }

  /** An absent input with `arrayCondition` (and no id) becomes `[]`. */
  lemma AbsentArrayIsEmpty(v: Value, conditions: seq<Condition>, nullable: bool)
    requires !IsDefined(v) && !HasId(conditions) && HasArray(conditions)
    ensures LeafValue(v, conditions, nullable) == List([])
  {
  }

  // ---------------------------------------------------------------------
  // Arrays and objects
  // ---------------------------------------------------------------------

  /**
   * An array position always yields a list, never null or undefined: the
   * empty list when the input is absent (or not a list) or every
   * accumulated element is falsy, else the accumulated elements in order.
   */
  lemma ArrayValues(v: Value, s: Schema, nullable: bool)
    requires s.ArraySchema? && WellFormed(s)
    ensures Values(v, s, nullable).List?
    ensures !v.List? ==> Values(v, s, nullable) == List([])
    ensures Values(v, s, nullable) == List([]) <==>
      forall i | 0 <= i < |Items(v)| :: IsFalsy(Values(Items(v)[i], s.member(Items(v)[i]), nullable))
    ensures Values(v, s, nullable) != List([]) ==>
      && |Values(v, s, nullable).items| == |Items(v)|
      && forall i | 0 <= i < |Items(v)| :: Values(v, s, nullable).items[i] == Values(Items(v)[i], s.member(Items(v)[i]), nullable)
  {
    var values := MemberValues(Items(v), s, nullable);
    assert forall i | 0 <= i < |Items(v)| :: values[i] == Values(Items(v)[i], s.member(Items(v)[i]), nullable);
    if !HasNoValues(values) {
      var i :| 0 <= i < |values| && !IsFalsy(values[i]);
      assert values != [];
    }
  }

  /**
   * An object position keeps exactly the schema-listed fields whose
   * accumulated value is not undefined, and gives null (nullable) or
   * undefined when none remains.
   */
  lemma ObjectValues(v: Value, s: Schema, nullable: bool)
    requires s.ObjectSchema? && WellFormed(s)
    ensures var r := Values(v, s, nullable);
      && (r.Obj? || r == Null || r == Undef)
      && (r.Obj? ==> forall k :: k in r.props <==> k in s.fields(v) && Values(Get(v, k), s.fields(v)[k], nullable) != Undef)
      && (r.Obj? ==> forall k | k in r.props :: r.props[k] == Values(Get(v, k), s.fields(v)[k], nullable))
      && (!r.Obj? <==> forall k | k in s.fields(v) :: Values(Get(v, k), s.fields(v)[k], nullable) == Undef)
      && (!r.Obj? ==> r == if nullable then Null else Undef)
  {
    var F := s.fields(v);
    var values := FieldValues(v, s, nullable);
    if values != map[] {
      var k :| k in values;
      assert Values(Get(v, k), F[k], nullable) != Undef;
    } else {
      forall k | k in F ensures Values(Get(v, k), F[k], nullable) == Undef {
        assert k !in values;
      }
    }
  }

  /** An object position without fields sends nothing: undefined, or null when nullable. */
  lemma NoFieldsSendsNothing(v: Value, s: Schema, nullable: bool)
    requires s.ObjectSchema? && WellFormed(s) && s.fields(v) == map[]
    ensures Values(v, s, nullable) == if nullable then Null else Undef
  {
    assert FieldValues(v, s, nullable) == map[];
  }

  // ---------------------------------------------------------------------
  // The loops of the source
  // ---------------------------------------------------------------------

  /** `accumulateValues(obj, schema, settings)`. */
  method AccumulateValues(v: Value, s: Schema, nullable: bool) returns (r: Value)
    requires WellFormed(s)
    ensures r == Values(v, s, nullable)
    decreases Depth(s), 1
  {
    match s {
      case Leaf(conditions) =>
        r := LeafValue(v, conditions, nullable);
      case ArraySchema(_, _, _, _) =>
        var values := AccumulateMemberValues(Items(v), s, nullable);
        var empty := NoValues(values);
        r := if empty then List([]) else List(values);
      case ObjectSchema(_, _, _) =>
        var values := AccumulateFieldValues(v, s, nullable);
        r := if |values| == 0 then (if nullable then Null else Undef) else Obj(values);
      case Invalid =>
        r := Undef;
    }
  }

  /** `hasNoValues(values)`: `values.every((e) => isFalsy(e))`, stopping at the first truthy element. */
  method NoValues(values: seq<Value>) returns (empty: bool)
    ensures empty == HasNoValues(values)
  {
    empty := true;
    var i := 0;
    while i < |values| && empty
      invariant 0 <= i <= |values|
      invariant empty == forall j | 0 <= j < i :: IsFalsy(values[j])
      decreases |values| - i
    {
      empty := IsFalsy(values[i]);
      i := i + 1;
    }
  }

  /** The `forEach` over the elements that pushes each accumulated value. */
  method AccumulateMemberValues(items: seq<Value>, s: Schema, nullable: bool) returns (values: seq<Value>)
    requires s.ArraySchema? && WellFormed(s)
    ensures values == MemberValues(items, s, nullable)
    decreases Depth(s), 0
  {
    values := [];
    for i := 0 to |items|
      invariant |values| == i
      invariant forall j | 0 <= j < i :: values[j] == Values(items[j], s.member(items[j]), nullable)
    {
      var element := items[i];
      var value := AccumulateValues(element, s.member(element), nullable);
      values := values + [value];
    }
  }

  /** The `forEach` over the keys of `fields(obj)` that stores every value that is not undefined. */
  method AccumulateFieldValues(v: Value, s: Schema, nullable: bool) returns (values: map<string, Value>)
    requires s.ObjectSchema? && WellFormed(s)
    ensures values == FieldValues(v, s, nullable)
    decreases Depth(s), 0
  {
    var F := s.fields(v);
    values := map[];
    var remaining := F.Keys;
    while remaining != {}
      invariant remaining <= F.Keys
      invariant forall k :: k in values <==> k in F && k !in remaining && Values(Get(v, k), F[k], nullable) != Undef
      invariant forall k | k in values :: values[k] == Values(Get(v, k), F[k], nullable)
      decreases remaining
    {
      var fieldName :| fieldName in remaining;
      var value := AccumulateValues(Get(v, fieldName), F[fieldName], nullable);
      if value != Undef {
        values := values[fieldName := value];
      }
      remaining := remaining - {fieldName};
    }
    assert values == FieldValues(v, s, nullable);
  }
}
