/**
 * The form state controller of src/utils/form.ts.
 *
 * `useForm` keeps a `{ value, error }` state that dispatched actions update
 * through `formReducer`; `validate` runs full error accumulation and, when
 * nothing is errored, value accumulation; `createSubmitHandler` ties
 * validation to `setError` and the submit callback. `useFormObject` and
 * `useFormArray` keep the latest value of a nested part of the form in a
 * cell and forward the updated part to the parent's `onChange`.
 *
 * The reducer, `validate` and the submit handshake are functions; the
 * hooks are classes whose fields are the state the hooks keep, and whose
 * methods are the callbacks they return. A callback passed in (`onChange`,
 * the submit `callback`) is modelled by returning what it is called with.
 */
module Forms {
  import opened JsValue
  import opened Validation
  import opened Schemas
  import opened ErrorAccumulation
  import opened ErrorAnalysis
  import opened ValueAccumulation
  import opened DifferentialErrors

  /** The reducer's state. */
  datatype State = State(value: Value, error: Option<ErrorTree>)

  /** `SET_VALUE_FIELD`, `SET_ERROR`, or any other action type. */
  datatype Action =
    | SetValueField(key: string, value: Value)
    | SetError(error: Option<ErrorTree>)
    | Unsupported

  /** `{ ...v, [key]: x }`: an object spread of a non-object contributes no properties. */
  function SetField(v: Value, key: string, x: Value): (r: Value)
    ensures r.Obj? && r.props.Keys == Props(v).Keys + {key}
    ensures Get(r, key) == x
    ensures forall k | k != key :: Get(r, k) == Get(v, k)
  {
    Obj(Props(v)[key := x])
  }

  /** `{ value: initialFormValue, error: undefined }`. */
  function InitialState(initialValue: Value): (r: State)
    ensures r.value == initialValue && r.error.None?
  {
    State(initialValue, None)
  }

  /**
   * `formReducer(prevState, action)` for the form's schema. The spread
   * `{ ...oldValue, [key]: value }` is a new object, never `===` to the old
   * value, so the differential pass always rebuilds the top node.
   */
  function Reduce(s: Schema, prev: State, action: Action): (r: State)
    requires WellFormed(s)
    ensures !action.SetValueField? ==> r.value == prev.value
    ensures action.SetError? ==> r.error == action.error
    ensures action.Unsupported? ==> r == prev
  {
    match action
    case SetValueField(key, value) =>
      var newValue := SetField(prev.value, key, value);
      State(newValue, Rebuild(prev.value, newValue, prev.error, s))
    case SetError(error) => prev.(error := error)
    case Unsupported => prev
  }

  /**
   * Setting a field replaces exactly that key of the value, and the error
   * becomes the differential accumulation over that edit with the top node
   * rebuilt: the form's own validation always reruns on the new value.
   */
  lemma SetValueFieldUpdates(s: Schema, prev: State, key: string, x: Value)
    requires WellFormed(s)
    ensures var r := Reduce(s, prev, SetValueField(key, x));
      && r.value.Obj?
      && Get(r.value, key) == x
      && (forall k | k != key :: Get(r.value, k) == Get(prev.value, k))
      && r.error == Rebuild(prev.value, r.value, prev.error, s)
      && ((s.ObjectSchema? || s.ArraySchema?) && r.error.Some? ==> r.error.value.internal == Internal(s.validation, r.value))
  {
  }

  /** A one-field object schema without conditions or validation. */
  function PlainSchema(): (s: Schema)
    ensures s.ObjectSchema? && WellFormed(s)
  {
    ObjectSchema(1, v => map["a" := Leaf([])], v => None)
  }

  /**
   * Even an edit that stores the value a field already holds rebuilds the
   * top node, so a server message installed with `SET_ERROR` on the form as
   * a whole is dropped.
   */
  lemma NoOpEditDropsServerError()
    ensures var prev := State(Obj(map["a" := Num(1)]), Some(Node(Some(Text("rejected")), Absent, Absent)));
      && SetField(prev.value, "a", Num(1)) == prev.value
      && Reduce(PlainSchema(), prev, SetValueField("a", Num(1))).error.None?
  {
    var s := PlainSchema();
    var v := Obj(map["a" := Num(1)]);
    var e := Some(Node(Some(Text("rejected")), Absent, Absent));
    assert SetField(v, "a", Num(1)) == v;
    assert s.fields(v) == map["a" := Leaf([])];
    assert !Present(DiffField(v, v, e, s, "a"));
    assert DiffFieldErrors(v, v, e, s) == map[];
  }

  /** `SET_ERROR` replaces the error only; any other action leaves the state as it was. */
  lemma OtherActionsKeepValue(s: Schema, prev: State, error: Option<ErrorTree>)
    requires WellFormed(s)
    ensures Reduce(s, prev, SetError(error)) == State(prev.value, error)
    ensures Reduce(s, prev, Unsupported) == prev
  {
  }

  /** The state's error is the full accumulation of its value. */
  ghost predicate InSync(s: Schema, st: State)
    requires WellFormed(s)
  {
    st.error == Errors(st.value, s)
  }

  /**
   * A field edit keeps the error in sync with the value whenever the edit is
   * one the differential pass handles exactly.
   */
  lemma SetValueFieldKeepsSync(s: Schema, prev: State, key: string, x: Value)
    requires WellFormed(s) && InSync(s, prev)
    requires Agrees(prev.value, SetField(prev.value, key, x), s)
    ensures InSync(s, Reduce(s, prev, SetValueField(key, x)))
  {
    RebuildMatchesFull(prev.value, SetField(prev.value, key, x), s);
  }

  /**
   * A form starts with no error, so it starts in sync only when its initial
   * value is valid; an invalid initial value shows no error until the
   * error is computed, by `validate` on submit.
   */
  lemma InitialStateInSyncIff(s: Schema, v: Value)
    requires WellFormed(s)
    ensures InSync(s, InitialState(v)) <==> Errors(v, s).None?
  {
  }

  /** Installing the error a submit hands to `setError` puts any state in sync. */
  lemma SubmitRestoresSync(s: Schema, st: State)
    requires WellFormed(s)
    ensures InSync(s, Reduce(s, st, SetError(Submit(Validated(s, st.value)).error)))
  {
    SubmitValidated(s, st.value);
  }

  /** What `validate()` returns. */
  datatype ValidateResult = ValidateResult(errored: bool, error: Option<ErrorTree>, value: Value)

  /**
   * `validate()`: the accumulated errors when they are errored, else the
   * accumulated values (`accumulateValues` reads only `nullable`, which the
   * settings passed here do not set, so it is false).
   */
  function Validated(s: Schema, v: Value): (r: ValidateResult)
    requires WellFormed(s)
    ensures r.errored <==> Errors(v, s).Some?
    ensures r.errored ==> r.error == Errors(v, s) && r.value == Undef
    ensures !r.errored ==> r.error.None? && r.value == Values(v, s, false)
  {
    ErroredIffDefined(v, s);
    var stateErrors := Errors(v, s);
    if AnalyzeErrors(stateErrors) then ValidateResult(true, stateErrors, Undef)
    else ValidateResult(false, None, Values(v, s, false))
  }

  /** What one submit does: the error handed to `setError`, and the value handed to the callback, if it is called. */
  datatype Submission = Submission(error: Option<ErrorTree>, submitted: Option<Value>)

  /** The handler `createSubmitHandler(validator, setError, callback)` returns, given what the validator returned. */
  function Submit(result: ValidateResult): (r: Submission)
    ensures r.error == result.error
    ensures r.submitted.Some? <==> !result.errored && IsDefined(result.value)
    ensures r.submitted.Some? ==> r.submitted.value == result.value
  {
    Submission(result.error, if !result.errored && IsDefined(result.value) then Some(result.value) else None)
  }

  /**
   * Submitting a form: `setError` always receives the full error (so a valid
   * form clears its errors), and the callback receives the accumulated
   * values exactly when there is no error and they are defined.
   */
  lemma SubmitValidated(s: Schema, v: Value)
    requires WellFormed(s)
    ensures Submit(Validated(s, v)).error == Errors(v, s)
    ensures Submit(Validated(s, v)).submitted.Some? <==> Errors(v, s).None? && IsDefined(Values(v, s, false))
    ensures Submit(Validated(s, v)).submitted.Some? ==> Submit(Validated(s, v)).submitted.value == Values(v, s, false)
  {
  }

  /**
   * A valid object form none of whose fields produces a value is not
   * submitted: its accumulated value is undefined.
   */
  lemma EmptyValidObjectNotSubmitted(s: Schema, v: Value)
    requires s.ObjectSchema? && WellFormed(s) && Errors(v, s).None?
    requires forall k | k in s.fields(v) :: Values(Get(v, k), s.fields(v)[k], false) == Undef
    ensures Submit(Validated(s, v)) == Submission(None, None)
  {
    ObjectValues(v, s, false);
  }

  /** `useForm(initialFormValue, schema)`: the reducer's state, with the callbacks the hook returns. */
  class Form {
    const schema: Schema
    var state: State

    constructor(initialValue: Value, schema: Schema)
      requires WellFormed(schema)
      ensures this.schema == schema && state == InitialState(initialValue)
    {
      this.schema := schema;
      state := InitialState(initialValue);
    }

    /** `dispatch(action)`: the reducer applied to the current state. */
    method Dispatch(action: Action)
      requires WellFormed(schema)
      modifies this
      ensures state == Reduce(schema, old(state), action)
    {
      match action {
        case SetValueField(key, value) =>
          var oldValue, oldError := state.value, state.error;
          var newValue := SetField(oldValue, key, value);
          var newError := RebuildErrors(oldValue, newValue, oldError, schema);
          state := state.(value := newValue, error := newError);
        case SetError(error) =>
          state := state.(error := error);
        case Unsupported =>
      }
    }

    /** `onValueChange(value, key)`. */
    method OnValueChange(value: Value, key: string)
      requires WellFormed(schema)
      modifies this
      ensures state == Reduce(schema, old(state), SetValueField(key, value))
      ensures old(InSync(schema, state)) && Agrees(old(state.value), SetField(old(state.value), key, value), schema) ==>
        InSync(schema, state)
    {
      ghost var prev := state;
      Dispatch(SetValueField(key, value));
      if InSync(schema, prev) && Agrees(prev.value, SetField(prev.value, key, value), schema) {
        SetValueFieldKeepsSync(schema, prev, key, value);
      }
    }

    /** `onErrorSet(errors)`. */
    method OnErrorSet(errors: Option<ErrorTree>)
      requires WellFormed(schema)
      modifies this
      ensures state == old(state).(error := errors)
    {
      Dispatch(SetError(errors));
    }

    /** `validate()` on the current state. */
    method Validate() returns (r: ValidateResult)
      requires WellFormed(schema)
      ensures r == Validated(schema, state.value)
    {
      var stateErrors := AccumulateErrors(state.value, schema);
      var stateErrored := AnalyzeErrors(stateErrors);
      if stateErrored {
        r := ValidateResult(true, stateErrors, Undef);
      } else {
        var validatedValues := AccumulateValues(state.value, schema, false);
        r := ValidateResult(false, None, validatedValues);
      }
    }

    /**
     * The submit handler for this form: validates, installs the error
     * (clearing it on success), and returns what the callback receives.
     */
    method HandleSubmit() returns (submitted: Option<Value>)
      requires WellFormed(schema)
      modifies this
      ensures state == old(state).(error := Errors(old(state.value), schema))
      ensures InSync(schema, state)
      ensures submitted == Submit(Validated(schema, old(state.value))).submitted
    {
      var result := Validate();
      OnErrorSet(result.error);
      submitted := if !result.errored && IsDefined(result.value) then Some(result.value) else None;
    }
  }

  // ---------------------------------------------------------------------
  // Nested parts of a form
  // ---------------------------------------------------------------------

  /** `useFormObject(name, value, onChange)`: the cell holds the latest value of the nested object. */
  class FormObject {
    const name: string
    var current: Value

    constructor(name: string, value: Value)
      ensures this.name == name && current == value
    {
      this.name := name;
      current := value;
    }

    /** The layout effect: the cell follows the value passed in. */
    method Sync(value: Value)
      modifies this
      ensures current == value
    {
      current := value;
    }

    /** `onValueChange(value, key)`: calls `onChange` with the cell's object with `key` replaced, under the object's name. */
    method OnValueChange(value: Value, key: string) returns (newValue: Value, inputName: string)
      ensures inputName == name
      ensures Get(newValue, key) == value
      ensures forall k | k != key :: Get(newValue, k) == Get(current, k)
      ensures newValue == SetField(current, key, value)
    {
      newValue := SetField(current, key, value);
      inputName := name;
    }
  }

  /**
   * `newValue[index] = val` on a copy of a list: inside the list it
   * replaces that element; past the end it extends the list, the gap
   * reading as undefined; a negative index names no element.
   */
  function SetIndex(xs: seq<Value>, index: int, val: Value): (r: seq<Value>)
  {
    if index < 0 then xs
    else if index < |xs| then xs[index := val]
    else xs + seq(index - |xs|, _ => Undef) + [val]
  }

  /** Where `splice(index, 1)` starts: a negative index counts from the end, and both ends clamp. */
  function SpliceStart(index: int, length: nat): (start: nat)
    ensures start <= length
  {
    if index < 0 then (if length + index < 0 then 0 else length + index)
    else if index < length then index else length
  }

  /** `newValue.splice(index, 1)` on a copy of a list. */
  function Splice(xs: seq<Value>, index: int): (r: seq<Value>)
  {
    var start := SpliceStart(index, |xs|);
    if start < |xs| then xs[..start] + xs[start + 1..] else xs
  }

  /**
   * Setting an element: inside the list only that element changes and the
   * length is kept; past the end the list grows to `index + 1` with its old
   * elements first; a negative index changes nothing.
   */
  lemma SetIndexChangesOneElement(xs: seq<Value>, index: int, val: Value)
    ensures 0 <= index < |xs| ==>
      && |SetIndex(xs, index, val)| == |xs|
      && SetIndex(xs, index, val)[index] == val
      && forall j | 0 <= j < |xs| && j != index :: SetIndex(xs, index, val)[j] == xs[j]
    ensures index >= |xs| ==>
      && |SetIndex(xs, index, val)| == index + 1
      && SetIndex(xs, index, val)[..|xs|] == xs
      && SetIndex(xs, index, val)[index] == val
      && forall j | |xs| <= j < index :: SetIndex(xs, index, val)[j] == Undef
    ensures index < 0 ==> SetIndex(xs, index, val) == xs
  {
  }

  /**
   * Removing an element: an index inside the list removes exactly that
   * element, keeping the prefix and shifting the suffix down by one.
   */
  lemma SpliceRemovesOne(xs: seq<Value>, index: int)
    requires 0 <= index < |xs|
    ensures |Splice(xs, index)| == |xs| - 1
    ensures Splice(xs, index)[..index] == xs[..index]
    ensures forall j | index <= j < |xs| - 1 :: Splice(xs, index)[j] == xs[j + 1]
  {
  }

  /** A negative index `-i` with `i <= |xs|` removes the element `i` places from the end; an index past the end removes nothing. */
  lemma SpliceFromEnd(xs: seq<Value>, index: int)
    ensures -|xs| <= index < 0 ==> Splice(xs, index) == Splice(xs, |xs| + index)
    ensures index >= |xs| ==> Splice(xs, index) == xs
    ensures index < -|xs| && xs != [] ==> Splice(xs, index) == xs[1..]
  {
  }

  /** Setting an element inside the list and then removing it leaves the list as removing it would. */
  lemma SetThenRemove(xs: seq<Value>, index: int, val: Value)
    requires 0 <= index < |xs|
    ensures Splice(SetIndex(xs, index, val), index) == Splice(xs, index)
  {
    assert SetIndex(xs, index, val)[..index] == xs[..index];
    assert SetIndex(xs, index, val)[index + 1..] == xs[index + 1..];
  }

  /** `useFormArray(name, value, onChange)`: the cell holds the latest value of the nested list. */
  class FormArray {
    const name: string
    var current: seq<Value>

    constructor(name: string, value: seq<Value>)
      ensures this.name == name && current == value
    {
      this.name := name;
      current := value;
    }

    /** The layout effect: the cell follows the value passed in. */
    method Sync(value: seq<Value>)
      modifies this
      ensures current == value
    {
      current := value;
    }

    /** `onValueChange(val, index)`: a copy of the cell with the element set, forwarded under the list's name. */
    method OnValueChange(val: Value, index: int) returns (newValue: seq<Value>, inputName: string)
      ensures inputName == name
      ensures newValue == SetIndex(current, index, val)
    {
      newValue := current;
      if 0 <= index < |newValue| {
        newValue := newValue[index := val];
      } else if index >= |newValue| {
        newValue := newValue + seq(index - |newValue|, _ => Undef) + [val];
      }
      inputName := name;
    }

    /** `onValueRemove(index)`: a copy of the cell with one element spliced out, forwarded under the list's name. */
    method OnValueRemove(index: int) returns (newValue: seq<Value>, inputName: string)
      ensures inputName == name
      ensures newValue == Splice(current, index)
    {
      newValue := current;
      var start := SpliceStart(index, |newValue|);
      if start < |newValue| {
        newValue := newValue[..start] + newValue[start + 1..];
      }
      inputName := name;
    }
  }
}
