/**
 * The schema of the event form (src/components/forms/EventForm/index.tsx):
 * an object schema whose field map depends on the `eventType` of the form
 * value. Every branch has the same fifteen fields; the discriminant only
 * decides which sub-type fields are lifted from `[clearCondition]` to `[]`.
 */
module EventForm {
  import opened JsValue
  import opened Validation
  import opened Schemas
  import opened ErrorAccumulation
  import opened ValueAccumulation
  import opened DifferentialErrors
  import opened Forms

  const FieldNames: set<string> := {
    "id", "countries", "startDate", "endDate", "eventType", "glideNumber", "name", "crisis", "eventNarrative",
    "disasterSubType", "violenceSubType", "actor", "trigger", "triggerSubType", "otherSubType"
  }

  /** The sub-type fields, cleared unless the event type lifts them. */
  const SubTypeFields: set<string> := {
    "disasterSubType", "violenceSubType", "actor", "trigger", "triggerSubType", "otherSubType"
  }

  /**
   * The conditions of field `k` for the given event type: `basicFields`,
   * overridden by the branch of the event type.
   */
  function FieldConditions(k: string, eventType: Value): seq<Condition>
  {
    if k in SubTypeFields then (if k in Lifted(eventType) then [] else [Clear])
    else if k == "id" then [Id]
    else if k == "countries" then [Required]
    else if k == "eventType" || k == "name" then [RequiredString]
    else []
  }

  /** `schema.fields(value)`. */
  function EventFields(value: Value): map<string, Schema>
  {
    map k | k in FieldNames :: Leaf(FieldConditions(k, Get(value, "eventType")))
  }

  /** The sub-type fields the event type lifts. */
  function Lifted(eventType: Value): (r: set<string>)
    ensures r <= SubTypeFields
  {
    if eventType == Str("CONFLICT") then {"violenceSubType", "actor", "trigger", "triggerSubType"}
    else if eventType == Str("DISASTER") then {"disasterSubType"}
    else if eventType == Str("OTHER") then {"otherSubType"}
    else {}
  }

  /** The form's schema: no whole-object validation. */
  function EventSchema(): (s: Schema)
    ensures s.ObjectSchema? && WellFormed(s)
  {
    ObjectSchema(1, EventFields, v => None)
  }

  /** Every branch has the same fifteen fields. */
  lemma SameFieldsInEveryBranch(value: Value)
    ensures EventFields(value).Keys == FieldNames
  {
  }

  /**
   * The fixed fields: `id` is an id, `countries` is required, `eventType` and
   * `name` are required non-blank strings, and the rest carry no condition.
   */
  lemma FixedFields(value: Value)
    ensures var F := EventFields(value);
      && F["id"] == Leaf([Id])
      && F["countries"] == Leaf([Required])
      && F["eventType"] == Leaf([RequiredString]) && F["name"] == Leaf([RequiredString])
      && F["startDate"] == F["endDate"] == F["glideNumber"] == F["crisis"] == F["eventNarrative"] == Leaf([])
  {
  }

  /** A sub-type field carries no condition when the event type lifts it, and `[clearCondition]` otherwise. */
  lemma SubTypeFieldsByEventType(value: Value, k: string)
    requires k in SubTypeFields
    ensures EventFields(value)[k] == if k in Lifted(Get(value, "eventType")) then Leaf([]) else Leaf([Clear])
  {
  }

  /** Which fields each event type lifts: conflict four, disaster and other one each, anything else none. */
  lemma LiftedByEventType(eventType: Value)
    ensures eventType == Str("CONFLICT") ==>
      Lifted(eventType) == {"violenceSubType", "actor", "trigger", "triggerSubType"}
      && "disasterSubType" !in Lifted(eventType) && "otherSubType" !in Lifted(eventType)
    ensures eventType == Str("DISASTER") ==> Lifted(eventType) == {"disasterSubType"}
    ensures eventType == Str("OTHER") ==> Lifted(eventType) == {"otherSubType"}
    ensures eventType !in {Str("CONFLICT"), Str("DISASTER"), Str("OTHER")} ==> Lifted(eventType) == {}
  {
  }

  // ---------------------------------------------------------------------
  // The discriminant never changes the errors
  // ---------------------------------------------------------------------

  /** A field's conditions report the same for every event type: only `[]` and `[clearCondition]` vary, and neither reports. */
  lemma FieldErrorsIgnoreEventType(u: Value, w: Value, k: string, x: Value)
    requires k in FieldNames
    ensures k in EventFields(u) && k in EventFields(w)
    ensures Errors(x, EventFields(u)[k]) == Errors(x, EventFields(w)[k])
    ensures k in SubTypeFields ==> Errors(x, EventFields(u)[k]).None?
  {
    SameFieldsInEveryBranch(u);
    SameFieldsInEveryBranch(w);
    if k in SubTypeFields {
      SubTypeFieldsByEventType(u, k);
      SubTypeFieldsByEventType(w, k);
      assert FirstError([Clear], x) == FirstErrorFrom([Clear], x, 1);
    } else {
      assert FieldConditions(k, Get(u, "eventType")) == FieldConditions(k, Get(w, "eventType"));
    }
  }

  /** Every edit of an event form is one the differential pass handles exactly. */
  lemma EveryEditAgrees(o: Value, n: Value)
    ensures Agrees(o, n, EventSchema())
  {
    var s := EventSchema();
    if o != n {
      SameFieldsInEveryBranch(o);
      SameFieldsInEveryBranch(n);
      forall k | k in s.fields(n) ensures Errors(Get(o, k), s.fields(o)[k]) == Errors(Get(o, k), s.fields(n)[k]) {
        FieldErrorsIgnoreEventType(o, n, k, Get(o, k));
      }
    }
  }

  /** So on the event form, differential accumulation always equals full accumulation. */
  lemma DifferentialIsExact(o: Value, n: Value)
    ensures Diff(o, n, Errors(o, EventSchema()), EventSchema()) == Errors(n, EventSchema())
  {
    EveryEditAgrees(o, n);
    DifferentialMatchesFull(o, n, EventSchema());
  }

  /** And every field edit keeps the event form's error in sync with its value. */
  lemma EditsStayInSync(prev: State, key: string, x: Value)
    requires InSync(EventSchema(), prev)
    ensures InSync(EventSchema(), Reduce(EventSchema(), prev, SetValueField(key, x)))
  {
    EveryEditAgrees(prev.value, SetField(prev.value, key, x));
    SetValueFieldKeepsSync(EventSchema(), prev, key, x);
  }

  /** A form value holding only its crisis has the required `name` missing. */
  lemma OnlyCrisisIsInvalid(c: Value)
    ensures Errors(Obj(map["crisis" := c]), EventSchema()).Some?
  {
    var s, v := EventSchema(), Obj(map["crisis" := c]);
    SameFieldsInEveryBranch(v);
    FixedFields(v);
    assert Get(v, "name") == Undef;
    assert Check(RequiredString, Undef) == Some(FieldRequired);
    assert Errors(Get(v, "name"), s.fields(v)["name"]).Some?;
    ObjectValidIff(v, s);
  }

  /**
   * The event form opens with only its crisis set (index.tsx:315) and no
   * error, so it is not in sync; editing the crisis rebuilds the top node
   * but copies the old (absent) errors of the untouched required fields,
   * and the form still shows no error while full accumulation reports one.
   */
  lemma FreshFormHidesRequiredErrors(c: Value, c2: Value)
    requires c != c2
    ensures var v := Obj(map["crisis" := c]);
      && !InSync(EventSchema(), InitialState(v))
      && Reduce(EventSchema(), InitialState(v), SetValueField("crisis", c2)).error.None?
      && Errors(SetField(v, "crisis", c2), EventSchema()).Some?
  {
    var s, v := EventSchema(), Obj(map["crisis" := c]);
    var n := SetField(v, "crisis", c2);
    assert n == Obj(map["crisis" := c2]);
    OnlyCrisisIsInvalid(c);
    OnlyCrisisIsInvalid(c2);
    SameFieldsInEveryBranch(n);
    FixedFields(n);
    forall k | k in s.fields(n) ensures !Present(DiffField(v, n, None, s, k)) {
      if k == "crisis" {
        assert Rebuild(c, c2, None, Leaf([])).None?;
      } else {
        assert Get(v, k) == Get(n, k);
      }
    }
    DiffObjectValid(v, n, None, s);
  }

  // ---------------------------------------------------------------------
  // The discriminant changes the payload
  // ---------------------------------------------------------------------

  /** A sub-type field the event type does not lift is submitted as null, whatever it holds. */
  lemma InactiveSubTypeSubmittedAsNull(value: Value, k: string)
    requires k in SubTypeFields && k !in Lifted(Get(value, "eventType"))
    ensures Get(Values(value, EventSchema(), false), k) == Null
  {
    var s := EventSchema();
    SubTypeFieldsByEventType(value, k);
    assert HasClear([Clear]) by {
      assert [Clear][0].Clear?;
    }
    assert Values(Get(value, k), s.fields(value)[k], false) == Null;
    ObjectValues(value, s, false);
  }

  /** A lifted sub-type field is submitted as it is held, when it is defined. */
  lemma ActiveSubTypeSubmittedAsHeld(value: Value, k: string)
    requires k in Lifted(Get(value, "eventType")) && IsDefined(Get(value, k))
    ensures Get(Values(value, EventSchema(), false), k) == Get(value, k)
  {
    var s := EventSchema();
    SubTypeFieldsByEventType(value, k);
    assert Values(Get(value, k), s.fields(value)[k], false) == Get(value, k);
    ObjectValues(value, s, false);
  }
}
