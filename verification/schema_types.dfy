/**
 * Schemas and error trees (the types of src/utils/schema.js).
 *
 * A schema is a leaf (a list of conditions), an object schema (a `fields`
 * function from the current object to its field schemas, so that the set of
 * fields can depend on sibling values) or an array schema (a `member`
 * function giving each element its schema, and a `keySelector` giving each
 * element its identity). Anything else is an invalid schema.
 *
 * Sub-schemas are produced by calling functions, so they are not structural
 * parts of their parent. Each object and array schema therefore carries a
 * `depth`, and `WellFormed` demands that every schema it produces is
 * well-formed with a smaller depth; recursion over schemas decreases it.
 * An absent `validation` is a validation that never reports.
 */
module Schemas {
  import opened JsValue
  import opened Validation

  type Key = string

  datatype Schema =
    | Leaf(conditions: seq<Condition>)
    | ObjectSchema(depth: nat, fields: Value -> map<string, Schema>, validation: Value -> Option<Message>)
    | ArraySchema(depth: nat, member: Value -> Schema, keySelector: Value -> Key, validation: Value -> Option<Message>)
    | Invalid

  function Depth(s: Schema): nat
  {
    match s
    case ObjectSchema(d, _, _) => d
    case ArraySchema(d, _, _, _) => d
    case _ => 0
  }

  ghost predicate WellFormed(s: Schema)
    decreases Depth(s)
  {
    match s
    case ObjectSchema(d, fields, _) =>
      forall v, k | k in fields(v) :: Depth(fields(v)[k]) < d && WellFormed(fields(v)[k])
    case ArraySchema(d, member, _, _) =>
      forall v :: Depth(member(v)) < d && WellFormed(member(v))
    case _ => true
  }

  /**
   * An error tree: a message at a leaf position, or a node holding an
   * optional `$internal` message and the error subtrees of the fields (object
   * position) or of the members keyed by `keySelector` (array position).
   * An absent error (`undefined`) is `None` of `Option<ErrorTree>`.
   */
  datatype ErrorTree =
    | Msg(message: Message)
    | Node(internal: Option<Message>, fields: Children, members: Children)

  /** An absent `fields`/`members` property, or the map it holds (possibly `{}`). */
  datatype Children = Absent | Entries(entries: map<string, ErrorTree>)

  /** JavaScript truthiness of an error subtree: a node (an object) is always truthy. */
  predicate Truthy(t: ErrorTree)
  {
    t.Msg? ==> t.message.Truthy()
  }

  /** `if (fieldError)`: a subtree that is defined and truthy. */
  predicate Present(e: Option<ErrorTree>)
  {
    e.Some? && Truthy(e.value)
  }

  /**
   * The shape the accumulators produce: messages are truthy, maps are only
   * there when non-empty, and a node holds `$internal` or a map.
   */
  ghost predicate Canonical(t: ErrorTree)
  {
    match t
    case Msg(m) => m.Truthy()
    case Node(internal, fields, members) =>
      && (internal.Some? ==> internal.value.Truthy())
      && (fields.Entries? ==> fields.entries != map[] && forall k | k in fields.entries :: Canonical(fields.entries[k]))
      && (members.Entries? ==> members.entries != map[] && forall k | k in members.entries :: Canonical(members.entries[k]))
      && (internal.Some? || fields.Entries? || members.Entries?)
  }

  /** Every subtree of a `fields` or `members` map has the accumulators' shape. */
  ghost predicate AllCanonical(m: map<string, ErrorTree>)
  {
    forall k | k in m :: Canonical(m[k])
  }

  /** An absent error, or one of the accumulators' shape. */
  ghost predicate CanonicalOrAbsent(e: Option<ErrorTree>)
  {
    e.Some? ==> Canonical(e.value)
  }

  /** `errors.$internal` after `if (validationErrors) errors.$internal = validationErrors`. */
  function Internal(validation: Value -> Option<Message>, v: Value): (r: Option<Message>)
    ensures r.Some? ==> r.value.Truthy() && r == validation(v)
    ensures validation(v).Some? && validation(v).value.Truthy() ==> r == validation(v)
  {
    var m := validation(v);
    if m.Some? && m.value.Truthy() then m else None
  }

  /** `hasNoKeys(errors.fields) && !errors.$internal ? undefined : errors`, with the map only created when non-empty. */
  function Assemble(internal: Option<Message>, fields: map<string, ErrorTree>, members: map<Key, ErrorTree>): (r: Option<ErrorTree>)
    ensures r.None? <==> internal.None? && fields == map[] && members == map[]
  {
    if internal.None? && fields == map[] && members == map[] then None
    else Some(Node(internal, if fields == map[] then Absent else Entries(fields), if members == map[] then Absent else Entries(members)))
  }

  /** Assembling truthy parts gives a tree of the accumulators' shape. */
  lemma AssembleCanonical(internal: Option<Message>, fields: map<string, ErrorTree>, members: map<Key, ErrorTree>)
    requires internal.Some? ==> internal.value.Truthy()
    requires AllCanonical(fields) && AllCanonical(members)
    ensures CanonicalOrAbsent(Assemble(internal, fields, members))
  {
  }

  /** `oldError?.fields?.[fieldName]`. */
  function ChildField(e: Option<ErrorTree>, k: string): Option<ErrorTree>
  {
    if e.Some? && e.value.Node? && e.value.fields.Entries? && k in e.value.fields.entries
    then Some(e.value.fields.entries[k]) else None
  }

  /** `oldError?.members?.[index]`. */
  function ChildMember(e: Option<ErrorTree>, k: Key): Option<ErrorTree>
  {
    if e.Some? && e.value.Node? && e.value.members.Entries? && k in e.value.members.entries
    then Some(e.value.members.entries[k]) else None
  }

  /** No two elements share a key (duplicate keys overwrite each other in the member maps). */
  ghost predicate UniqueKeys(xs: seq<Value>, keySelector: Value -> Key)
  {
    forall i, j | 0 <= i < j < |xs| :: keySelector(xs[i]) != keySelector(xs[j])
  }

  /** Whether the `clearCondition`, `idCondition` and `arrayCondition` markers occur in a leaf (`schema.includes(...)`). */
  predicate HasClear(conditions: seq<Condition>)
  {
    exists i | 0 <= i < |conditions| :: conditions[i].Clear?
  }

  predicate HasId(conditions: seq<Condition>)
  {
    exists i | 0 <= i < |conditions| :: conditions[i].Id?
  }

  predicate HasArray(conditions: seq<Condition>)
  {
    exists i | 0 <= i < |conditions| :: conditions[i].ArrayDefault?
  }
}
