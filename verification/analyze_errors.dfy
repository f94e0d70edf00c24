/**
 * `analyzeErrors` of src/utils/schema.js: whether an error tree blocks
 * submission. It takes any error tree, including ones installed from a
 * server response, so it cannot assume the shape the accumulators produce.
 */
module ErrorAnalysis {
  import opened JsValue
  import opened Validation
  import opened Schemas
  import opened ErrorAccumulation

  /**
   * A message is errored when non-empty; a node when its `$internal` is
   * truthy, or else by its `fields` (checked first, even when empty) or else
   * its `members`: errored when some child is.
   */
  predicate IsErrored(t: ErrorTree)
  {
    match t
    case Msg(m) => m.Truthy()
    case Node(internal, fields, members) =>
      if internal.Some? && internal.value.Truthy() then true
      else if fields.Entries? then
        fields.entries != map[] && exists k | k in fields.entries :: IsErrored(fields.entries[k])
      else if members.Entries? then
        members.entries != map[] && exists k | k in members.entries :: IsErrored(members.entries[k])
      else false
  }

  /** `analyzeErrors(errors)`: an absent error is not errored. */
  predicate AnalyzeErrors(e: Option<ErrorTree>)
  {
    e.Some? && IsErrored(e.value)
  }

  /** Every tree of the accumulators' shape is errored. */
  lemma {:induction false} CanonicalIsErrored(t: ErrorTree)
    requires Canonical(t)
    ensures IsErrored(t)
  {
    match t
    case Msg(_) =>
    case Node(internal, fields, members) =>
      if !(internal.Some? && internal.value.Truthy()) {
        if fields.Entries? {
          var k :| k in fields.entries;
          CanonicalIsErrored(fields.entries[k]);
        } else {
          var k :| k in members.entries;
          CanonicalIsErrored(members.entries[k]);
        }
      }
  }

  /** The result of full accumulation blocks submission exactly when it is defined. */
  lemma ErroredIffDefined(v: Value, s: Schema)
    requires WellFormed(s)
    ensures AnalyzeErrors(Errors(v, s)) <==> Errors(v, s).Some?
  {
    var e := Errors(v, s);
    if e.Some? {
      CanonicalIsErrored(e.value);
    }
  }

  /**
   * `fields` is looked at before `members`, and an empty `fields: {}` without
   * `$internal` is not errored even when `members` holds errors.
   */
  lemma EmptyFieldsShadowMembers(members: map<Key, ErrorTree>)
    ensures !IsErrored(Node(None, Entries(map[]), Entries(members)))
    ensures !IsErrored(Node(None, Absent, Entries(map[])))
    ensures !IsErrored(Node(Some(Text("")), Absent, Absent))
  {
  }
}
