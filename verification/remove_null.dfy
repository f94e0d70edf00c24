/**
 * `removeNull` of src/utils/schema.js: prunes null and undefined from a
 * value at every depth. Null and undefined become undefined, lists are
 * mapped and then filtered to their defined elements, objects keep the
 * properties whose pruned value is defined, and every other value is
 * returned unchanged.
 *
 * `Pruned` specifies it; the method `RemoveNull` computes it the way the
 * source does: lists through `map` (a loop recursing on each element) and
 * `filter`, objects through a `forEach` that reassigns `newData`.
 */
module NullRemoval {
  import opened JsValue

  /** `filter(isDefined)`: the defined elements, in order. */
  function DefinedOnly(xs: seq<Value>): (r: seq<Value>)
    ensures |r| <= |xs|
    ensures forall i | 0 <= i < |r| :: IsDefined(r[i])
    ensures forall x :: x in r <==> x in xs && IsDefined(x)
  {
    if xs == [] then []
    else
      assert forall x :: x in xs <==> x == xs[0] || x in xs[1..];
      (if IsDefined(xs[0]) then [xs[0]] else []) + DefinedOnly(xs[1..])
  }

  /** `removeNull(data)`. */
  function Pruned(v: Value): (r: Value)
    ensures r.List? ==> v.List? && |r.items| <= |v.items|
    decreases v
  {
    match v
    case Undef => Undef
    case Null => Undef
    case List(xs) => List(DefinedOnly(seq(|xs|, i requires 0 <= i < |xs| => Pruned(xs[i]))))
    case Obj(props) => Obj(map k | k in props && IsDefined(Pruned(props[k])) :: Pruned(props[k]))
    case _ => v
  }

  /** No null or undefined anywhere below the top: what `removeNull` produces. */
  predicate Clean(v: Value)
    decreases v
  {
    match v
    case Null => false
    case List(xs) => forall i | 0 <= i < |xs| :: IsDefined(xs[i]) && Clean(xs[i])
    case Obj(props) => forall k | k in props :: IsDefined(props[k]) && Clean(props[k])
    case _ => true
  }

  /** Only null and undefined prune to undefined; nothing prunes to null. */
  lemma PrunedUndefinedIff(v: Value)
    ensures Pruned(v) != Null
    ensures Pruned(v) == Undef <==> !IsDefined(v)
  {
  }

  /** Booleans, numbers and strings are returned unchanged. */
  lemma PrimitivesUnchanged(v: Value)
    requires v.Bool? || v.Num? || v.Str?
    ensures Pruned(v) == v
  {
  }

  /** The result contains no null or undefined at any depth. */
  lemma {:induction false} PrunedIsClean(v: Value)
    ensures Clean(Pruned(v))
    decreases v
  {
    match v
    case List(xs) =>
      var mapped := seq(|xs|, i requires 0 <= i < |xs| => Pruned(xs[i]));
      forall i | 0 <= i < |xs| ensures Clean(mapped[i]) {
        PrunedIsClean(xs[i]);
      }
      var r := DefinedOnly(mapped);
      forall i | 0 <= i < |r| ensures Clean(r[i]) {
        assert r[i] in mapped;
      }
    case Obj(props) =>
      forall k | k in props ensures Clean(Pruned(props[k])) {
        PrunedIsClean(props[k]);
      }
    case _ =>
  }

  /** A clean value is left as it is. */
  lemma {:induction false} CleanIsFixed(v: Value)
    requires Clean(v)
    ensures Pruned(v) == v
    decreases v
  {
    match v
    case List(xs) =>
      var mapped := seq(|xs|, i requires 0 <= i < |xs| => Pruned(xs[i]));
      forall i | 0 <= i < |xs| ensures mapped[i] == xs[i] {
        CleanIsFixed(xs[i]);
      }
      assert mapped == xs;
      AllDefinedKept(xs);
    case Obj(props) =>
      forall k | k in props ensures Pruned(props[k]) == props[k] {
        CleanIsFixed(props[k]);
      }
      assert Pruned(v).props == props;
    case _ =>
  }

  lemma {:induction false} AllDefinedKept(xs: seq<Value>)
    requires forall i | 0 <= i < |xs| :: IsDefined(xs[i])
    ensures DefinedOnly(xs) == xs
  {
    if xs != [] {
      AllDefinedKept(xs[1..]);
    }
  }

  /** Pruning twice is pruning once. */
  lemma PruneIdempotent(v: Value)
    ensures Pruned(Pruned(v)) == Pruned(v)
  {
    PrunedIsClean(v);
    CleanIsFixed(Pruned(v));
  }

  // ---------------------------------------------------------------------
  // The source's loop
  // ---------------------------------------------------------------------

  /** `removeNull(data)`. */
  method RemoveNull(v: Value) returns (r: Value)
    ensures r == Pruned(v)
    decreases v
  {
    match v {
      case Undef =>
        r := Undef;
      case Null =>
        r := Undef;
      case List(xs) =>
        var mapped := PruneItems(xs, v);
        r := List(DefinedOnly(mapped));
      case Obj(props) =>
        var newData := PruneProps(props, v);
        r := Obj(newData);
      case _ =>
        r := v;
    }
  }

  /** `data.map(removeNull)`: each element pruned, in order. */
  method PruneItems(xs: seq<Value>, ghost v: Value) returns (mapped: seq<Value>)
    requires v == List(xs)
    ensures mapped == seq(|xs|, i requires 0 <= i < |xs| => Pruned(xs[i]))
    decreases v, 0
  {
    mapped := [];
    for i := 0 to |xs|
      invariant |mapped| == i
      invariant forall j | 0 <= j < i :: mapped[j] == Pruned(xs[j])
    {
      var element := RemoveNull(xs[i]);
      mapped := mapped + [element];
    }
  }

  /** The `forEach` over the keys that rebuilds `newData` with each defined pruned entry. */
  method PruneProps(props: map<string, Value>, ghost v: Value) returns (newData: map<string, Value>)
    requires v == Obj(props)
    ensures newData == Pruned(v).props
    decreases v, 0
  {
    newData := map[];
    var remaining := props.Keys;
    while remaining != {}
      invariant remaining <= props.Keys
      invariant forall k :: k in newData <==> k in props && k !in remaining && IsDefined(Pruned(props[k]))
      invariant forall k | k in newData :: newData[k] == Pruned(props[k])
      decreases remaining
    {
      var key :| key in remaining;
      var newEntry := RemoveNull(props[key]);
      if IsDefined(newEntry) {
        newData := newData[key := newEntry];
      }
      remaining := remaining - {key};
    }
    assert newData == Pruned(v).props;
  }
}
