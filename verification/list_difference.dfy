/**
 * `findDifferenceInList(oldList, newList, keySelector)` of `@togglecorp/fujs`,
 * as the differential accumulator uses it. The library is not part of this
 * model; this module fixes the reading the model relies on: elements of the
 * new list are classified by looking their key up in the old list (the last
 * old element with that key, as `listToMap` keeps). An element whose key is
 * found with an equal value is unmodified, one found with a different value
 * is modified (paired with the old element), and one whose key is not found
 * is added. The differential accumulator consumes only `unmodified` and
 * `modified`.
 */
module ListDifference {
  import opened JsValue
  import opened Schemas

  datatype Modification = Modification(previous: Value, current: Value)

  /** The old element a key identifies: the last one with that key. */
  function FindByKey(xs: seq<Value>, keySelector: Value -> Key, k: Key): (r: Option<Value>)
    ensures r.Some? ==> r.value in xs && keySelector(r.value) == k
    ensures r.None? <==> forall i | 0 <= i < |xs| :: keySelector(xs[i]) != k
  {
    if xs == [] then None
    else if keySelector(xs[|xs| - 1]) == k then Some(xs[|xs| - 1])
    else
      assert forall i | 0 <= i < |xs| - 1 :: xs[..|xs| - 1][i] == xs[i];
      FindByKey(xs[..|xs| - 1], keySelector, k)
  }

  /** With unique keys, the element a key identifies is the one element carrying it. */
  lemma FindByKeyUnique(xs: seq<Value>, keySelector: Value -> Key, x: Value)
    requires UniqueKeys(xs, keySelector) && x in xs
    ensures FindByKey(xs, keySelector, keySelector(x)) == Some(x)
  {
    var y := FindByKey(xs, keySelector, keySelector(x)).value;
    var i :| 0 <= i < |xs| && xs[i] == x;
    var j :| 0 <= j < |xs| && xs[j] == y;
    assert !(i < j) && !(j < i);
  }

  /** `unmodified`: the new elements found in the old list with an equal value, in new-list order. */
  function Unmodified(olds: seq<Value>, news: seq<Value>, keySelector: Value -> Key): (r: seq<Value>)
    ensures forall x :: x in r <==> x in news && FindByKey(olds, keySelector, keySelector(x)) == Some(x)
  {
    if news == [] then []
    else
      var rest := Unmodified(olds, news[1..], keySelector);
      assert forall x :: x in news <==> x == news[0] || x in news[1..];
      if FindByKey(olds, keySelector, keySelector(news[0])) == Some(news[0]) then [news[0]] + rest else rest
  }

  /** `modified`: the new elements found in the old list with a different value, paired with the old one. */
  function Modified(olds: seq<Value>, news: seq<Value>, keySelector: Value -> Key): (r: seq<Modification>)
    ensures forall m :: m in r <==>
      && m.current in news
      && FindByKey(olds, keySelector, keySelector(m.current)) == Some(m.previous)
      && m.previous != m.current
  {
    if news == [] then []
    else
      var rest := Modified(olds, news[1..], keySelector);
      assert forall x :: x in news <==> x == news[0] || x in news[1..];
      var found := FindByKey(olds, keySelector, keySelector(news[0]));
      if found.Some? && found.value != news[0] then [Modification(found.value, news[0])] + rest else rest
  }

  /** `added`: the new elements whose key the old list does not have (not consumed by the accumulator). */
  function Added(olds: seq<Value>, news: seq<Value>, keySelector: Value -> Key): (r: seq<Value>)
    ensures forall x :: x in r <==> x in news && FindByKey(olds, keySelector, keySelector(x)).None?
  {
    if news == [] then []
    else
      var rest := Added(olds, news[1..], keySelector);
      assert forall x :: x in news <==> x == news[0] || x in news[1..];
      if FindByKey(olds, keySelector, keySelector(news[0])).None? then [news[0]] + rest else rest
  }
}
