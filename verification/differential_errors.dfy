/**
 * Differential error accumulation (`accumulateDifferentialErrors` of
 * src/utils/schema.js): rebuilds the error tree after an edit, reusing the
 * old error subtree of every object field whose value did not change and of
 * every array member whose value did not change (matched by key).
 *
 * `Diff` and its helpers specify it; the methods compute it with the loops of
 * the source. `DifferentialMatchesFull` states when the result equals full
 * accumulation of the new value, and the two `Differential...` lemmas at the
 * end exhibit the two ways in which it does not.
 */
module DifferentialErrors {
  import opened JsValue
  import opened Validation
  import opened Schemas
  import opened ErrorAccumulation
  import opened ListDifference

  /** `accumulateDifferentialErrors(o, n, e, s)`. */
  function Diff(o: Value, n: Value, e: Option<ErrorTree>, s: Schema): (r: Option<ErrorTree>)
    requires WellFormed(s)
    ensures o == n ==> r == e
    decreases Depth(s), 2, 1
  {
    if o == n then e else Rebuild(o, n, e, s)
  }

  /**
   * The node recomputed after the `oldObj === newObj` test fails: the
   * validation rerun on the new value, the children reused or rebuilt.
   */
  function Rebuild(o: Value, n: Value, e: Option<ErrorTree>, s: Schema): (r: Option<ErrorTree>)
    requires WellFormed(s)
    ensures (s.ObjectSchema? || s.ArraySchema?) ==>
      (r.Some? ==> r.value.Node? && r.value.internal == Internal(s.validation, n))
      && (Internal(s.validation, n).Some? ==> r.Some?)
    decreases Depth(s), 2, 0
  {
    match s
    case Leaf(conditions) =>
      var m := FirstError(conditions, n);
      if m.Some? then Some(Msg(m.value)) else None
    case ObjectSchema(_, _, validation) =>
      Assemble(Internal(validation, n), DiffFieldErrors(o, n, e, s), map[])
    case ArraySchema(_, _, _, validation) =>
      Assemble(Internal(validation, n), map[], MembersFrom(Items(o), Items(n), e, s))
    case Invalid => None
  }

  /** The error a field gets: the old one copied when its value is unchanged, else recomputed. */
  function DiffField(o: Value, n: Value, e: Option<ErrorTree>, s: Schema, k: string): (r: Option<ErrorTree>)
    requires s.ObjectSchema? && WellFormed(s) && k in s.fields(n)
    decreases Depth(s), 0, 0
  {
    var previous := ChildField(e, k);
    if Get(o, k) == Get(n, k) then previous
    else Diff(Get(o, k), Get(n, k), previous, s.fields(n)[k])
  }

  /** `errors.fields` after the `forEach` over the keys of `fields(n)`. */
  function DiffFieldErrors(o: Value, n: Value, e: Option<ErrorTree>, s: Schema): (r: map<string, ErrorTree>)
    requires s.ObjectSchema? && WellFormed(s)
    ensures r.Keys <= s.fields(n).Keys
    decreases Depth(s), 1, 0
  {
    var F := s.fields(n);
    map k | k in F && Present(DiffField(o, n, e, s, k)) :: DiffField(o, n, e, s, k).value
  }

  /**
   * `errors.members`: the subtrees of the unmodified elements reused, then
   * those of the modified elements recomputed (`findDifferenceInList` of the
   * two lists).
   */
  function MembersFrom(olds: seq<Value>, news: seq<Value>, e: Option<ErrorTree>, s: Schema): (r: map<Key, ErrorTree>)
    requires s.ArraySchema? && WellFormed(s)
    decreases Depth(s), 1, 0
  {
    var reused := ReusedMembers(Unmodified(olds, news, s.keySelector), e, s.keySelector);
    ModifiedMembers(Modified(olds, news, s.keySelector), e, s, reused)
  }

  /** The `unmodified.forEach` loop: copies the old subtree of each unmodified element's key. */
  function ReusedMembers(unmodified: seq<Value>, e: Option<ErrorTree>, keySelector: Value -> Key): (r: map<Key, ErrorTree>)
  {
    if unmodified == [] then map[]
    else
      var front := unmodified[..|unmodified| - 1];
      var x := unmodified[|unmodified| - 1];
      var prior := ReusedMembers(front, e, keySelector);
      var previous := ChildMember(e, keySelector(x));
      if Present(previous) then prior[keySelector(x) := previous.value] else prior
  }

  /** The reused map holds, under the key of each unmodified element, its old subtree when that is present. */
  lemma {:induction false} ReusedMembersByKey(unmodified: seq<Value>, e: Option<ErrorTree>, keySelector: Value -> Key)
    ensures var r := ReusedMembers(unmodified, e, keySelector);
      && (forall k :: k in r <==> (exists x | x in unmodified :: keySelector(x) == k) && Present(ChildMember(e, k)))
      && (forall k | k in r :: ChildMember(e, k) == Some(r[k]))
  {
    if unmodified != [] {
      var front := unmodified[..|unmodified| - 1];
      var x := unmodified[|unmodified| - 1];
      assert forall y :: y in unmodified <==> y in front || y == x;
      ReusedMembersByKey(front, e, keySelector);
    }
  }

  /** The keys of the modified elements. */
  function ModifiedKeys(mods: seq<Modification>, keySelector: Value -> Key): set<Key>
  {
    set m | m in mods :: keySelector(m.current)
  }

  /** The `modified.forEach` loop, starting from the map the first loop left. */
  function ModifiedMembers(mods: seq<Modification>, e: Option<ErrorTree>, s: Schema, start: map<Key, ErrorTree>): (r: map<Key, ErrorTree>)
    requires s.ArraySchema? && WellFormed(s)
    decreases Depth(s), 0, |mods|
  {
    if mods == [] then start
    else
      var front := mods[..|mods| - 1];
      var m := mods[|mods| - 1];
      var prior := ModifiedMembers(front, e, s, start);
      var k := s.keySelector(m.current);
      var sub := Diff(m.previous, m.current, ChildMember(e, k), s.member(m.current));
      if Present(sub) then prior[k := sub.value] else prior
  }

  // ---------------------------------------------------------------------
  // The shape of the result
  // ---------------------------------------------------------------------

  /**
   * Started from a tree of the accumulators' shape (or none), the
   * differential pass yields a tree of that shape (or none); so, like the
   * full one, its result blocks submission exactly when it is defined.
   */
  lemma {:induction false} DiffKeepsCanonical(o: Value, n: Value, e: Option<ErrorTree>, s: Schema)
    requires WellFormed(s) && CanonicalOrAbsent(e)
    ensures CanonicalOrAbsent(Diff(o, n, e, s))
    decreases Depth(s), 3
  {
    if o != n {
      if s.ObjectSchema? {
        DiffObjectKeepsCanonical(o, n, e, s);
      } else if s.ArraySchema? {
        DiffArrayKeepsCanonical(o, n, e, s);
      }
    }
  }

  lemma DiffObjectKeepsCanonical(o: Value, n: Value, e: Option<ErrorTree>, s: Schema)
    requires s.ObjectSchema? && WellFormed(s) && CanonicalOrAbsent(e) && o != n
    ensures CanonicalOrAbsent(Diff(o, n, e, s))
    decreases Depth(s), 2
  {
    DiffFieldErrorsKeepCanonical(o, n, e, s);
    AssembleCanonical(Internal(s.validation, n), DiffFieldErrors(o, n, e, s), map[]);
  }

  lemma DiffArrayKeepsCanonical(o: Value, n: Value, e: Option<ErrorTree>, s: Schema)
    requires s.ArraySchema? && WellFormed(s) && CanonicalOrAbsent(e) && o != n
    ensures CanonicalOrAbsent(Diff(o, n, e, s))
    decreases Depth(s), 2
  {
    MembersFromKeepCanonical(Items(o), Items(n), e, s);
    AssembleCanonical(Internal(s.validation, n), map[], MembersFrom(Items(o), Items(n), e, s));
  }

  lemma ChildMemberCanonical(e: Option<ErrorTree>, k: Key)
    requires CanonicalOrAbsent(e)
    ensures CanonicalOrAbsent(ChildMember(e, k))
  {
    if ChildMember(e, k).Some? {
      assert k in e.value.members.entries;
    }
  }

  lemma ChildFieldCanonical(e: Option<ErrorTree>, k: string)
    requires CanonicalOrAbsent(e)
    ensures CanonicalOrAbsent(ChildField(e, k))
  {
    if ChildField(e, k).Some? {
      assert k in e.value.fields.entries;
    }
  }

  lemma DiffFieldErrorsKeepCanonical(o: Value, n: Value, e: Option<ErrorTree>, s: Schema)
    requires s.ObjectSchema? && WellFormed(s) && CanonicalOrAbsent(e)
    ensures AllCanonical(DiffFieldErrors(o, n, e, s))
    decreases Depth(s), 1
  {
    forall k | k in s.fields(n) ensures CanonicalOrAbsent(DiffField(o, n, e, s, k)) {
      ChildFieldCanonical(e, k);
      if Get(o, k) != Get(n, k) {
        DiffKeepsCanonical(Get(o, k), Get(n, k), ChildField(e, k), s.fields(n)[k]);
      }
    }
  }

  lemma MembersFromKeepCanonical(olds: seq<Value>, news: seq<Value>, e: Option<ErrorTree>, s: Schema)
    requires s.ArraySchema? && WellFormed(s) && CanonicalOrAbsent(e)
    ensures AllCanonical(MembersFrom(olds, news, e, s))
    decreases Depth(s), 1
  {
    var R := ReusedMembers(Unmodified(olds, news, s.keySelector), e, s.keySelector);
    ReusedMembersByKey(Unmodified(olds, news, s.keySelector), e, s.keySelector);
    forall k | k in R ensures Canonical(R[k]) {
      ChildMemberCanonical(e, k);
    }
    ModifiedMembersKeepCanonical(Modified(olds, news, s.keySelector), e, s, R);
  }

  lemma {:induction false} ModifiedMembersKeepCanonical(mods: seq<Modification>, e: Option<ErrorTree>, s: Schema, start: map<Key, ErrorTree>)
    requires s.ArraySchema? && WellFormed(s) && CanonicalOrAbsent(e)
    requires AllCanonical(start)
    ensures AllCanonical(ModifiedMembers(mods, e, s, start))
    decreases Depth(s), 0, |mods|
  {
    if mods != [] {
      var m := mods[|mods| - 1];
      ModifiedMembersKeepCanonical(mods[..|mods| - 1], e, s, start);
      ChildMemberCanonical(e, s.keySelector(m.current));
      DiffKeepsCanonical(m.previous, m.current, ChildMember(e, s.keySelector(m.current)), s.member(m.current));
    }
  }

  // ---------------------------------------------------------------------
  // When differential accumulation equals full accumulation
  // ---------------------------------------------------------------------

  /**
   * The edit from `o` to `n` is one the differential pass handles exactly:
   * wherever it reuses or recurses with an old subtree, the schema it uses
   * gives the old value the same error as the schema the old tree was built
   * with; array keys are unique; and added array elements are valid (the
   * differential pass never looks at them).
   */
  ghost predicate Agrees(o: Value, n: Value, s: Schema)
    requires WellFormed(s)
    decreases Depth(s)
  {
    o == n ||
    match s
    case ObjectSchema(_, fields, _) =>
      var Fo, Fn := fields(o), fields(n);
      && Fo.Keys == Fn.Keys
      && forall k | k in Fn ::
        && Errors(Get(o, k), Fo[k]) == Errors(Get(o, k), Fn[k])
        && (Get(o, k) != Get(n, k) ==> Agrees(Get(o, k), Get(n, k), Fn[k]))
    case ArraySchema(_, member, keySelector, _) =>
      && UniqueKeys(Items(o), keySelector)
      && UniqueKeys(Items(n), keySelector)
      && (forall x | x in Items(n) && FindByKey(Items(o), keySelector, keySelector(x)).None? ::
            Errors(x, member(x)).None?)
      && (forall m | m in Modified(Items(o), Items(n), keySelector) ::
            && Errors(m.previous, member(m.previous)) == Errors(m.previous, member(m.current))
            && Agrees(m.previous, m.current, member(m.current)))
    case _ => true
  }

  /**
   * Differential accumulation from the full error tree of the old value
   * yields the full error tree of the new value, for every edit the schema
   * agrees with.
   */
  lemma {:induction false} DifferentialMatchesFull(o: Value, n: Value, s: Schema)
    requires WellFormed(s) && Agrees(o, n, s)
    ensures Diff(o, n, Errors(o, s), s) == Errors(n, s)
    decreases Depth(s), 2
  {
    if o != n {
      match s
      case ObjectSchema(_, _, _) =>
        DiffFieldErrorsMatchFull(o, n, s);
      case ArraySchema(_, _, _, _) =>
        DiffMembersMatchFull(o, n, s);
      case _ =>
    }
  }

  /** The old field subtree a full error tree holds is the full error of that field. */
  lemma ChildFieldOfErrors(o: Value, s: Schema, k: string)
    requires s.ObjectSchema? && WellFormed(s) && k in s.fields(o)
    ensures ChildField(Errors(o, s), k) == Errors(Get(o, k), s.fields(o)[k])
  {
    var sub := Errors(Get(o, k), s.fields(o)[k]);
    var fe := FieldErrors(o, s);
    if sub.Some? {
      assert Present(sub);
      assert k in fe;
    } else {
      assert k !in fe;
    }
  }

  /** The old member subtree a full error tree holds under a key is the full error of the element with that key. */
  lemma ChildMemberOfErrors(o: Value, s: Schema, k: Key)
    requires s.ArraySchema? && WellFormed(s) && UniqueKeys(Items(o), s.keySelector)
    ensures var found := FindByKey(Items(o), s.keySelector, k);
      ChildMember(Errors(o, s), k) == if found.Some? then Errors(found.value, s.member(found.value)) else None
  {
    var items := Items(o);
    var found := FindByKey(items, s.keySelector, k);
    MemberErrorsByKey(items, s);
    var me := MemberErrors(items, s);
    if found.Some? {
      var i :| 0 <= i < |items| && items[i] == found.value;
      if Errors(found.value, s.member(found.value)).Some? {
        assert k in me;
      }
    } else {
      assert k !in me;
    }
  }

  lemma DiffFieldErrorsMatchFull(o: Value, n: Value, s: Schema)
    requires s.ObjectSchema? && WellFormed(s) && o != n && Agrees(o, n, s)
    ensures DiffFieldErrors(o, n, Errors(o, s), s) == FieldErrors(n, s)
    decreases Depth(s), 0
  {
    var Fo, Fn := s.fields(o), s.fields(n);
    var e := Errors(o, s);
    forall k | k in Fn
      ensures DiffField(o, n, e, s, k) == Errors(Get(n, k), Fn[k])
    {
      ChildFieldOfErrors(o, s, k);
      if Get(o, k) != Get(n, k) {
        DifferentialMatchesFull(Get(o, k), Get(n, k), Fn[k]);
      }
    }
  }

  /** Past the identity test a leaf is recomputed from scratch: it no longer depends on the old value or error. */
  lemma RebuildLeafIsFull(o: Value, n: Value, e: Option<ErrorTree>, s: Schema)
    requires s.Leaf? && WellFormed(s)
    ensures Rebuild(o, n, e, s) == Errors(n, s)
  {
  }

  /**
   * Rebuilding the node of an unchanged value that is not a list from its
   * full error gives that full error again: the validation reruns on the
   * same value and every field copies its old subtree.
   */
  lemma RebuildUnchanged(v: Value, s: Schema)
    requires WellFormed(s) && !v.List?
    ensures Rebuild(v, v, Errors(v, s), s) == Errors(v, s)
  {
    match s
    case ObjectSchema(_, _, _) =>
      UnchangedFieldsCopied(v, s);
    case ArraySchema(_, _, _, _) =>
      assert MembersFrom(Items(v), Items(v), Errors(v, s), s) == map[];
    case _ =>
  }

  /** With nothing changed, every field's old subtree is copied, giving the full `fields`. */
  lemma UnchangedFieldsCopied(v: Value, s: Schema)
    requires s.ObjectSchema? && WellFormed(s)
    ensures DiffFieldErrors(v, v, Errors(v, s), s) == FieldErrors(v, s)
  {
    forall k | k in s.fields(v)
      ensures DiffField(v, v, Errors(v, s), s, k) == Errors(Get(v, k), s.fields(v)[k])
    {
      ChildFieldOfErrors(v, s, k);
    }
  }

  /**
   * The reducer's form of the theorem: its new value is a fresh object, so
   * the top node is always rebuilt, and rebuilding it from the full old
   * error gives the full new error for every edit the schema agrees with.
   */
  lemma RebuildMatchesFull(o: Value, n: Value, s: Schema)
    requires WellFormed(s) && !n.List? && Agrees(o, n, s)
    ensures Rebuild(o, n, Errors(o, s), s) == Errors(n, s)
  {
    if o == n {
      RebuildUnchanged(n, s);
    } else {
      DifferentialMatchesFull(o, n, s);
    }
  }

  /** Keys of a unique-key list identify its elements. */
  lemma SameKeySameElement(xs: seq<Value>, keySelector: Value -> Key, x: Value, y: Value)
    requires UniqueKeys(xs, keySelector) && x in xs && y in xs && keySelector(x) == keySelector(y)
    ensures x == y
  {
    FindByKeyUnique(xs, keySelector, x);
    FindByKeyUnique(xs, keySelector, y);
  }

  /** No two modifications carry the same key. */
  ghost predicate UniqueCurrentKeys(mods: seq<Modification>, keySelector: Value -> Key)
  {
    forall i, j | 0 <= i < j < |mods| :: keySelector(mods[i].current) != keySelector(mods[j].current)
  }

  lemma {:induction false} ModifiedKeysUnique(olds: seq<Value>, news: seq<Value>, keySelector: Value -> Key)
    requires UniqueKeys(news, keySelector)
    ensures UniqueCurrentKeys(Modified(olds, news, keySelector), keySelector)
  {
    if news != [] {
      var tail := news[1..];
      UniqueKeysTail(news, keySelector);
      ModifiedKeysUnique(olds, tail, keySelector);
      var rest := Modified(olds, tail, keySelector);
      forall m | m in rest ensures keySelector(m.current) != keySelector(news[0]) {
        var j :| 0 <= j < |tail| && tail[j] == m.current;
        assert news[j + 1] == m.current;
      }
      var found := FindByKey(olds, keySelector, keySelector(news[0]));
      if found.Some? && found.value != news[0] {
        UniqueCurrentKeysCons(Modification(found.value, news[0]), rest, keySelector);
      }
    }
  }

  lemma UniqueKeysTail(xs: seq<Value>, keySelector: Value -> Key)
    requires xs != [] && UniqueKeys(xs, keySelector)
    ensures UniqueKeys(xs[1..], keySelector)
  {
    var tail := xs[1..];
    forall i, j | 0 <= i < j < |tail| ensures keySelector(tail[i]) != keySelector(tail[j]) {
      assert tail[i] == xs[i + 1] && tail[j] == xs[j + 1];
    }
  }

  lemma UniqueCurrentKeysCons(m: Modification, rest: seq<Modification>, keySelector: Value -> Key)
    requires UniqueCurrentKeys(rest, keySelector)
    requires forall r | r in rest :: keySelector(r.current) != keySelector(m.current)
    ensures UniqueCurrentKeys([m] + rest, keySelector)
  {
    var mods := [m] + rest;
    forall i, j | 0 <= i < j < |mods| ensures keySelector(mods[i].current) != keySelector(mods[j].current) {
      assert mods[j] == rest[j - 1];
      if i == 0 {
        assert mods[j] in rest;
      } else {
        assert mods[i] == rest[i - 1];
      }
    }
  }

  /** The modified loop leaves every key no modified element carries as the first loop left it. */
  lemma {:induction false} ModifiedMembersOutside(mods: seq<Modification>, e: Option<ErrorTree>, s: Schema, start: map<Key, ErrorTree>, k: Key)
    requires s.ArraySchema? && WellFormed(s) && k !in ModifiedKeys(mods, s.keySelector)
    ensures var r := ModifiedMembers(mods, e, s, start);
      (k in r <==> k in start) && (k in start ==> r[k] == start[k])
    decreases |mods|
  {
    if mods != [] {
      var front := mods[..|mods| - 1];
      assert mods[|mods| - 1] in mods;
      assert forall x :: x in front ==> x in mods;
      ModifiedMembersOutside(front, e, s, start, k);
    }
  }

  /** With unique keys, the modified loop sets the recomputed subtree of each modified element when present. */
  lemma {:induction false} ModifiedMembersByKey(mods: seq<Modification>, e: Option<ErrorTree>, s: Schema, start: map<Key, ErrorTree>, i: nat)
    requires s.ArraySchema? && WellFormed(s) && i < |mods|
    requires UniqueCurrentKeys(mods, s.keySelector)
    ensures var r := ModifiedMembers(mods, e, s, start);
      var k := s.keySelector(mods[i].current);
      var sub := Diff(mods[i].previous, mods[i].current, ChildMember(e, k), s.member(mods[i].current));
      && (Present(sub) ==> k in r && r[k] == sub.value)
      && (!Present(sub) ==> (k in r <==> k in start) && (k in start ==> r[k] == start[k]))
    decreases |mods|
  {
    var front := mods[..|mods| - 1];
    if i < |mods| - 1 {
      assert mods[i] == front[i];
      ModifiedMembersByKey(front, e, s, start, i);
    } else {
      var k := s.keySelector(mods[i].current);
      forall m | m in front ensures s.keySelector(m.current) != k {
        var j :| 0 <= j < |front| && front[j] == m;
        assert mods[j] == m;
      }
      ModifiedMembersOutside(front, e, s, start, k);
    }
  }

  /** At the key of an unmodified element, the reused subtree is its full error. */
  lemma ReusedMemberMatchesFull(olds: seq<Value>, news: seq<Value>, e: Option<ErrorTree>, s: Schema, x: Value)
    requires s.ArraySchema? && WellFormed(s) && UniqueKeys(news, s.keySelector)
    requires x in news && FindByKey(olds, s.keySelector, s.keySelector(x)) == Some(x)
    requires ChildMember(e, s.keySelector(x)) == Errors(x, s.member(x))
    ensures var k, lhs, rhs := s.keySelector(x), MembersFrom(olds, news, e, s), MemberErrors(news, s);
      (k in lhs <==> k in rhs) && (k in lhs ==> lhs[k] == rhs[k])
  {
    var keySelector := s.keySelector;
    var k := keySelector(x);
    var U := Unmodified(olds, news, keySelector);
    var M := Modified(olds, news, keySelector);
    var R := ReusedMembers(U, e, keySelector);
    assert x in U;
    ReusedMembersByKey(U, e, keySelector);
    assert k !in ModifiedKeys(M, keySelector);
    ModifiedMembersOutside(M, e, s, R, k);
    var full := Errors(x, s.member(x));
    assert full.Some? ==> Present(full);
    var i :| 0 <= i < |news| && news[i] == x;
    MemberErrorsByKey(news, s);
  }

  /** No subtree is reused under the key of a new element that is not unmodified. */
  lemma ReusedExcludesModified(olds: seq<Value>, news: seq<Value>, e: Option<ErrorTree>, keySelector: Value -> Key, x: Value)
    requires UniqueKeys(news, keySelector) && x in news
    requires FindByKey(olds, keySelector, keySelector(x)) != Some(x)
    ensures keySelector(x) !in ReusedMembers(Unmodified(olds, news, keySelector), e, keySelector)
  {
    ReusedMembersByKey(Unmodified(olds, news, keySelector), e, keySelector);
    forall u | u in Unmodified(olds, news, keySelector) ensures keySelector(u) != keySelector(x) {
      if keySelector(u) == keySelector(x) {
        SameKeySameElement(news, keySelector, u, x);
      }
    }
  }

  /** At the key of a modified element, the recomputed subtree is its full error. */
  lemma ModifiedMemberMatchesFull(olds: seq<Value>, news: seq<Value>, e: Option<ErrorTree>, s: Schema, x: Value, y: Value)
    requires s.ArraySchema? && WellFormed(s) && UniqueKeys(news, s.keySelector)
    requires x in news && FindByKey(olds, s.keySelector, s.keySelector(x)) == Some(y) && y != x
    requires Diff(y, x, ChildMember(e, s.keySelector(x)), s.member(x)) == Errors(x, s.member(x))
    ensures var k, lhs, rhs := s.keySelector(x), MembersFrom(olds, news, e, s), MemberErrors(news, s);
      (k in lhs <==> k in rhs) && (k in lhs ==> lhs[k] == rhs[k])
  {
    var keySelector := s.keySelector;
    var k := keySelector(x);
    var U := Unmodified(olds, news, keySelector);
    var M := Modified(olds, news, keySelector);
    var R := ReusedMembers(U, e, keySelector);
    assert Modification(y, x) in M;
    var j :| 0 <= j < |M| && M[j] == Modification(y, x);
    ReusedExcludesModified(olds, news, e, keySelector, x);
    ModifiedKeysUnique(olds, news, keySelector);
    ModifiedMembersByKey(M, e, s, R, j);
    var full := Errors(x, s.member(x));
    assert full.Some? ==> Present(full);
    var i :| 0 <= i < |news| && news[i] == x;
    MemberErrorsByKey(news, s);
  }

  /** A key no old element matches is in neither map when the new elements carrying it are valid. */
  lemma UnmatchedKeyMatchesFull(olds: seq<Value>, news: seq<Value>, e: Option<ErrorTree>, s: Schema, k: Key)
    requires s.ArraySchema? && WellFormed(s) && UniqueKeys(news, s.keySelector)
    requires forall x | x in news && s.keySelector(x) == k ::
      FindByKey(olds, s.keySelector, k).None? && Errors(x, s.member(x)).None?
    ensures k !in MembersFrom(olds, news, e, s) && k !in MemberErrors(news, s)
  {
    var keySelector := s.keySelector;
    var U := Unmodified(olds, news, keySelector);
    var M := Modified(olds, news, keySelector);
    var R := ReusedMembers(U, e, keySelector);
    ReusedMembersByKey(U, e, keySelector);
    assert k !in R;
    assert k !in ModifiedKeys(M, keySelector);
    ModifiedMembersOutside(M, e, s, R, k);
    MemberErrorsByKey(news, s);
  }

  /** The differential subtree of a modified element, started from the old full subtree, is its full error. */
  lemma ModifiedSubtreeIsFull(o: Value, n: Value, s: Schema, x: Value, y: Value)
    requires s.ArraySchema? && WellFormed(s) && o != n && Agrees(o, n, s)
    requires x in Items(n) && FindByKey(Items(o), s.keySelector, s.keySelector(x)) == Some(y) && y != x
    ensures Diff(y, x, ChildMember(Errors(o, s), s.keySelector(x)), s.member(x)) == Errors(x, s.member(x))
    decreases Depth(s), 0
  {
    assert Modification(y, x) in Modified(Items(o), Items(n), s.keySelector);
    ChildMemberOfErrors(o, s, s.keySelector(x));
    DifferentialMatchesFull(y, x, s.member(x));
  }

  lemma DiffMembersMatchFull(o: Value, n: Value, s: Schema)
    requires s.ArraySchema? && WellFormed(s) && o != n && Agrees(o, n, s)
    ensures MembersFrom(Items(o), Items(n), Errors(o, s), s) == MemberErrors(Items(n), s)
    decreases Depth(s), 1
  {
    var keySelector := s.keySelector;
    var olds, news := Items(o), Items(n);
    var e := Errors(o, s);
    assert UniqueKeys(olds, keySelector) && UniqueKeys(news, keySelector);
    assert forall x | x in news && FindByKey(olds, keySelector, keySelector(x)).None? :: Errors(x, s.member(x)).None?;
    var lhs, rhs := MembersFrom(olds, news, e, s), MemberErrors(news, s);
    forall k ensures (k in lhs <==> k in rhs) && (k in lhs ==> lhs[k] == rhs[k]) {
      if exists x | x in news :: keySelector(x) == k && FindByKey(olds, keySelector, k).Some? {
        var x :| x in news && keySelector(x) == k && FindByKey(olds, keySelector, k).Some?;
        var y := FindByKey(olds, keySelector, k).value;
        if y == x {
          ChildMemberOfErrors(o, s, k);
          ReusedMemberMatchesFull(olds, news, e, s, x);
        } else {
          ModifiedSubtreeIsFull(o, n, s, x, y);
          ModifiedMemberMatchesFull(olds, news, e, s, x, y);
        }
      } else {
        UnmatchedKeyMatchesFull(olds, news, e, s, k);
      }
    }
    assert lhs == rhs;
  }

  /** After an edit, an object is valid exactly when its own validation passes on the new value and no field's differential error is present. */
  lemma DiffObjectValid(o: Value, n: Value, e: Option<ErrorTree>, s: Schema)
    requires s.ObjectSchema? && WellFormed(s) && o != n
    ensures Diff(o, n, e, s).None? <==>
      && Internal(s.validation, n).None?
      && forall k | k in s.fields(n) :: !Present(DiffField(o, n, e, s, k))
  {
    var F := s.fields(n);
    assert Diff(o, n, e, s) == Rebuild(o, n, e, s);
    if Diff(o, n, e, s).None? {
      forall k | k in F ensures !Present(DiffField(o, n, e, s, k)) {
        assert k !in DiffFieldErrors(o, n, e, s);
      }
    } else if DiffFieldErrors(o, n, e, s) != map[] {
      var k :| k in DiffFieldErrors(o, n, e, s);
      assert Present(DiffField(o, n, e, s, k));
    }
  }

  // ---------------------------------------------------------------------
  // Where differential accumulation departs from full accumulation
  // ---------------------------------------------------------------------

  /** An object schema whose field `b` is required only while the sibling `type` is "A". */
  function ToggleSchema(): (s: Schema)
    ensures WellFormed(s)
  {
    ObjectSchema(1,
      v => map["type" := Leaf([]), "b" := Leaf(if Get(v, "type") == Str("A") then [Required] else [])],
      v => None)
  }

  /** Before the edit, nothing is required: no error. */
  lemma ToggleBefore()
    ensures Errors(Obj(map["type" := Str("B")]), ToggleSchema()).None?
  {
    var s, o := ToggleSchema(), Obj(map["type" := Str("B")]);
    assert s.fields(o) == map["type" := Leaf([]), "b" := Leaf([])] by {
      assert Get(o, "type") == Str("B");
    }
    ObjectValidIff(o, s);
  }

  /** After the edit, the absent `b` is required: an error. */
  lemma ToggleAfter()
    ensures Errors(Obj(map["type" := Str("A")]), ToggleSchema()).Some?
  {
    var s, n := ToggleSchema(), Obj(map["type" := Str("A")]);
    assert s.fields(n) == map["type" := Leaf([]), "b" := Leaf([Required])] by {
      assert Get(n, "type") == Str("A");
    }
    assert Get(n, "b") == Undef;
    assert Check(Required, Undef) == Some(FieldRequired);
    ObjectValidIff(n, s);
  }

  /** The differential pass over that edit re-checks only `type`, and `b` keeps its old (absent) error. */
  lemma ToggleDifferential()
    ensures Diff(Obj(map["type" := Str("B")]), Obj(map["type" := Str("A")]), None, ToggleSchema()).None?
  {
    var s, o, n := ToggleSchema(), Obj(map["type" := Str("B")]), Obj(map["type" := Str("A")]);
    ToggleFields(s, o, n);
    ToggleFieldsUnreported(o, n, s);
    DiffObjectValid(o, n, None, s);
  }

  lemma ToggleFields(s: Schema, o: Value, n: Value)
    requires s == ToggleSchema() && o == Obj(map["type" := Str("B")]) && n == Obj(map["type" := Str("A")])
    ensures s.fields(n) == map["type" := Leaf([]), "b" := Leaf([Required])]
    ensures Get(o, "type") == Str("B") && Get(n, "type") == Str("A")
    ensures Get(o, "b") == Undef && Get(n, "b") == Undef
  {
    assert Get(n, "type") == Str("A");
  }

  lemma ToggleFieldsUnreported(o: Value, n: Value, s: Schema)
    requires s.ObjectSchema? && WellFormed(s)
    requires s.fields(n) == map["type" := Leaf([]), "b" := Leaf([Required])]
    requires Get(o, "type") == Str("B") && Get(n, "type") == Str("A")
    requires Get(o, "b") == Undef && Get(n, "b") == Undef
    ensures o != n
    ensures forall k | k in s.fields(n) :: DiffField(o, n, None, s, k).None?
  {
    assert FirstError([], n).None?;
  }

  /**
   * Switching `type` to "A" makes the absent `b` required, but `b` itself did
   * not change, so the differential pass copies its old (absent) error.
   */
  lemma DifferentialMissesSiblingDependentError()
    ensures var s, o, n := ToggleSchema(), Obj(map["type" := Str("B")]), Obj(map["type" := Str("A")]);
      && Errors(o, s).None?
      && Diff(o, n, Errors(o, s), s).None?
      && Errors(n, s).Some?
  {
    ToggleBefore();
    ToggleAfter();
    ToggleDifferential();
  }

  /** An array of required strings keyed by their own text. */
  function RequiredListSchema(): (s: Schema)
    ensures WellFormed(s)
  {
    ArraySchema(1, v => Leaf([Required]), (v: Value) => if v.Str? then v.s else "", v => None)
  }

  /** A newly added element is never looked at by the differential pass, even when it is invalid. */
  lemma DifferentialSkipsAddedMembers()
    ensures var s, o, n := RequiredListSchema(), List([]), List([Null]);
      && Errors(o, s).None?
      && Diff(o, n, Errors(o, s), s).None?
      && Errors(n, s).Some?
  {
    var s, o, n := RequiredListSchema(), List([]), List([Null]);
    ArrayValidIff(o, s);
    assert Unmodified([], [Null], s.keySelector) == [];
    assert Modified([], [Null], s.keySelector) == [];
    assert Check(Required, Null) == Some(FieldRequired);
    ArrayValidIff(n, s);
  }

  // ---------------------------------------------------------------------
  // The loops of the source
  // ---------------------------------------------------------------------

  /** `accumulateDifferentialErrors(oldObj, newObj, oldError, schema)`. */
  method AccumulateDifferentialErrors(o: Value, n: Value, e: Option<ErrorTree>, s: Schema) returns (r: Option<ErrorTree>)
    requires WellFormed(s)
    ensures r == Diff(o, n, e, s)
    decreases Depth(s), 2, 1
  {
    if o == n {
      return e;
    }
    r := RebuildErrors(o, n, e, s);
  }

  /** The body of `accumulateDifferentialErrors` past the identity test. */
  method RebuildErrors(o: Value, n: Value, e: Option<ErrorTree>, s: Schema) returns (r: Option<ErrorTree>)
    requires WellFormed(s)
    ensures r == Rebuild(o, n, e, s)
    decreases Depth(s), 2, 0
  {
    match s {
      case Leaf(conditions) =>
        var error := LeafError(conditions, n);
        r := if error.Some? then Some(Msg(error.value)) else None;
      case ObjectSchema(_, _, validation) =>
        var fieldErrors := AccumulateDiffFieldErrors(o, n, e, s);
        r := Assemble(Internal(validation, n), fieldErrors, map[]);
        assert r == Rebuild(o, n, e, s);
      case ArraySchema(_, _, _, validation) =>
        var members := AccumulateDiffMembers(Items(o), Items(n), e, s);
        r := Assemble(Internal(validation, n), map[], members);
        assert r == Rebuild(o, n, e, s);
      case Invalid =>
        r := None;
    }
  }

  /** The `forEach` over the field names of `fields(newObj)`. */
  method AccumulateDiffFieldErrors(o: Value, n: Value, e: Option<ErrorTree>, s: Schema) returns (fieldErrors: map<string, ErrorTree>)
    requires s.ObjectSchema? && WellFormed(s)
    ensures fieldErrors == DiffFieldErrors(o, n, e, s)
    decreases Depth(s), 1, 0
  {
    var F := s.fields(n);
    fieldErrors := map[];
    var remaining := F.Keys;
    while remaining != {}
      invariant remaining <= F.Keys
      invariant forall k :: k in fieldErrors <==> k in F && k !in remaining && Present(DiffField(o, n, e, s, k))
      invariant forall k | k in fieldErrors :: DiffField(o, n, e, s, k) == Some(fieldErrors[k])
      decreases remaining
    {
      var fieldName :| fieldName in remaining;
      var fieldError := AccumulateDiffField(o, n, e, s, fieldName);
      if Present(fieldError) {
        fieldErrors := fieldErrors[fieldName := fieldError.value];
      }
      remaining := remaining - {fieldName};
    }
    DiffFieldErrorsPointwise(o, n, e, s, fieldErrors);
  }

  /** A map holding exactly the present field errors is `errors.fields`. */
  lemma DiffFieldErrorsPointwise(o: Value, n: Value, e: Option<ErrorTree>, s: Schema, m: map<string, ErrorTree>)
    requires s.ObjectSchema? && WellFormed(s)
    requires forall k :: k in m <==> k in s.fields(n) && Present(DiffField(o, n, e, s, k))
    requires forall k | k in m :: DiffField(o, n, e, s, k) == Some(m[k])
    ensures m == DiffFieldErrors(o, n, e, s)
  {
  }

  /** The callback of that `forEach`: copy the old field error when the value is unchanged, else recurse. */
  method AccumulateDiffField(o: Value, n: Value, e: Option<ErrorTree>, s: Schema, fieldName: string) returns (fieldError: Option<ErrorTree>)
    requires s.ObjectSchema? && WellFormed(s) && fieldName in s.fields(n)
    ensures fieldError == DiffField(o, n, e, s, fieldName)
    decreases Depth(s), 0, 0
  {
    fieldError := ChildField(e, fieldName);
    if Get(o, fieldName) != Get(n, fieldName) {
      fieldError := AccumulateDifferentialErrors(Get(o, fieldName), Get(n, fieldName), fieldError, s.fields(n)[fieldName]);
    }
  }

  /** The two loops that fill `errors.members`, over `findDifferenceInList(oldObj, newObj, keySelector)`. */
  method AccumulateDiffMembers(olds: seq<Value>, news: seq<Value>, e: Option<ErrorTree>, s: Schema) returns (members: map<Key, ErrorTree>)
    requires s.ArraySchema? && WellFormed(s)
    ensures members == MembersFrom(olds, news, e, s)
    decreases Depth(s), 1, 1
  {
    var reused := ReuseMemberErrors(Unmodified(olds, news, s.keySelector), e, s.keySelector);
    members := RecomputeMemberErrors(Modified(olds, news, s.keySelector), e, s, reused);
  }

  /** The `unmodified.forEach` loop. */
  method ReuseMemberErrors(unmodified: seq<Value>, e: Option<ErrorTree>, keySelector: Value -> Key) returns (members: map<Key, ErrorTree>)
    ensures members == ReusedMembers(unmodified, e, keySelector)
  {
    members := map[];
    for i := 0 to |unmodified|
      invariant members == ReusedMembers(unmodified[..i], e, keySelector)
    {
      assert unmodified[..i + 1][..i] == unmodified[..i];
      var index := keySelector(unmodified[i]);
      var previous := ChildMember(e, index);
      if Present(previous) {
        members := members[index := previous.value];
      }
    }
    assert unmodified[..|unmodified|] == unmodified;
  }

  /** The `modified.forEach` loop, continuing from the map the first loop left. */
  method RecomputeMemberErrors(modified: seq<Modification>, e: Option<ErrorTree>, s: Schema, reused: map<Key, ErrorTree>) returns (members: map<Key, ErrorTree>)
    requires s.ArraySchema? && WellFormed(s)
    ensures members == ModifiedMembers(modified, e, s, reused)
    decreases Depth(s), 1, 0
  {
    members := reused;
    for i := 0 to |modified|
      invariant members == ModifiedMembers(modified[..i], e, s, reused)
    {
      assert modified[..i + 1][..i] == modified[..i];
      var m := modified[i];
      var index := s.keySelector(m.current);
      var fieldError := AccumulateDifferentialErrors(m.previous, m.current, ChildMember(e, index), s.member(m.current));
      if Present(fieldError) {
        members := members[index := fieldError.value];
      }
    }
    assert modified[..|modified|] == modified;
  }
}
