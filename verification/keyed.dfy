/**
 The ID-keyed ordered collection behind `Index.Items`, `Todo.Notes`,
 `Board.Todos` and `AgileTodo.Effort`.

 The Go code keeps each collection in a doubly linked list of untyped
 values and looks elements up with the list's `Find` (first index whose
 predicate holds, or -1) and `Any`. Here a collection is a `seq<T>` and
 the element's ID is read through a key function `key: T -> K`.

 Every Go lookup predicate is written `t, err := value.(*X); if !err && ...`.
 The second result of a type assertion is the "ok" flag, true for every
 element of a homogeneous list, so as written the predicate never matches.
 The functions without suffix model the evidently intended lookup; the
 `AsWritten` ones model the code as it stands.
 */
module Keyed {
  import opened Wrappers

  /** The list's `Find`: the first index whose element satisfies `p`. */
  function FindWhere<T>(xs: seq<T>, p: T -> bool): (r: Option<nat>)
    ensures r.Some? ==> r.value < |xs| && p(xs[r.value])
    ensures r.Some? ==> forall j :: 0 <= j < r.value ==> !p(xs[j])
    ensures r.None? <==> forall j :: 0 <= j < |xs| ==> !p(xs[j])
    decreases |xs|
  {
    if |xs| == 0 then None
    else if p(xs[0]) then Some(0)
    else match FindWhere(xs[1..], p)
      case None => None
      case Some(i) => Some(i + 1)
  }

  /** The list's `Any`: whether some element satisfies `p`. */
  function AnyWhere<T>(xs: seq<T>, p: T -> bool): (b: bool)
    ensures b <==> exists i :: 0 <= i < |xs| && p(xs[i])
    decreases |xs|
  {
    if |xs| == 0 then false
    else p(xs[0]) || AnyWhere(xs[1..], p)
  }

  /**
   The list's `Select`: the elements satisfying `p`, in list order. The
   contract states membership; order and multiplicity follow from
   `SelectAppend` and `SelectWhereNoMatch`.
   */
  function SelectWhere<T>(xs: seq<T>, p: T -> bool): (r: seq<T>)
    ensures |r| <= |xs|
    ensures forall i :: 0 <= i < |r| ==> r[i] in xs && p(r[i])
    ensures forall i :: 0 <= i < |xs| && p(xs[i]) ==> xs[i] in r
    decreases |xs|
  {
    if |xs| == 0 then []
    else (if p(xs[0]) then [xs[0]] else []) + SelectWhere(xs[1..], p)
  }

  /** Selecting from a longer list extends the selection at the end: the order is insertion order. */
  lemma {:induction false} SelectAppend<T>(xs: seq<T>, x: T, p: T -> bool)
    ensures SelectWhere(xs + [x], p) == SelectWhere(xs, p) + (if p(x) then [x] else [])
    decreases |xs|
  {
    if |xs| == 0 {
      assert xs + [x] == [x];
    } else {
      assert (xs + [x])[1..] == xs[1..] + [x];
      SelectAppend(xs[1..], x, p);
    }
  }

  /** Nothing is selected when no element satisfies the predicate. */
  lemma {:induction false} SelectWhereNoMatch<T>(xs: seq<T>, p: T -> bool)
    requires forall i :: 0 <= i < |xs| ==> !p(xs[i])
    ensures SelectWhere(xs, p) == []
    decreases |xs|
  {
    if |xs| > 0 {
      SelectWhereNoMatch(xs[1..], p);
    }
  }

  // ---------------------------------------------------------------------
  // Keyed lookups

  /** Some element of `xs` carries the key `k`. */
  ghost predicate Contains<T, K>(xs: seq<T>, key: T -> K, k: K) {
    exists i :: 0 <= i < |xs| && key(xs[i]) == k
  }

  /** No two elements of `xs` share a key. */
  ghost predicate Unique<T, K>(xs: seq<T>, key: T -> K) {
    forall i, j :: 0 <= i < j < |xs| ==> key(xs[i]) != key(xs[j])
  }

  /** Appending an element whose key is absent keeps the keys unique. */
  lemma AppendAbsentKeepsUnique<T, K>(xs: seq<T>, x: T, key: T -> K)
    requires !Contains(xs, key, key(x))
    ensures Unique(xs, key) ==> Unique(xs + [x], key)
  {
    var r := xs + [x];
    forall i, j | Unique(xs, key) && 0 <= i < j < |r|
      ensures key(r[i]) != key(r[j])
    {
      assert r[i] == xs[i];
      if j < |xs| {
        assert r[j] == xs[j];
      }
    }
  }

  /** Position of the first element with key `k`. */
  function Find<T, K(==)>(xs: seq<T>, key: T -> K, k: K): (r: Option<nat>)
    ensures r.Some? ==> r.value < |xs| && key(xs[r.value]) == k
    ensures r.Some? ==> forall j :: 0 <= j < r.value ==> key(xs[j]) != k
    ensures r.None? <==> !Contains(xs, key, k)
  {
    FindWhere(xs, x => key(x) == k)
  }

  /** Whether an element with key `k` is present. */
  function Has<T, K(==)>(xs: seq<T>, key: T -> K, k: K): (b: bool)
    ensures b <==> Contains(xs, key, k)
  {
    AnyWhere(xs, x => key(x) == k)
  }

  /** Appends `x` unless an element with its key is already present (first write wins). */
  function Add<T, K(==,!new)>(xs: seq<T>, x: T, key: T -> K): (r: seq<T>)
    ensures Contains(xs, key, key(x)) ==> r == xs
    ensures !Contains(xs, key, key(x)) ==> r == xs + [x]
    ensures Contains(r, key, key(x))
    ensures forall k :: k != key(x) ==> (Contains(r, key, k) <==> Contains(xs, key, k))
    ensures Unique(xs, key) ==> Unique(r, key)
  {
    if Find(xs, key, key(x)).None? then
      assert key((xs + [x])[|xs|]) == key(x);
      assert forall i :: 0 <= i < |xs| ==> (xs + [x])[i] == xs[i];
      xs + [x]
    else xs
  }

  /** Adds the elements of `ys` one after the other. */
  function AddAll<T, K(==,!new)>(xs: seq<T>, ys: seq<T>, key: T -> K): seq<T>
    decreases |ys|
  {
    if |ys| == 0 then xs else AddAll(Add(xs, ys[0], key), ys[1..], key)
  }

  /** Adding elements with fresh, distinct keys appends them all, in the order they were added. */
  lemma {:induction false} AddDistinctKeepsOrder<T, K(!new)>(xs: seq<T>, ys: seq<T>, key: T -> K)
    requires Unique(xs + ys, key)
    ensures AddAll(xs, ys, key) == xs + ys
    ensures |AddAll(xs, ys, key)| == |xs| + |ys|
    decreases |ys|
  {
    if |ys| > 0 {
      var zs := xs + ys;
      forall i | 0 <= i < |xs|
        ensures key(xs[i]) != key(ys[0])
      {
        assert zs[i] == xs[i] && zs[|xs|] == ys[0];
      }
      assert Add(xs, ys[0], key) == xs + [ys[0]];
      assert (xs + [ys[0]]) + ys[1..] == zs;
      AddDistinctKeepsOrder(xs + [ys[0]], ys[1..], key);
    }
  }

  /** Deletes the first element with key `k`, keeping the others in order; a no-op when none has it. */
  function Remove<T, K(==,!new)>(xs: seq<T>, key: T -> K, k: K): (r: seq<T>)
    ensures !Contains(xs, key, k) ==> r == xs
    ensures Contains(xs, key, k) ==>
              exists i :: 0 <= i < |xs| && key(xs[i]) == k && (forall j :: 0 <= j < i ==> key(xs[j]) != k)
                       && r == xs[..i] + xs[i + 1..]
    ensures Contains(xs, key, k) ==> |r| == |xs| - 1
    ensures forall k' :: k' != k ==> (Contains(r, key, k') <==> Contains(xs, key, k'))
    ensures Unique(xs, key) ==> Unique(r, key) && !Contains(r, key, k)
  {
    match Find(xs, key, k)
    case None => xs
    case Some(i) =>
      RemoveAtKeepsOthers(xs, i, key);
      RemoveAt(xs, i)
  }

  /** The list's `Remove(index)`: deletes that position; an index out of range is ignored. */
  function RemoveAt<T>(xs: seq<T>, i: nat): (r: seq<T>)
    ensures i < |xs| ==> |r| == |xs| - 1
    ensures i < |xs| ==> forall j :: 0 <= j < |r| ==> r[j] == xs[if j < i then j else j + 1]
    ensures |xs| <= i ==> r == xs
  {
    if i < |xs| then xs[..i] + xs[i + 1..] else xs
  }

  /** Facts about deleting position `i`: other keys stay, and a unique list stays unique without `xs[i]`'s key. */
  lemma RemoveAtKeepsOthers<T, K(!new)>(xs: seq<T>, i: nat, key: T -> K)
    requires i < |xs|
    ensures forall k' :: k' != key(xs[i]) ==> (Contains(xs[..i] + xs[i + 1..], key, k') <==> Contains(xs, key, k'))
    ensures Unique(xs, key) ==> Unique(xs[..i] + xs[i + 1..], key) && !Contains(xs[..i] + xs[i + 1..], key, key(xs[i]))
  {
    var r := xs[..i] + xs[i + 1..];
    assert |r| == |xs| - 1;
    assert forall j :: 0 <= j < i ==> r[j] == xs[j];
    assert forall j :: i <= j < |r| ==> r[j] == xs[j + 1];
    forall k' | k' != key(xs[i]) && Contains(xs, key, k')
      ensures Contains(r, key, k')
    {
      var j :| 0 <= j < |xs| && key(xs[j]) == k';
      if j < i {
        assert key(r[j]) == k';
      } else {
        assert j != i;
        assert key(r[j - 1]) == k';
      }
    }
    if Unique(xs, key) {
      forall a, b | 0 <= a < b < |r|
        ensures key(r[a]) != key(r[b])
      {
        var a' := if a < i then a else a + 1;
        var b' := if b < i then b else b + 1;
        assert r[a] == xs[a'] && r[b] == xs[b'];
      }
      forall j | 0 <= j < |r|
        ensures key(r[j]) != key(xs[i])
      {
        var j' := if j < i then j else j + 1;
        assert r[j] == xs[j'];
      }
    }
  }

  // ---------------------------------------------------------------------
  // The lookups as written

  /** The Go predicate `t, err := value.(*X); if !err && same`: `ok` is the assertion's success flag. */
  predicate MatchAsWritten(ok: bool, same: bool) {
    !ok && same
  }

  /** `Find` with the as-written predicate; every element of a typed list passes the assertion. */
  function FindAsWritten<T, K(==)>(xs: seq<T>, key: T -> K, k: K): Option<nat> {
    FindWhere(xs, x => MatchAsWritten(true, key(x) == k))
  }

  function HasAsWritten<T, K(==)>(xs: seq<T>, key: T -> K, k: K): bool {
    AnyWhere(xs, x => MatchAsWritten(true, key(x) == k))
  }

  function AddAsWritten<T, K(==)>(xs: seq<T>, x: T, key: T -> K): seq<T> {
    if FindAsWritten(xs, key, key(x)).None? then xs + [x] else xs
  }

  function RemoveAsWritten<T, K(==)>(xs: seq<T>, key: T -> K, k: K): seq<T> {
    match FindAsWritten(xs, key, k)
    case None => xs
    case Some(i) => RemoveAt(xs, i)
  }

  /** As written, the lookups never match: Has is always false, Add always appends, Remove never removes. */
  lemma LookupsAsWrittenNeverMatch<T, K>(xs: seq<T>, x: T, key: T -> K, k: K)
    ensures FindAsWritten(xs, key, k) == None
    ensures !HasAsWritten(xs, key, k)
    ensures AddAsWritten(xs, x, key) == xs + [x]
    ensures RemoveAsWritten(xs, key, k) == xs
  {
  }

  /** As written, adding an element whose ID is present duplicates the ID; the intended Add leaves the list as it was. */
  lemma AddAsWrittenDuplicates<T, K(!new)>(xs: seq<T>, x: T, key: T -> K)
    requires Contains(xs, key, key(x))
    ensures !Unique(AddAsWritten(xs, x, key), key)
    ensures Add(xs, x, key) == xs
  {
    LookupsAsWrittenNeverMatch(xs, x, key, key(x));
    var i :| 0 <= i < |xs| && key(xs[i]) == key(x);
    var r := xs + [x];
    assert r[i] == xs[i] && r[|xs|] == x;
  }
}
