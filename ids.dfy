/** The id discipline both handler sets share: a new record gets
    `max(existing ids, default=0) + 1`, and a delete removes the first record
    whose id matches, keeping the others in order. */
module IdList {
  import opened Common

  /** Python's `max(ids, default=0)`: 0 for no ids, otherwise the largest
      id (which may be negative if the file was edited by hand). */
  function MaxId(ids: seq<int>): (m: int)
    ensures ids == [] ==> m == 0
    ensures forall k :: 0 <= k < |ids| ==> ids[k] <= m
    ensures ids != [] ==> m in ids
  {
    if ids == [] then 0
    else if |ids| == 1 then ids[0]
    else
      var rest := MaxId(ids[1..]);
      if ids[0] >= rest then ids[0] else rest
  }

  /** The id a create hands out. */
  function NextId(ids: seq<int>): (n: int)
    ensures ids == [] ==> n == 1
    ensures forall k :: 0 <= k < |ids| ==> ids[k] < n
    ensures ids != [] ==> n - 1 in ids
  {
    MaxId(ids) + 1
  }

  /** The index of the first id equal to `target`, if any. */
  function FirstIndex(ids: seq<int>, target: int): (r: Option<nat>)
    ensures r.Some? ==> r.value < |ids| && ids[r.value] == target
    ensures r.Some? ==> forall k :: 0 <= k < r.value ==> ids[k] != target
    ensures r.None? <==> target !in ids
  {
    if ids == [] then None
    else if ids[0] == target then Some(0)
    else match FirstIndex(ids[1..], target)
      case None => None
      case Some(k) => Some(k + 1)
  }

  /** The linear scan of a delete handler: walk the list in order and stop at
      the first record whose id matches. */
  method FirstMatch(ids: seq<int>, target: int) returns (index: Option<nat>)
    ensures index == FirstIndex(ids, target)
  {
    var i := 0;
    while i < |ids|
      invariant 0 <= i <= |ids|
      invariant target !in ids[..i]
    {
      if ids[i] == target {
        return Some(i);
      }
      i := i + 1;
    }
    assert ids[..i] == ids;
    return None;
  }

  /** Python's `list.pop(i)` seen from the list: the element at `i` goes,
      the others keep their order. */
  function RemoveAt<T>(s: seq<T>, i: nat): (r: seq<T>)
    requires i < |s|
    ensures |r| == |s| - 1
    ensures forall k :: 0 <= k < i ==> r[k] == s[k]
    ensures forall k :: i <= k < |r| ==> r[k] == s[k + 1]
    ensures multiset(r) + multiset{s[i]} == multiset(s)
  {
    assert s == s[..i] + [s[i]] + s[i + 1..];
    s[..i] + s[i + 1..]
  }

  /** The ids of a list of records, in list order; `id` reads a record's
      id. */
  function Ids<R>(rs: seq<R>, id: R -> int): (ids: seq<int>)
    ensures |ids| == |rs| && forall k :: 0 <= k < |rs| ==> ids[k] == id(rs[k])
  {
    seq(|rs|, k requires 0 <= k < |rs| => id(rs[k]))
  }

  /** Appending a record appends its id. */
  lemma IdsAppend<R>(rs: seq<R>, r: R, id: R -> int)
    ensures Ids(rs + [r], id) == Ids(rs, id) + [id(r)]
  {
  }

  /** Popping a record pops the id at the same position. */
  lemma IdsRemoveAt<R>(rs: seq<R>, i: nat, id: R -> int)
    requires i < |rs|
    ensures Ids(RemoveAt(rs, i), id) == RemoveAt(Ids(rs, id), i)
  {
  }

  /** Ids that rise strictly in list order. */
  predicate Increasing(ids: seq<int>) {
    forall a, b :: 0 <= a < b < |ids| ==> ids[a] < ids[b]
  }

  predicate Distinct(ids: seq<int>) {
    forall a, b :: 0 <= a < |ids| && 0 <= b < |ids| && a != b ==> ids[a] != ids[b]
  }

  lemma IncreasingIsDistinct(ids: seq<int>)
    requires Increasing(ids)
    ensures Distinct(ids)
  {
    forall a, b | 0 <= a < |ids| && 0 <= b < |ids| && a != b
      ensures ids[a] != ids[b]
    {
      if a < b { assert ids[a] < ids[b]; } else { assert ids[b] < ids[a]; }
    }
  }

  /** A create keeps rising ids rising, and the new id is unused. */
  lemma AppendNextIdIncreasing(ids: seq<int>)
    requires Increasing(ids)
    ensures Increasing(ids + [NextId(ids)])
    ensures NextId(ids) !in ids
  {
    var s := ids + [NextId(ids)];
    forall a, b | 0 <= a < b < |s| ensures s[a] < s[b] {
      if b == |ids| { assert s[a] == ids[a]; } else { assert s[a] == ids[a] && s[b] == ids[b]; }
    }
  }

  /** A delete keeps rising ids rising. */
  lemma RemoveAtIncreasing(ids: seq<int>, i: nat)
    requires i < |ids| && Increasing(ids)
    ensures Increasing(RemoveAt(ids, i))
  {
    var r := RemoveAt(ids, i);
    forall a, b | 0 <= a < b < |r| ensures r[a] < r[b] {
      var a' := if a < i then a else a + 1;
      var b' := if b < i then b else b + 1;
      assert r[a] == ids[a'] && r[b] == ids[b'] && a' < b';
    }
  }

  /** Ids are reissued: creating a record and then deleting it makes the
      next create hand out the very same id again. */
  lemma {:induction false} DeletedMaxIsReissued(ids: seq<int>)
    ensures RemoveAt(ids + [NextId(ids)], |ids|) == ids
    ensures NextId(RemoveAt(ids + [NextId(ids)], |ids|)) == NextId(ids)
  {
    var s := ids + [NextId(ids)];
    var r := RemoveAt(s, |ids|);
    assert forall k :: 0 <= k < |ids| ==> r[k] == s[k] == ids[k];
  }

  /** A concrete instance: with ids 1, 2, 3, deleting 3 and creating again
      yields id 3 a second time. */
  lemma ReissueExample()
    ensures NextId([1, 2, 3]) == 4
    ensures NextId(RemoveAt([1, 2, 3], 2)) == 3
  {
    assert RemoveAt([1, 2, 3], 2) == [1, 2];
    assert MaxId([2, 3]) == 3 by { assert [2, 3][1..] == [3]; }
    assert [1, 2, 3][1..] == [2, 3];
    assert [1, 2][1..] == [2];
  }
}
