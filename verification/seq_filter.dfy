/** Filtering a sequence, as `Array.prototype.filter` and the `filterAsync`
    helper do: the items a predicate keeps, in source order. The predicate
    receives each item's source position. */
module SeqFilter {

  /** The positions of the kept items, in ascending order. */
  function Kept<T>(src: seq<T>, keep: (T, nat) -> bool): (r: seq<nat>)
    ensures forall j :: 0 <= j < |r| ==> r[j] < |src| && keep(src[r[j]], r[j])
    ensures forall j, l :: 0 <= j < l < |r| ==> r[j] < r[l]
    ensures forall k :: 0 <= k < |src| && keep(src[k], k) ==> k in r
    decreases |src|
  {
    if |src| == 0 then []
    else
      var n := |src| - 1;
      var prefix := src[..n];
      var rest := Kept(prefix, keep);
      assert forall k :: 0 <= k < n ==> prefix[k] == src[k];
      rest + (if keep(src[n], n) then [n] else [])
  }

  /** The kept items: exactly the items at the kept positions, in order. */
  function Filter<T>(src: seq<T>, keep: (T, nat) -> bool): (r: seq<T>)
    ensures |r| == |Kept(src, keep)| <= |src|
    ensures forall j :: 0 <= j < |r| ==> r[j] == src[Kept(src, keep)[j]]
    decreases |src|
  {
    if |src| == 0 then []
    else
      var n := |src| - 1;
      var prefix := src[..n];
      var rest := Filter(prefix, keep);
      KeptBound(prefix, keep);
      assert forall j :: 0 <= j < |rest| ==> rest[j] == src[Kept(prefix, keep)[j]];
      rest + (if keep(src[n], n) then [src[n]] else [])
  }

  /** No more positions are kept than there are items. */
  lemma {:induction false} KeptBound<T>(src: seq<T>, keep: (T, nat) -> bool)
    ensures |Kept(src, keep)| <= |src|
    decreases |src|
  {
    if |src| > 0 {
      KeptBound(src[..|src| - 1], keep);
    }
  }

  /** An item is in the filtered sequence exactly when it sits at some
      position the predicate keeps. */
  lemma FilterMembers<T>(src: seq<T>, keep: (T, nat) -> bool)
    ensures forall x :: x in Filter(src, keep) <==> exists k :: 0 <= k < |src| && src[k] == x && keep(x, k)
  {
    var r := Filter(src, keep);
    var ks := Kept(src, keep);
    forall x | x in r
      ensures exists k :: 0 <= k < |src| && src[k] == x && keep(x, k)
    {
      var j :| 0 <= j < |r| && r[j] == x;
      assert src[ks[j]] == x && keep(x, ks[j]);
    }
    forall k | 0 <= k < |src| && keep(src[k], k)
      ensures src[k] in r
    {
      assert k in ks;
      var j :| 0 <= j < |ks| && ks[j] == k;
      assert r[j] == src[k];
    }
  }
}
