/** `lastOrDefaultAsync` of `utils/async-iterable-helpers/last-or-default.ts`:
    the last item (of those the optional predicate keeps), or the default when
    none is left. The predicate receives the item's source position. An item
    that is itself `undefined` still counts as found, so the model asks whether
    an item was found, not what its value is. */
module LastOrDefault {
  import opened Wrappers
  import opened SeqFilter

  /** The position of the last item the predicate keeps. */
  function LastKept<T>(src: seq<T>, keepItem: (T, nat) -> bool): (r: Option<nat>)
    ensures r.None? <==> forall k :: 0 <= k < |src| ==> !keepItem(src[k], k)
    ensures r.Some? ==> r.value < |src| && keepItem(src[r.value], r.value)
    ensures r.Some? ==> forall k :: r.value < k < |src| ==> !keepItem(src[k], k)
    decreases |src|
  {
    if |src| == 0 then None
    else if keepItem(src[|src| - 1], |src| - 1) then Some(|src| - 1)
    else LastKept(src[..|src| - 1], keepItem)
  }

  /** The source's loop over the (filtered) sequence. */
  method LastOrDefaultAsync<T>(src: seq<T>, defaultValue: T, filter: Option<(T, nat) -> bool>) returns (r: T)
    ensures var keep := filter.GetOr((x: T, k: nat) => true);
      match LastKept(src, keep)
      case None => r == defaultValue
      case Some(k) => r == src[k]
  {
    var keep := filter.GetOr((x: T, k: nat) => true);
    var hasLastItem := false;
    var lastItem := defaultValue;
    ghost var lastIndex := 0;
    var i := 0;
    while i < |src|
      invariant 0 <= i <= |src|
      invariant hasLastItem <==> exists k :: 0 <= k < i && keep(src[k], k)
      invariant hasLastItem ==> lastIndex < i && keep(src[lastIndex], lastIndex) && lastItem == src[lastIndex]
      invariant hasLastItem ==> forall k :: lastIndex < k < i ==> !keep(src[k], k)
    {
      if keep(src[i], i) {
        hasLastItem := true;
        lastItem := src[i];
        lastIndex := i;
      }
      i := i + 1;
    }
    if hasLastItem {
      r := lastItem;
    } else {
      r := defaultValue;
    }
  }

  /** The position found by `LastKept` is the last item of the filtered
      sequence, which the source's loop ends on. */
  lemma LastKeptIsLastFiltered<T>(src: seq<T>, keepItem: (T, nat) -> bool)
    ensures LastKept(src, keepItem).None? <==> Filter(src, keepItem) == []
    ensures LastKept(src, keepItem).Some? ==> Filter(src, keepItem)[|Filter(src, keepItem)| - 1] == src[LastKept(src, keepItem).value]
  {
    var last := LastKept(src, keepItem);
    if last.Some? {
      LastKeptIsLastPosition(src, keepItem);
      var r := Filter(src, keepItem);
      var n := |r| - 1;
      assert r[n] == src[Kept(src, keepItem)[n]];
    }
  }

  /** `LastKept` is the last of the kept positions. */
  lemma LastKeptIsLastPosition<T>(src: seq<T>, keepItem: (T, nat) -> bool)
    requires LastKept(src, keepItem).Some?
    ensures var ks := Kept(src, keepItem);
      |ks| > 0 && ks[|ks| - 1] == LastKept(src, keepItem).value
  {
    var ks := Kept(src, keepItem);
    var last := LastKept(src, keepItem).value;
    assert last in ks;
    var j :| 0 <= j < |ks| && ks[j] == last;
    var n := |ks| - 1;
    assert keepItem(src[ks[n]], ks[n]);
    assert j == n;
  }

  /** Without a predicate the result is the last element, or the default for
      an empty source. */
  lemma WithoutPredicate<T>(src: seq<T>)
    ensures LastKept(src, (x: T, k: nat) => true) == if |src| == 0 then None else Some(|src| - 1)
  {
  }
}
