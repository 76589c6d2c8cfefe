/** `assertAsync` of `utils/async-iterable-helpers/assert.ts`: items are
    passed through in source order while the predicate holds; the first item
    that fails it raises the assertion error before it is yielded. The
    predicate receives the 0-based position. The sync and async variants have
    identical bodies and are modelled once. */
module AssertIterable {
  import opened Wrappers

  /** The items yielded and, when the assertion failed, the failing position. */
  datatype Drained<T> = Drained(yielded: seq<T>, failedAt: Option<nat>)

  function AssertFrom<T>(src: seq<T>, i: nat, keepItem: (T, nat) -> bool): (r: Drained<T>)
    requires i <= |src|
    ensures i + |r.yielded| <= |src| && r.yielded == src[i..i + |r.yielded|]
    ensures forall k :: i <= k < i + |r.yielded| ==> keepItem(src[k], k)
    ensures r.failedAt.None? ==> i + |r.yielded| == |src|
    ensures r.failedAt.Some? ==> r.failedAt.value == i + |r.yielded| < |src| && !keepItem(src[r.failedAt.value], r.failedAt.value)
    decreases |src| - i
  {
    if i == |src| then Drained([], None)
    else if !keepItem(src[i], i) then Drained([], Some(i))
    else
      var r := AssertFrom(src, i + 1, keepItem);
      Drained([src[i]] + r.yielded, r.failedAt)
  }

  function AssertAsync<T>(src: seq<T>, keepItem: (T, nat) -> bool): Drained<T> {
    AssertFrom(src, 0, keepItem)
  }

  /** The assertion fails exactly when some item fails the predicate, and
      otherwise the output is the input. */
  lemma FailsIffSomeItemFails<T>(src: seq<T>, keepItem: (T, nat) -> bool)
    ensures AssertAsync(src, keepItem).failedAt.None? <==> forall k :: 0 <= k < |src| ==> keepItem(src[k], k)
    ensures AssertAsync(src, keepItem).failedAt.None? ==> AssertAsync(src, keepItem).yielded == src
  {
    var r := AssertAsync(src, keepItem);
    assert src[0..|src|] == src;
  }
}
