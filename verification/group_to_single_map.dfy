/** `groupToSingleMapAsync` of `utils/async-iterable-helpers/group-to-single-map.ts`:
    every item is stored under the key its selector returns, and a second item
    for a key already present is an error. The sync and async variants have
    identical bodies and are modelled once. */
module GroupToSingleMap {
  import opened Wrappers

  const DuplicateMessage := "group has more than one items"

  /** Two positions of `src` whose items the selector sends to one key. */
  ghost predicate HasDuplicateKey<T, K>(src: seq<T>, selector: (T, nat) -> K) {
    exists i, j :: 0 <= i < j < |src| && selector(src[i], i) == selector(src[j], j)
  }

  method GroupToSingleMapAsync<T, K>(src: seq<T>, selector: (T, nat) -> K) returns (r: Result<map<K, T>, string>)
    ensures r.Err? <==> HasDuplicateKey(src, selector)
    ensures r.Err? ==> r.error == DuplicateMessage
    ensures r.Ok? ==> |r.value| == |src|
    ensures r.Ok? ==> forall i :: 0 <= i < |src| ==> selector(src[i], i) in r.value && r.value[selector(src[i], i)] == src[i]
    ensures r.Ok? ==> forall k :: k in r.value ==> exists i :: 0 <= i < |src| && selector(src[i], i) == k
  {
    var m: map<K, T> := map[];
    var index := 0;
    while index < |src|
      invariant 0 <= index <= |src|
      invariant |m| == index
      invariant forall i :: 0 <= i < index ==> selector(src[i], i) in m && m[selector(src[i], i)] == src[i]
      invariant forall k :: k in m ==> exists i :: 0 <= i < index && selector(src[i], i) == k
      invariant forall i, j :: 0 <= i < j < index ==> selector(src[i], i) != selector(src[j], j)
    {
      var item := src[index];
      var groupKey := selector(item, index);
      if groupKey in m {
        var i :| 0 <= i < index && selector(src[i], i) == groupKey;
        assert selector(src[i], i) == selector(src[index], index);
        return Err(DuplicateMessage);
      }
      m := m[groupKey := item];
      index := index + 1;
    }
    return Ok(m);
  }
}
