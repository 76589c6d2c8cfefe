/** `reduceAsync` of `utils/async-iterable-helpers/reduce.ts`. Values are of
    one type `V` (the union of element and accumulator types); `nullish(v)`
    is the loose test `v == undefined`, true for `undefined` and `null`. A
    missing initial value is an `undefined` one. The sync and async paths have
    identical bodies and are modelled once. */
module Reduce {

  /** The accumulator and the index the next reducer call receives. */
  datatype State<V> = State(acc: V, index: nat)

  /** The loop body for one element. */
  function Absorb<V>(s: State<V>, x: V, reducer: (V, V, nat) -> V, nullish: V -> bool): State<V> {
    if nullish(s.acc) then State(x, s.index)
    else State(reducer(s.acc, x, s.index), s.index + 1)
  }

  function ReduceFrom<V>(src: seq<V>, s: State<V>, reducer: (V, V, nat) -> V, nullish: V -> bool): State<V>
    decreases |src|
  {
    if |src| == 0 then s
    else ReduceFrom(src[1..], Absorb(s, src[0], reducer, nullish), reducer, nullish)
  }

  /** The plain left fold, with the index of each call starting at `start`. */
  function FoldLeft<V>(src: seq<V>, acc: V, start: nat, f: (V, V, nat) -> V): V
    decreases |src|
  {
    if |src| == 0 then acc
    else FoldLeft(src[1..], f(acc, src[0], start), start + 1, f)
  }

  /** The source's `for` loop. */
  method ReduceAsync<V>(src: seq<V>, reducer: (V, V, nat) -> V, initialValue: V, nullish: V -> bool)
    returns (accumulator: V, calls: nat)
    ensures State(accumulator, calls) == ReduceFrom(src, State(initialValue, 0), reducer, nullish)
    ensures |src| == 0 ==> accumulator == initialValue
  {
    accumulator := initialValue;
    calls := 0;
    var i := 0;
    while i < |src|
      invariant 0 <= i <= |src|
      invariant ReduceFrom(src[i..], State(accumulator, calls), reducer, nullish)
             == ReduceFrom(src, State(initialValue, 0), reducer, nullish)
    {
      assert src[i..][1..] == src[i + 1..];
      if nullish(accumulator) {
        accumulator := src[i];
      } else {
        accumulator := reducer(accumulator, src[i], calls);
        calls := calls + 1;
      }
      i := i + 1;
    }
    assert src[i..] == [];
  }

  ghost predicate NeverNullish<V(!new)>(reducer: (V, V, nat) -> V, nullish: V -> bool) {
    forall a, x, k :: !nullish(reducer(a, x, k))
  }

  /** With a defined accumulator and a reducer that never returns `null` or
      `undefined`, the result is the left fold and every element costs one
      reducer call. */
  lemma {:induction false} DefinedIsFold<V(!new)>(src: seq<V>, s: State<V>, reducer: (V, V, nat) -> V, nullish: V -> bool)
    requires !nullish(s.acc) && NeverNullish(reducer, nullish)
    ensures ReduceFrom(src, s, reducer, nullish).acc == FoldLeft(src, s.acc, s.index, reducer)
    ensures ReduceFrom(src, s, reducer, nullish).index == s.index + |src|
    decreases |src|
  {
    if |src| > 0 {
      DefinedIsFold(src[1..], Absorb(s, src[0], reducer, nullish), reducer, nullish);
    }
  }

  /** A defined initial value: the left fold from it, indices `0, 1, ...`. */
  lemma WithInitialValue<V(!new)>(src: seq<V>, reducer: (V, V, nat) -> V, initialValue: V, nullish: V -> bool)
    requires !nullish(initialValue) && NeverNullish(reducer, nullish)
    ensures ReduceFrom(src, State(initialValue, 0), reducer, nullish).acc == FoldLeft(src, initialValue, 0, reducer)
  {
    DefinedIsFold(src, State(initialValue, 0), reducer, nullish);
  }

  /** No initial value: the first element becomes the accumulator without a
      reducer call, and the calls that follow are numbered from 0. */
  lemma WithoutInitialValue<V(!new)>(src: seq<V>, reducer: (V, V, nat) -> V, undefined: V, nullish: V -> bool)
    requires nullish(undefined) && |src| > 0 && !nullish(src[0]) && NeverNullish(reducer, nullish)
    ensures ReduceFrom(src, State(undefined, 0), reducer, nullish).acc == FoldLeft(src[1..], src[0], 0, reducer)
    ensures ReduceFrom(src, State(undefined, 0), reducer, nullish).index == |src| - 1
  {
    DefinedIsFold(src[1..], State(src[0], 0), reducer, nullish);
  }

  /** An accumulator that becomes `null` or `undefined` mid-sequence is
      replaced by the next element, again without a reducer call. */
  lemma NullishMidSequence<V>(a: V, b: V, c: V, reducer: (V, V, nat) -> V, nullish: V -> bool)
    requires !nullish(a) && nullish(reducer(a, b, 0))
    ensures ReduceFrom([b, c], State(a, 0), reducer, nullish) == State(c, 1)
  {
    var s1 := Absorb(State(a, 0), b, reducer, nullish);
    assert s1 == State(reducer(a, b, 0), 1);
    assert [b, c][1..] == [c];
    assert ReduceFrom([c], s1, reducer, nullish) == ReduceFrom([], State(c, 1), reducer, nullish);
  }
}
