/** Plain JavaScript objects: the own enumerable properties of an object, in
    insertion order, as `Object.entries` lists them. Assignment to an existing
    property keeps its position; assignment to a new one appends it. */
module JsObject {
  import opened Wrappers

  type Object<V> = seq<(string, V)>

  function KeySet<V>(o: Object<V>): set<string>
  {
    if |o| == 0 then {} else {o[0].0} + KeySet(o[1..])
  }

  /** No property name occurs twice, as in every JavaScript object. */
  predicate DistinctKeys<V>(o: Object<V>)
  {
    |o| == 0 || (o[0].0 !in KeySet(o[1..]) && DistinctKeys(o[1..]))
  }

  lemma KeySetMembers<V>(o: Object<V>, k: string)
    ensures k in KeySet(o) <==> exists i :: 0 <= i < |o| && o[i].0 == k
  {
    if |o| > 0 {
      KeySetMembers(o[1..], k);
      if k in KeySet(o[1..]) {
        var i :| 0 <= i < |o[1..]| && o[1..][i].0 == k;
        assert o[i + 1].0 == k;
      }
      if exists i :: 0 <= i < |o| && o[i].0 == k {
        var i :| 0 <= i < |o| && o[i].0 == k;
        if i > 0 { assert o[1..][i - 1].0 == k; }
      }
    }
  }

  /** Objects with the same property names in the same order have the same
      key set, and one has distinct keys exactly when the other does. */
  lemma {:induction false} SameKeys<V, W>(a: Object<V>, b: Object<W>)
    requires |a| == |b| && forall i :: 0 <= i < |a| ==> a[i].0 == b[i].0
    ensures KeySet(a) == KeySet(b)
    ensures DistinctKeys(a) <==> DistinctKeys(b)
  {
    if |a| > 0 {
      SameKeys(a[1..], b[1..]);
    }
  }

  /** Property read; `None` is the `undefined` of a missing property. */
  function Lookup<V>(o: Object<V>, k: string): (r: Option<V>)
    ensures r.None? <==> k !in KeySet(o)
    ensures r.Some? ==> (k, r.value) in o
  {
    if |o| == 0 then None
    else if o[0].0 == k then Some(o[0].1)
    else Lookup(o[1..], k)
  }

  lemma LookupAt<V>(o: Object<V>, i: nat)
    requires DistinctKeys(o) && i < |o|
    ensures Lookup(o, o[i].0) == Some(o[i].1)
  {
    if i > 0 {
      LookupAt(o[1..], i - 1);
      KeySetMembers(o[1..], o[i].0);
    }
  }

  /** Property read on a two-property object literal. */
  lemma LookupPair<V>(k1: string, v1: V, k2: string, v2: V, k: string)
    requires k1 != k2
    ensures Lookup([(k1, v1), (k2, v2)], k) == if k == k1 then Some(v1) else if k == k2 then Some(v2) else None
  {
    assert [(k1, v1), (k2, v2)][1..] == [(k2, v2)];
    assert [(k2, v2)][1..] == [];
  }

  /** `o[k] = v`. */
  function Put<V>(o: Object<V>, k: string, v: V): (r: Object<V>)
    ensures KeySet(r) == KeySet(o) + {k}
    ensures Lookup(r, k) == Some(v)
    ensures forall k' :: k' != k ==> Lookup(r, k') == Lookup(o, k')
    ensures DistinctKeys(o) ==> DistinctKeys(r)
    ensures k in KeySet(o) ==> |r| == |o|
    ensures k !in KeySet(o) ==> r == o + [(k, v)]
  {
    if |o| == 0 then [(k, v)]
    else if o[0].0 == k then
      var r := [(k, v)] + o[1..];
      assert r[1..] == o[1..];
      r
    else
      var rest := Put(o[1..], k, v);
      var r := [o[0]] + rest;
      assert r[0] == o[0] && r[1..] == rest;
      r
  }

  /** The object `rest` of a destructuring `const { k, ...rest } = o`. */
  function Remove<V>(o: Object<V>, k: string): (r: Object<V>)
    ensures KeySet(r) == KeySet(o) - {k}
    ensures forall k' :: k' != k ==> Lookup(r, k') == Lookup(o, k')
    ensures DistinctKeys(o) ==> DistinctKeys(r)
    ensures k !in KeySet(o) ==> r == o
  {
    if |o| == 0 then []
    else
      var rest := Remove(o[1..], k);
      if o[0].0 == k then rest
      else
        var r := [o[0]] + rest;
        assert r[0] == o[0] && r[1..] == rest;
        r
  }

  /** `{ ...a, ...b }`: every property of `b` assigned onto `a`, in order. */
  function Spread<V>(a: Object<V>, b: Object<V>): (r: Object<V>)
    ensures KeySet(r) == KeySet(a) + KeySet(b)
    ensures DistinctKeys(a) ==> DistinctKeys(r)
    ensures forall k :: k !in KeySet(b) ==> Lookup(r, k) == Lookup(a, k)
    decreases |b|
  {
    if |b| == 0 then a
    else Spread(Put(a, b[0].0, b[0].1), b[1..])
  }

  lemma SpreadLookup<V>(a: Object<V>, b: Object<V>, k: string)
    requires DistinctKeys(b) && k in KeySet(b)
    ensures Lookup(Spread(a, b), k) == Lookup(b, k)
    decreases |b|
  {
    if b[0].0 != k {
      SpreadLookup(Put(a, b[0].0, b[0].1), b[1..], k);
    }
  }

  /** A property of `{ ...a, ...b }` comes from `b` when `b` has it and from
      `a` otherwise. */
  lemma SpreadLookupAll<V>(a: Object<V>, b: Object<V>, k: string)
    requires DistinctKeys(b)
    ensures Lookup(Spread(a, b), k) == if k in KeySet(b) then Lookup(b, k) else Lookup(a, k)
  {
    if k in KeySet(b) {
      SpreadLookup(a, b, k);
    }
  }

  lemma AppendFirst<V>(a: Object<V>, b: Object<V>)
    requires DistinctKeys(b) && KeySet(a) !! KeySet(b) && |b| > 0
    ensures Put(a, b[0].0, b[0].1) + b[1..] == a + b
    ensures KeySet(Put(a, b[0].0, b[0].1)) !! KeySet(b[1..])
  {
    assert b[0].0 !in KeySet(a);
    var a' := Put(a, b[0].0, b[0].1);
    assert a' == a + [b[0]];
    assert a' + b[1..] == a + ([b[0]] + b[1..]);
    assert [b[0]] + b[1..] == b;
    assert KeySet(a') == KeySet(a) + {b[0].0};
  }

  /** Spreading an object whose properties are all new appends them in
      order. */
  lemma {:induction false} SpreadDisjoint<V>(a: Object<V>, b: Object<V>)
    requires DistinctKeys(b) && KeySet(a) !! KeySet(b)
    ensures Spread(a, b) == a + b
    decreases |b|
  {
    if |b| > 0 {
      var a' := Put(a, b[0].0, b[0].1);
      AppendFirst(a, b);
      SpreadDisjoint(a', b[1..]);
    }
  }
}

/** JavaScript values as the query, document and serializer code sees them. */
module JsValue {
  import opened Wrappers
  import JsObject

  datatype Json =
    | Undefined
    | Null
    | Bool(b: bool)
    | Num(n: int)
    | Str(s: string)
    | Arr(items: seq<Json>)
    | Obj(entries: seq<(string, Json)>)

  /** `isPrimitive` of the utilities: everything that is neither array nor object. */
  predicate IsPrimitive(v: Json) {
    !v.Arr? && !v.Obj?
  }

  /** The loose comparison `v == undefined`, which holds for `null` too. */
  predicate IsNullish(v: Json) {
    v.Undefined? || v.Null?
  }

  /** Property read `o[k]` on an object value: `undefined` when missing. */
  function Get(o: JsObject.Object<Json>, k: string): Json {
    JsObject.Lookup(o, k).GetOr(Undefined)
  }

  const TypeErrorMessage := "TypeError"

  /** Own property read on any value: objects yield the property, every
      other value yields `undefined`. */
  function Prop(v: Json, k: string): Json {
    if v.Obj? then Get(v.entries, k) else Undefined
  }

  /** `Object.prototype.hasOwnProperty.call(v, k)` for a non-index key `k`;
      `None` when `v` is `null` or `undefined`, for which the call throws. */
  function HasOwn(v: Json, k: string): (r: Option<bool>)
    ensures r.None? <==> IsNullish(v)
    ensures r == Some(true) <==> v.Obj? && k in JsObject.KeySet(v.entries)
  {
    if IsNullish(v) then None else Some(v.Obj? && k in JsObject.KeySet(v.entries))
  }

  predicate IsDigit(c: char) {
    '0' <= c <= '9'
  }

  /** An array index as a property name: a non-empty run of decimal digits. */
  predicate IsIndexKey(k: string) {
    |k| > 0 && forall i :: 0 <= i < |k| ==> IsDigit(k[i])
  }

  /** The decimal digits of `n`, without leading zeros. */
  function DecimalDigits(n: nat): (r: string)
    ensures IsIndexKey(r)
    ensures |r| > 1 ==> r[0] != '0'
    decreases n
  {
    var digit := ['0' + (n % 10) as char];
    if n < 10 then digit
    else
      var r := DecimalDigits(n / 10) + digit;
      assert r[0] == DecimalDigits(n / 10)[0];
      r
  }

  lemma {:induction false} DecimalDigitsValue(n: nat)
    ensures DigitsValue(DecimalDigits(n)) == n
    decreases n
  {
    if n >= 10 {
      var prefix := DecimalDigits(n / 10);
      var r := prefix + ['0' + (n % 10) as char];
      assert r[..|r| - 1] == prefix;
      DecimalDigitsValue(n / 10);
    }
  }

  /** The number a run of decimal digits denotes. */
  function DigitsValue(k: string): nat
    requires forall i :: 0 <= i < |k| ==> IsDigit(k[i])
    decreases |k|
  {
    if |k| == 0 then 0
    else
      assert IsDigit(k[|k| - 1]);
      10 * DigitsValue(k[..|k| - 1]) + (k[|k| - 1] as int - '0' as int)
  }

  /** `Object.entries` of an array or a string: index keys in ascending
      order. */
  function IndexEntries(items: seq<Json>): (r: JsObject.Object<Json>)
    ensures |r| == |items|
    ensures forall i :: 0 <= i < |r| ==> r[i] == (DecimalDigits(i), items[i])
  {
    seq(|items|, i requires 0 <= i < |items| => (DecimalDigits(i), items[i]))
  }

  /** `Object.entries(v)`: the entries of an object, the indexed entries of
      an array or string, none for a number or boolean; `null` and
      `undefined` throw. */
  function Entries(v: Json): (r: Result<JsObject.Object<Json>, string>)
    ensures r.Err? <==> IsNullish(v)
    ensures v.Obj? ==> r == Ok(v.entries)
    ensures r.Ok? && !v.Obj? ==> forall i :: 0 <= i < |r.value| ==> IsIndexKey(r.value[i].0)
  {
    match v
    case Undefined => Err(TypeErrorMessage)
    case Null => Err(TypeErrorMessage)
    case Bool(_) => Ok([])
    case Num(_) => Ok([])
    case Str(s) => Ok(IndexEntries(seq(|s|, i requires 0 <= i < |s| => Str([s[i]]))))
    case Arr(items) => Ok(IndexEntries(items))
    case Obj(entries) => Ok(entries)
  }

  /** `getPropertyName` of both query converters: `id` is stored as
      `_id`. */
  function PropertyName(property: string): (r: string)
    ensures r == "_id" <==> property == "id" || property == "_id"
    ensures property != "id" ==> r == property
  {
    if property == "id" then "_id" else property
  }

  /** The logical operators of the repository query language. */
  predicate IsLogical(property: string) {
    property == "$and" || property == "$or" || property == "$nor"
  }
}
