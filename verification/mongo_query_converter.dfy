/** `convertQuery` and `convertSort` of `mongo/src/query-converter.ts`:
    rewriting a repository query into a MongoDB filter. Each property is
    renamed through the transformer mapping map (`id` becomes `_id`), its
    value passed through the mapping's transform, and nested objects and the
    logical operators converted recursively. The set of comparison operators
    (`allComparisonQueryTypes`) is a parameter. Because a transform may return
    a value larger than its input, recursion is bounded by `fuel`. */
module MongoQueryConverter {
  import opened Wrappers
  import opened JsValue
  import JsObject

  /** A transformer mapping: the database property name and the value
      transform. */
  datatype Mapping = Mapping(key: string, transform: Json -> Json)

  type MappingMap = map<string, Mapping>

  const OutOfFuel := "out of fuel"

  function UnsupportedMessage(property: string): string {
    "unsupported query property " + property
  }

  /** `isObject`: `typeof value == 'object'` and not `null`, which includes
      arrays. */
  predicate IsObject(v: Json) {
    v.Obj? || v.Arr?
  }

  /** The property name and value of one entry after the mapping. */
  function Mapped(raw: string, rawValue: Json, mm: MappingMap): (r: (string, Json))
    ensures raw !in mm ==> r == (PropertyName(raw), rawValue)
    ensures raw in mm ==> r == (PropertyName(mm[raw].key), mm[raw].transform(rawValue))
  {
    if raw in mm then (PropertyName(mm[raw].key), mm[raw].transform(rawValue))
    else (PropertyName(raw), rawValue)
  }

  /** `convertQuery` applied to any value: its entries converted into a
      fresh filter. `fixed` selects the corrected logical conversion; the
      code as written is `fixed == false`. */
  function Convert(fuel: nat, v: Json, mm: MappingMap, ops: set<string>, fixed: bool): (r: Result<JsObject.Object<Json>, string>)
    ensures IsNullish(v) ==> r == Err(TypeErrorMessage)
    decreases fuel, 3, 0
  {
    match Entries(v)
    case Err(e) => Err(e)
    case Ok(entries) => ConvertEntries(fuel, entries, mm, ops, fixed, [])
  }

  /** The loop over `Object.entries(query)`, assigning into `filterQuery`. */
  function ConvertEntries(fuel: nat, entries: JsObject.Object<Json>, mm: MappingMap, ops: set<string>, fixed: bool, filter: JsObject.Object<Json>): (r: Result<JsObject.Object<Json>, string>)
    ensures r.Ok? ==> JsObject.KeySet(r.value) == JsObject.KeySet(filter) + OutputNames(entries, mm)
    ensures r.Ok? && JsObject.DistinctKeys(filter) ==> JsObject.DistinctKeys(r.value)
    decreases fuel, 2, |entries|
  {
    if |entries| == 0 then Ok(filter)
    else
      var (property, value) := Mapped(entries[0].0, entries[0].1, mm);
      var converted := ConvertProperty(fuel, property, value, mm, ops, fixed);
      match converted
      case Err(e) => Err(e)
      case Ok(out) => ConvertEntries(fuel, entries[1..], mm, ops, fixed, JsObject.Put(filter, PropertyName(property), out))
  }

  /** The names the converted entries are stored under. */
  function OutputNames(entries: JsObject.Object<Json>, mm: MappingMap): set<string>
    decreases |entries|
  {
    if |entries| == 0 then {} else {PropertyName(Mapped(entries[0].0, entries[0].1, mm).0)} + OutputNames(entries[1..], mm)
  }

  /** The value stored for one (renamed, transformed) property. */
  function ConvertProperty(fuel: nat, property: string, value: Json, mm: MappingMap, ops: set<string>, fixed: bool): (r: Result<Json, string>)
    ensures IsPrimitive(value) ==> r == Ok(value)
    ensures !IsPrimitive(value) && !IsLogical(property) && property in ops ==> r == Ok(value)
    ensures r.Ok? && IsLogical(property) && !IsPrimitive(value) ==> r.value.Arr?
    ensures !IsPrimitive(value) && !IsLogical(property) && property !in ops ==>
      && (r.Ok? <==> fuel > 0 && Convert(fuel - 1, value, mm, ops, fixed).Ok?)
      && (r.Ok? ==> r.value == Obj(Convert(fuel - 1, value, mm, ops, fixed).value))
    decreases fuel, 1, 0
  {
    if IsPrimitive(value) then Ok(value)
    else if IsLogical(property) then
      var items := if fixed then LogicalItemsFixed(value) else LogicalItemsAsWritten(value, property);
      match items
      case None => Err(TypeErrorMessage)
      case Some(queries) =>
        match ConvertAll(fuel, queries, mm, ops, fixed)
        case Err(e) => Err(e)
        case Ok(filters) => Ok(Arr(filters))
    else if property in ops then Ok(value)
    else if IsObject(value) then
      if fuel == 0 then Err(OutOfFuel)
      else
        match Convert(fuel - 1, value, mm, ops, fixed)
        case Err(e) => Err(e)
        case Ok(filter) => Ok(Obj(filter))
    else Err(UnsupportedMessage(property))
  }

  /** The name one query entry is stored under. */
  function OutName(e: (string, Json), mm: MappingMap): string {
    PropertyName(Mapped(e.0, e.1, mm).0)
  }

  /** The value computed for one query entry. */
  function Converted(fuel: nat, e: (string, Json), mm: MappingMap, ops: set<string>, fixed: bool): Result<Json, string> {
    var (property, value) := Mapped(e.0, e.1, mm);
    ConvertProperty(fuel, property, value, mm, ops, fixed)
  }

  /** The position of the last entry stored under `k`, which is the one whose
      value the filter keeps. */
  function LastNamed(entries: JsObject.Object<Json>, mm: MappingMap, k: string): (r: Option<nat>)
    ensures r.None? <==> forall j :: 0 <= j < |entries| ==> OutName(entries[j], mm) != k
    ensures r.Some? ==> r.value < |entries| && OutName(entries[r.value], mm) == k
    ensures r.Some? ==> forall j :: r.value < j < |entries| ==> OutName(entries[j], mm) != k
    decreases |entries|
  {
    if |entries| == 0 then None
    else
      var rest := LastNamed(entries[1..], mm, k);
      assert forall j :: 1 <= j < |entries| ==> entries[j] == entries[1..][j - 1];
      match rest
      case Some(j) => Some(j + 1)
      case None => if OutName(entries[0], mm) == k then Some(0) else None
  }

  /** The conversion succeeds exactly when every entry converts. */
  lemma {:induction false} ConvertsIffAll(fuel: nat, entries: JsObject.Object<Json>, mm: MappingMap, ops: set<string>, fixed: bool, filter: JsObject.Object<Json>)
    ensures ConvertEntries(fuel, entries, mm, ops, fixed, filter).Ok?
      <==> forall j :: 0 <= j < |entries| ==> Converted(fuel, entries[j], mm, ops, fixed).Ok?
    decreases |entries|
  {
    if |entries| > 0 {
      var first := Converted(fuel, entries[0], mm, ops, fixed);
      if first.Ok? {
        var filter' := JsObject.Put(filter, OutName(entries[0], mm), first.value);
        ConvertsIffAll(fuel, entries[1..], mm, ops, fixed, filter');
        assert forall j :: 1 <= j < |entries| ==> entries[j] == entries[1..][j - 1];
      }
    }
  }

  /** After a successful conversion each name holds the value of the last
      entry stored under it; a name no entry is stored under keeps what the
      filter had. */
  lemma {:induction false} ConvertedValues(fuel: nat, entries: JsObject.Object<Json>, mm: MappingMap, ops: set<string>, fixed: bool, filter: JsObject.Object<Json>, k: string)
    ensures var r := ConvertEntries(fuel, entries, mm, ops, fixed, filter);
      r.Ok? ==> (match LastNamed(entries, mm, k)
        case None => JsObject.Lookup(r.value, k) == JsObject.Lookup(filter, k)
        case Some(j) =>
          var c := Converted(fuel, entries[j], mm, ops, fixed);
          c.Ok? && JsObject.Lookup(r.value, k) == Some(c.value))
    decreases |entries|
  {
    if |entries| > 0 {
      var first := Converted(fuel, entries[0], mm, ops, fixed);
      if first.Ok? {
        var filter' := JsObject.Put(filter, OutName(entries[0], mm), first.value);
        ConvertedValues(fuel, entries[1..], mm, ops, fixed, filter', k);
        var rest := LastNamed(entries[1..], mm, k);
        if rest.Some? {
          assert entries[rest.value + 1] == entries[1..][rest.value];
        }
      }
    }
  }

  /** `convertLogicalAndQuery(value, ...)` as called at lines 25-31: `value`
      is the operand array itself, but the converter reads `value.$and`
      (or `$or`, `$nor`) from it and maps over that; `None` is the TypeError
      thrown when that is not an array. */
  function LogicalItemsAsWritten(value: Json, operator: string): (r: Option<seq<Json>>)
    ensures value.Arr? ==> r.None?
  {
    match Prop(value, operator)
    case Arr(items) => Some(items)
    case _ => None
  }

  /** The operand array mapped over directly. */
  function LogicalItemsFixed(value: Json): (r: Option<seq<Json>>)
    ensures r.Some? <==> value.Arr?
  {
    if value.Arr? then Some(value.items) else None
  }

  /** `.map((query) => convertQuery(query, mapping))`: every sub-query
      converted, in order; the first failure is thrown. */
  function ConvertAll(fuel: nat, queries: seq<Json>, mm: MappingMap, ops: set<string>, fixed: bool): (r: Result<seq<Json>, string>)
    ensures r.Ok? ==> |r.value| == |queries|
    ensures r.Ok? ==> forall j :: 0 <= j < |queries| ==> fuel > 0 && r.value[j].Obj? && Convert(fuel - 1, queries[j], mm, ops, fixed) == Ok(r.value[j].entries)
    decreases fuel, 0, |queries|
  {
    if |queries| == 0 then Ok([])
    else if fuel == 0 then Err(OutOfFuel)
    else
      match Convert(fuel - 1, queries[0], mm, ops, fixed)
      case Err(e) => Err(e)
      case Ok(first) =>
        match ConvertAll(fuel, queries[1..], mm, ops, fixed)
        case Err(e) => Err(e)
        case Ok(rest) =>
          var r := [Obj(first)] + rest;
          forall j | 1 <= j < |queries|
            ensures r[j].Obj? && Convert(fuel - 1, queries[j], mm, ops, fixed) == Ok(r[j].entries)
          {
            assert queries[j] == queries[1..][j - 1] && r[j] == rest[j - 1];
          }
          Ok(r)
  }

  /** The code as written. */
  function ConvertQueryAsWritten(fuel: nat, query: JsObject.Object<Json>, mm: MappingMap, ops: set<string>): Result<JsObject.Object<Json>, string> {
    ConvertEntries(fuel, query, mm, ops, false, [])
  }

  /** The conversion with the logical operands mapped over directly. */
  function ConvertQuery(fuel: nat, query: JsObject.Object<Json>, mm: MappingMap, ops: set<string>): Result<JsObject.Object<Json>, string> {
    ConvertEntries(fuel, query, mm, ops, true, [])
  }

  /** Keys of the filter are exactly the renamed keys of the query, and no
      key appears twice. */
  lemma ConvertedKeys(fuel: nat, query: JsObject.Object<Json>, mm: MappingMap, ops: set<string>)
    ensures var r := ConvertQuery(fuel, query, mm, ops);
      r.Ok? ==> JsObject.KeySet(r.value) == OutputNames(query, mm) && JsObject.DistinctKeys(r.value)
  {
  }

  /** A one-property query: the converted value under the renamed
      property. */
  lemma SingleEntry(fuel: nat, k: string, v: Json, mm: MappingMap, ops: set<string>, fixed: bool)
    ensures var (property, value) := Mapped(k, v, mm);
      ConvertEntries(fuel, [(k, v)], mm, ops, fixed, []) ==
        match ConvertProperty(fuel, property, value, mm, ops, fixed)
        case Err(e) => Err(e)
        case Ok(out) => Ok([(PropertyName(property), out)])
  {
    assert [(k, v)][1..] == [];
    var (property, value) := Mapped(k, v, mm);
    match ConvertProperty(fuel, property, value, mm, ops, fixed)
    case Err(e) =>
    case Ok(out) =>
      var f := JsObject.Put([], PropertyName(property), out);
      assert f == [(PropertyName(property), out)];
      assert ConvertEntries(fuel, [], mm, ops, fixed, f) == Ok(f);
  }

  /** An unmapped primitive property is copied under its own name, `id`
      becoming `_id`. */
  lemma PrimitiveCopied(fuel: nat, k: string, v: Json, mm: MappingMap, ops: set<string>)
    requires k !in mm && IsPrimitive(v)
    ensures ConvertQuery(fuel, [(k, v)], mm, ops) == Ok([(PropertyName(k), v)])
    ensures ConvertQueryAsWritten(fuel, [(k, v)], mm, ops) == Ok([(PropertyName(k), v)])
  {
    SingleEntry(fuel, k, v, mm, ops, true);
    SingleEntry(fuel, k, v, mm, ops, false);
  }

  /** A mapped property is renamed to the mapping's key and its value
      transformed before any other rule applies. */
  lemma MappedFirst(fuel: nat, k: string, v: Json, mm: MappingMap, ops: set<string>)
    requires k in mm && IsPrimitive(mm[k].transform(v))
    ensures ConvertQuery(fuel, [(k, v)], mm, ops) == Ok([(PropertyName(mm[k].key), mm[k].transform(v))])
  {
    SingleEntry(fuel, k, v, mm, ops, true);
  }

  /** A comparison operator keeps its operand untouched. */
  lemma ComparisonKept(fuel: nat, op: string, v: Json, mm: MappingMap, ops: set<string>)
    requires op !in mm && op in ops && !IsLogical(op) && op != "id"
    ensures ConvertQuery(fuel, [(op, v)], mm, ops) == Ok([(op, v)])
  {
    SingleEntry(fuel, op, v, mm, ops, true);
  }

  /** `{ $and: [q1, ..., qn] }`: as written the conversion reads `$and` of
      the operand array and throws; corrected, each sub-query is converted
      in order. */
  lemma LogicalAsWrittenThrows(fuel: nat, op: string, items: seq<Json>, mm: MappingMap, ops: set<string>)
    requires IsLogical(op) && op !in mm
    ensures ConvertQueryAsWritten(fuel, [(op, Arr(items))], mm, ops) == Err(TypeErrorMessage)
  {
    SingleEntry(fuel, op, Arr(items), mm, ops, false);
  }

  lemma LogicalFixedConverts(fuel: nat, op: string, items: seq<Json>, mm: MappingMap, ops: set<string>)
    requires IsLogical(op) && op !in mm
    ensures var r := ConvertQuery(fuel, [(op, Arr(items))], mm, ops);
      r.Ok? <==> ConvertAll(fuel, items, mm, ops, true).Ok?
    ensures var r := ConvertQuery(fuel, [(op, Arr(items))], mm, ops);
      r.Ok? ==> r.value == [(op, Arr(ConvertAll(fuel, items, mm, ops, true).value))]
  {
    SingleEntry(fuel, op, Arr(items), mm, ops, true);
  }

  /** `{ $and: [{ id: 1 }, { name: "x" }] }` with no mappings. */
  lemma AndExample(fuel: nat, ops: set<string>)
    requires fuel >= 1
    ensures ConvertQuery(fuel, [("$and", Arr([Obj([("id", Num(1))]), Obj([("name", Str("x"))])]))], map[], ops)
      == Ok([("$and", Arr([Obj([("_id", Num(1))]), Obj([("name", Str("x"))])]))])
    ensures ConvertQueryAsWritten(fuel, [("$and", Arr([Obj([("id", Num(1))]), Obj([("name", Str("x"))])]))], map[], ops)
      == Err(TypeErrorMessage)
  {
    var items := [Obj([("id", Num(1))]), Obj([("name", Str("x"))])];
    var m: MappingMap := map[];
    AndItemsConverted(fuel, ops);
    SingleEntry(fuel, "$and", Arr(items), m, ops, true);
    SingleEntry(fuel, "$and", Arr(items), m, ops, false);
  }

  /** The two sub-queries of the `$and` example, converted one by one. */
  lemma AndItemsConverted(fuel: nat, ops: set<string>)
    requires fuel >= 1
    ensures ConvertAll(fuel, [Obj([("id", Num(1))]), Obj([("name", Str("x"))])], map[], ops, true)
      == Ok([Obj([("_id", Num(1))]), Obj([("name", Str("x"))])])
  {
    var items := [Obj([("id", Num(1))]), Obj([("name", Str("x"))])];
    var m: MappingMap := map[];
    SingleEntry(fuel - 1, "id", Num(1), m, ops, true);
    SingleEntry(fuel - 1, "name", Str("x"), m, ops, true);
    assert Convert(fuel - 1, items[0], m, ops, true) == Ok([("_id", Num(1))]);
    assert Convert(fuel - 1, items[1], m, ops, true) == Ok([("name", Str("x"))]);
    assert ConvertAll(fuel, [], m, ops, true) == Ok([]);
    ConvertAllCons(fuel, items[1], [], m, ops, true);
    assert [items[1]] + [] == items[1..];
    ConvertAllCons(fuel, items[0], items[1..], m, ops, true);
    assert [items[0]] + items[1..] == items;
    assert [Obj([("_id", Num(1))])] + ([Obj([("name", Str("x"))])] + []) == [Obj([("_id", Num(1))]), Obj([("name", Str("x"))])];
  }

  /** Converting one more sub-query in front. */
  lemma ConvertAllCons(fuel: nat, query: Json, queries: seq<Json>, mm: MappingMap, ops: set<string>, fixed: bool)
    requires fuel > 0 && Convert(fuel - 1, query, mm, ops, fixed).Ok? && ConvertAll(fuel, queries, mm, ops, fixed).Ok?
    ensures ConvertAll(fuel, [query] + queries, mm, ops, fixed)
      == Ok([Obj(Convert(fuel - 1, query, mm, ops, fixed).value)] + ConvertAll(fuel, queries, mm, ops, fixed).value)
  {
    assert ([query] + queries)[1..] == queries;
  }

  /** `Sort`: a field and an optional order. */
  datatype Sort = Sort(field: string, order: Option<string>)

  /** `convertSort`: the field through the mapping's key (no `id` rename)
      and -1 for `'desc'`, 1 otherwise. */
  function ConvertSort(sort: Sort, mm: MappingMap): (r: (string, int))
    ensures r.1 == -1 <==> sort.order == Some("desc")
    ensures r.1 == 1 || r.1 == -1
    ensures sort.field in mm ==> r.0 == mm[sort.field].key
    ensures sort.field !in mm ==> r.0 == sort.field
  {
    var field := if sort.field in mm then mm[sort.field].key else sort.field;
    (field, if sort.order == Some("desc") then -1 else 1)
  }
}
