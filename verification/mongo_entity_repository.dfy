/** The pure parts of `MongoEntityRepository`
    (`base/source/database/mongo/mongo-entity-repository.ts`): reconciling
    the configured indexes with those the collection reports, normalising
    index descriptions, turning an entity patch into a `$set` update, and
    converting query options. Deep equality of index descriptions (the
    `equals` utility) is a parameter; the driver calls are left out. */
module MongoEntityRepository {
  import opened Wrappers
  import opened JsValue
  import JsObject
  import MongoQueryConverter
  import SeqFilter

  /** An index description as a plain object. */
  type Index = JsObject.Object<Json>

  /** The properties the server adds to an index description. */
  predicate IsServerProperty(k: string) {
    k == "v" || k == "background" || k == "ns"
  }

  /** `normalizeIndex`: the description without `v`, `background` and
      `ns`. */
  function NormalizeIndex(index: Index): (r: Index)
    ensures JsObject.KeySet(r) == JsObject.KeySet(index) - {"v", "background", "ns"}
    ensures forall k :: !IsServerProperty(k) ==> JsObject.Lookup(r, k) == JsObject.Lookup(index, k)
    ensures JsObject.DistinctKeys(index) ==> JsObject.DistinctKeys(r)
  {
    JsObject.Remove(JsObject.Remove(JsObject.Remove(index, "v"), "background"), "ns")
  }

  /** Normalising twice is normalising once. */
  lemma NormalizeIdempotent(index: Index)
    ensures NormalizeIndex(NormalizeIndex(index)) == NormalizeIndex(index)
  {
    var once := NormalizeIndex(index);
    assert JsObject.Remove(once, "v") == once;
    assert JsObject.Remove(once, "background") == once;
  }

  /** `Array.prototype.filter` on index descriptions. */
  function Where(s: seq<Index>, keep: Index -> bool): (r: seq<Index>)
    ensures |r| <= |s|
    ensures forall x :: x in r <==> x in s && keep(x)
  {
    var keepAt := (x: Index, k: nat) => keep(x);
    SeqFilter.FilterMembers(s, keepAt);
    SeqFilter.Filter(s, keepAt)
  }

  /** `index.name == undefined`, loosely: a missing, `undefined` or `null`
      name. */
  predicate IsNameless(index: Index) {
    IsNullish(Get(index, "name"))
  }

  /** The index MongoDB keeps on `_id` for every collection. */
  predicate IsIdIndex(index: Index) {
    Get(index, "name") == Str("_id_")
  }

  function NamesRequiredMessage(collectionName: string, entityName: string): string {
    "indexes are required to have names (collection: " + collectionName + ", entity-name: " + entityName + ")"
  }

  /** The existing indexes `initialize` compares against: normalised, and
      without the `_id_` index. */
  function ExistingIndexes(existingRaw: seq<Index>): (r: seq<Index>)
    ensures forall x :: x in r <==> !IsIdIndex(x) && exists i :: 0 <= i < |existingRaw| && x == NormalizeIndex(existingRaw[i])
  {
    var normalized := seq(|existingRaw|, i requires 0 <= i < |existingRaw| => NormalizeIndex(existingRaw[i]));
    assert forall x :: x in normalized <==> exists i :: 0 <= i < |existingRaw| && x == NormalizeIndex(existingRaw[i]) by {
      forall x | exists i :: 0 <= i < |existingRaw| && x == NormalizeIndex(existingRaw[i])
        ensures x in normalized
      {
        var i :| 0 <= i < |existingRaw| && x == NormalizeIndex(existingRaw[i]);
        assert normalized[i] == x;
      }
    }
    Where(normalized, (x: Index) => !IsIdIndex(x))
  }

  /** The indexes to drop and the indexes to create. */
  datatype IndexPlan = IndexPlan(unwanted: seq<Index>, required: seq<Index>)

  /** The decisions of `initialize`: nothing without configured indexes, an
      error when a configured index has no name, and otherwise the
      existing indexes no configured one equals (to drop) and the
      configured indexes no existing one equals (to create). */
  function Reconcile(wanted: Option<seq<Index>>, existingRaw: seq<Index>, equal: (Index, Index) -> bool,
                     collectionName: string, entityName: string): (r: Result<Option<IndexPlan>, string>)
    ensures wanted.None? <==> r == Ok(None)
    ensures wanted.Some? ==> (r.Err? <==> exists i :: 0 <= i < |wanted.value| && IsNameless(wanted.value[i]))
    ensures r.Err? ==> r.error == NamesRequiredMessage(collectionName, entityName)
    ensures r.Ok? && r.value.Some? ==> forall x :: x in r.value.value.unwanted <==>
      (x in ExistingIndexes(existingRaw) && forall w :: w in wanted.value ==> !equal(x, NormalizeIndex(w)))
    ensures r.Ok? && r.value.Some? ==> forall w :: w in r.value.value.required <==>
      (w in wanted.value && forall x :: x in ExistingIndexes(existingRaw) ==> !equal(NormalizeIndex(w), x))
  {
    match wanted
    case None => Ok(None)
    case Some(indexes) =>
      var existing := ExistingIndexes(existingRaw);
      var nameless := Where(indexes, IsNameless);
      NamelessFound(indexes);
      if |nameless| > 0 then
        Err(NamesRequiredMessage(collectionName, entityName))
      else
        var unwanted := Where(existing, (x: Index) => forall w :: w in indexes ==> !equal(x, NormalizeIndex(w)));
        var required := Where(indexes, (w: Index) => forall x :: x in existing ==> !equal(NormalizeIndex(w), x));
        Ok(Some(IndexPlan(unwanted, required)))
  }

  /** The filter of nameless indexes finds one exactly when there is one. */
  lemma NamelessFound(indexes: seq<Index>)
    ensures |Where(indexes, IsNameless)| > 0 <==> exists i :: 0 <= i < |indexes| && IsNameless(indexes[i])
  {
    var nameless := Where(indexes, IsNameless);
    if |nameless| > 0 {
      assert nameless[0] in nameless;
    }
    assert forall i :: 0 <= i < |indexes| && IsNameless(indexes[i]) ==> indexes[i] in nameless;
  }

  /** The `_id_` index is never dropped, and only configured indexes are
      created. */
  lemma IdIndexKept(wanted: seq<Index>, existingRaw: seq<Index>, equal: (Index, Index) -> bool, collectionName: string, entityName: string)
    requires Reconcile(Some(wanted), existingRaw, equal, collectionName, entityName).Ok?
    ensures var plan := Reconcile(Some(wanted), existingRaw, equal, collectionName, entityName).value.value;
      (forall x :: x in plan.unwanted ==> !IsIdIndex(x)) && (forall w :: w in plan.required ==> w in wanted)
  {
  }

  /** A sequence is empty exactly when it has no members. */
  lemma NoMembers<T>(s: seq<T>)
    ensures s == [] <==> forall x :: x !in s
  {
    if s != [] {
      assert s[0] in s;
    }
  }

  /** When every existing index matches a configured one and the other way
      round, `initialize` neither drops nor creates anything. */
  lemma InSyncDoesNothing(wanted: seq<Index>, existingRaw: seq<Index>, equal: (Index, Index) -> bool, collectionName: string, entityName: string)
    requires forall i :: 0 <= i < |wanted| ==> !IsNameless(wanted[i])
    requires forall x :: x in ExistingIndexes(existingRaw) ==> exists w :: w in wanted && equal(x, NormalizeIndex(w))
    requires forall w :: w in wanted ==> exists x :: x in ExistingIndexes(existingRaw) && equal(NormalizeIndex(w), x)
    ensures Reconcile(Some(wanted), existingRaw, equal, collectionName, entityName) == Ok(Some(IndexPlan([], [])))
  {
    var r := Reconcile(Some(wanted), existingRaw, equal, collectionName, entityName);
    assert r.Ok?;
    NoMembers(r.value.value.unwanted);
    NoMembers(r.value.value.required);
  }

  /** The name a patch property is stored under: the mapping's key, or the
      property itself (no `id` rename here). */
  function TargetKey(property: string, mm: MongoQueryConverter.MappingMap): string {
    if property in mm then mm[property].key else property
  }

  /** The names a patch writes to. */
  function TargetKeys(patch: JsObject.Object<Json>, mm: MongoQueryConverter.MappingMap): set<string> {
    set i | 0 <= i < |patch| :: TargetKey(patch[i].0, mm)
  }

  /** Each patch entry renamed and transformed through its mapping. */
  function MapPatchEntries(patch: JsObject.Object<Json>, mm: MongoQueryConverter.MappingMap): (r: JsObject.Object<Json>)
    ensures |r| == |patch|
    ensures forall i :: 0 <= i < |r| ==> r[i].0 == TargetKey(patch[i].0, mm)
    ensures forall i :: 0 <= i < |r| ==> r[i].1 == (if patch[i].0 in mm then mm[patch[i].0].transform(patch[i].1) else patch[i].1)
  {
    seq(|patch|, i requires 0 <= i < |patch| =>
      if patch[i].0 in mm then (mm[patch[i].0].key, mm[patch[i].0].transform(patch[i].1)) else patch[i])
  }

  /** `transformPatch`: the mapped entries assigned one after the other into
      a fresh object, wrapped in `$set`. */
  function TransformPatch(patch: JsObject.Object<Json>, mm: MongoQueryConverter.MappingMap): (r: Json)
    ensures r.Obj? && |r.entries| == 1 && r.entries[0].0 == "$set" && r.entries[0].1.Obj?
    ensures JsObject.KeySet(r.entries[0].1.entries) == TargetKeys(patch, mm)
    ensures JsObject.DistinctKeys(r.entries[0].1.entries)
  {
    var mapped := MapPatchEntries(patch, mm);
    forall k | k in JsObject.KeySet(mapped) || k in TargetKeys(patch, mm)
      ensures k in JsObject.KeySet(mapped) <==> k in TargetKeys(patch, mm)
    {
      JsObject.KeySetMembers(mapped, k);
    }
    Obj([("$set", Obj(JsObject.Spread([], mapped)))])
  }

  /** When no two patch properties land on the same name, the `$set`
      object holds each property renamed and transformed, in patch order. */
  lemma PatchWithoutCollisions(patch: JsObject.Object<Json>, mm: MongoQueryConverter.MappingMap)
    requires JsObject.DistinctKeys(MapPatchEntries(patch, mm))
    ensures TransformPatch(patch, mm) == Obj([("$set", Obj(MapPatchEntries(patch, mm)))])
  {
    var mapped := MapPatchEntries(patch, mm);
    JsObject.SpreadDisjoint([], mapped);
    assert [] + mapped == mapped;
  }

  /** Without mappings a patch is passed through unchanged. */
  lemma UnmappedPatchPassesThrough(patch: JsObject.Object<Json>)
    requires JsObject.DistinctKeys(patch)
    ensures TransformPatch(patch, map[]) == Obj([("$set", Obj(patch))])
  {
    assert MapPatchEntries(patch, map[]) == patch;
    PatchWithoutCollisions(patch, map[]);
  }

  /** Two properties landing on the same name: the later one wins. */
  lemma LaterPatchPropertyWins(v: Json, w: Json)
    ensures TransformPatch([("a", v), ("b", w)], map["a" := MongoQueryConverter.Mapping("b", (x: Json) => x)]) == Obj([("$set", Obj([("b", w)]))])
  {
    var mm := map["a" := MongoQueryConverter.Mapping("b", (x: Json) => x)];
    var mapped := MapPatchEntries([("a", v), ("b", w)], mm);
    assert mapped == [("b", v), ("b", w)];
    assert JsObject.Put([], "b", v) == [("b", v)];
    assert JsObject.Put([("b", v)], "b", w) == [("b", w)];
    assert mapped[1..][1..] == [];
    assert JsObject.Spread([], mapped) == JsObject.Spread([("b", v)], mapped[1..]);
  }

  /** `QueryOptions` of the repository interface. */
  datatype QueryOptions = QueryOptions(skip: Option<int>, limit: Option<int>, sort: Option<seq<MongoQueryConverter.Sort>>)

  /** `LoadOptions` of the base repository, with the `returnDocument` that
      the load-and-patch calls add. */
  datatype LoadOptions = LoadOptions(skip: Option<int>, limit: Option<int>, sort: Option<seq<(string, int)>>, returnDocument: Option<string>)

  /** `convertOptions`. */
  function ConvertOptions(options: Option<QueryOptions>, mm: MongoQueryConverter.MappingMap): (r: Option<LoadOptions>)
    ensures r.None? <==> options.None?
    ensures r.Some? ==> r.value.skip == options.value.skip && r.value.limit == options.value.limit && r.value.returnDocument.None?
    ensures r.Some? ==> (r.value.sort.None? <==> options.value.sort.None?)
    ensures r.Some? && r.value.sort.Some? ==> (|r.value.sort.value| == |options.value.sort.value|
      && forall i :: 0 <= i < |r.value.sort.value| ==> r.value.sort.value[i] == MongoQueryConverter.ConvertSort(options.value.sort.value[i], mm))
  {
    match options
    case None => None
    case Some(o) =>
      var sort := match o.sort
        case None => None
        case Some(items) => Some(seq(|items|, i requires 0 <= i < |items| => MongoQueryConverter.ConvertSort(items[i], mm)));
      Some(LoadOptions(o.skip, o.limit, sort, None))
  }

  /** The options of `loadByFilterAndPatch` and `tryLoadByFilterAndPatch`:
      the converted options (or none) plus `returnDocument`, `'after'` when
      the patched document is wanted and `'before'` otherwise. */
  function PatchLoadOptions(options: Option<QueryOptions>, mm: MongoQueryConverter.MappingMap, includePatch: bool): (r: LoadOptions)
    ensures r.returnDocument == Some("after") <==> includePatch
    ensures r.returnDocument == Some("before") <==> !includePatch
    ensures options.None? ==> r.skip.None? && r.limit.None? && r.sort.None?
    ensures options.Some? ==> r == ConvertOptions(options, mm).value.(returnDocument := r.returnDocument)
  {
    var loadOptions := ConvertOptions(options, mm).GetOr(LoadOptions(None, None, None, None));
    loadOptions.(returnDocument := Some(if includePatch then "after" else "before"))
  }
}
