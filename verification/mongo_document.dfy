/** `mongo/src/model/document.ts`: moving an entity's `id` to MongoDB's
    `_id` and back. Entities and documents are plain objects; the
    destructuring `const { _id, ...rest } = o` is `JsObject.Remove` and the
    literal `{ id: _id, ...rest }` is `JsObject.Spread` onto a one-property
    object. The random id of `toMongoDocumentWithNewId` is a parameter. */
module MongoDocument {
  import opened Wrappers
  import opened JsValue
  import JsObject

  type Document = JsObject.Object<Json>

  /** `{ [key]: value, ...rest }` where `rest` is `o` without `drop`: the
      shape shared by `toEntity` and `toMongoDocument`. A `key` already in
      `o` comes from the spread, which overrides the literal. */
  function Rekey(o: Document, drop: string, key: string, value: Json): (r: Document)
    requires JsObject.DistinctKeys(o) && drop != key
    ensures JsObject.KeySet(r) == JsObject.KeySet(o) - {drop} + {key}
    ensures key !in JsObject.KeySet(o) ==> JsObject.Lookup(r, key) == Some(value)
    ensures key in JsObject.KeySet(o) ==> JsObject.Lookup(r, key) == JsObject.Lookup(o, key)
    ensures forall k :: k != drop && k != key ==> JsObject.Lookup(r, k) == JsObject.Lookup(o, k)
    ensures JsObject.DistinctKeys(r)
  {
    var head := [(key, value)];
    var r := JsObject.Spread(head, JsObject.Remove(o, drop));
    assert JsObject.KeySet(head) == {key} && JsObject.DistinctKeys(head) by {
      assert head[1..] == [];
    }
    forall k | k != drop && k != key
      ensures JsObject.Lookup(r, k) == JsObject.Lookup(o, k)
    {
      RekeyLookup(o, drop, key, value, k);
    }
    RekeyLookup(o, drop, key, value, key);
    r
  }

  lemma RekeyLookup(o: Document, drop: string, key: string, value: Json, k: string)
    requires JsObject.DistinctKeys(o) && drop != key && k != drop
    ensures JsObject.Lookup(JsObject.Spread([(key, value)], JsObject.Remove(o, drop)), k)
      == if k in JsObject.KeySet(o) then JsObject.Lookup(o, k) else if k == key then Some(value) else None
  {
    JsObject.SpreadLookupAll([(key, value)], JsObject.Remove(o, drop), k);
    assert [(key, value)][1..] == [];
    if k !in JsObject.KeySet(o) {
      assert JsObject.Lookup(o, k).None?;
    }
  }

  /** `toEntity`: `{ id: _id, ...rest }`. */
  function ToEntity(document: Document): (r: Document)
    requires JsObject.DistinctKeys(document)
    ensures JsObject.KeySet(r) == JsObject.KeySet(document) - {"_id"} + {"id"}
    ensures "id" !in JsObject.KeySet(document) ==> JsObject.Lookup(r, "id") == Some(Get(document, "_id"))
    ensures forall k :: k != "id" && k != "_id" ==> JsObject.Lookup(r, k) == JsObject.Lookup(document, k)
    ensures JsObject.DistinctKeys(r)
  {
    Rekey(document, "_id", "id", Get(document, "_id"))
  }

  /** `toMongoDocument`: `{ _id: entity.id, ...rest }`. */
  function ToMongoDocument(entity: Document): (r: Document)
    requires JsObject.DistinctKeys(entity)
    ensures JsObject.KeySet(r) == JsObject.KeySet(entity) - {"id"} + {"_id"}
    ensures "_id" !in JsObject.KeySet(entity) ==> JsObject.Lookup(r, "_id") == Some(Get(entity, "id"))
    ensures forall k :: k != "id" && k != "_id" ==> JsObject.Lookup(r, k) == JsObject.Lookup(entity, k)
    ensures JsObject.DistinctKeys(r)
  {
    WithId(entity, Get(entity, "id"))
  }

  /** `{ _id: id, ...rest }` where `rest` is `entity` without `id`. */
  function WithId(entity: Document, id: Json): (r: Document)
    requires JsObject.DistinctKeys(entity)
    ensures JsObject.KeySet(r) == JsObject.KeySet(entity) - {"id"} + {"_id"}
    ensures "_id" !in JsObject.KeySet(entity) ==> JsObject.Lookup(r, "_id") == Some(id)
    ensures "_id" in JsObject.KeySet(entity) ==> JsObject.Lookup(r, "_id") == JsObject.Lookup(entity, "_id")
    ensures forall k :: k != "id" && k != "_id" ==> JsObject.Lookup(r, k) == JsObject.Lookup(entity, k)
    ensures JsObject.DistinctKeys(r)
  {
    Rekey(entity, "id", "_id", id)
  }

  /** `toMongoDocumentWithPartialId`: `_id` is only set when `id` is
      loosely `!= undefined`. */
  function ToMongoDocumentWithPartialId(entity: Document): (r: Document)
    requires JsObject.DistinctKeys(entity)
    ensures JsObject.KeySet(r) == JsObject.KeySet(entity) - {"id"} + (if IsNullish(Get(entity, "id")) then {} else {"_id"})
    ensures forall k :: k != "id" && k != "_id" ==> JsObject.Lookup(r, k) == JsObject.Lookup(entity, k)
    ensures JsObject.DistinctKeys(r)
  {
    var id := Get(entity, "id");
    var partialIdObject: Document := if !IsNullish(id) then [("_id", id)] else [];
    var rest := JsObject.Remove(entity, "id");
    var r := JsObject.Spread(partialIdObject, rest);
    assert JsObject.DistinctKeys(partialIdObject);
    forall k | k != "id" && k != "_id"
      ensures JsObject.Lookup(r, k) == JsObject.Lookup(entity, k)
    {
      JsObject.SpreadLookupAll(partialIdObject, rest, k);
    }
    r
  }

  /** `toMongoDocumentWithNewId`, with the random string of
      `getRandomString(15)` passed in as `freshId`. */
  function ToMongoDocumentWithNewId(entity: Document, freshId: string): (r: Document)
    requires JsObject.DistinctKeys(entity)
    ensures JsObject.KeySet(r) == JsObject.KeySet(entity) - {"id"} + {"_id"}
    ensures "_id" !in JsObject.KeySet(entity) ==> JsObject.Lookup(r, "_id") == Some(if IsNullish(Get(entity, "id")) then Str(freshId) else Get(entity, "id"))
    ensures forall k :: k != "id" && k != "_id" ==> JsObject.Lookup(r, k) == JsObject.Lookup(entity, k)
    ensures JsObject.DistinctKeys(r)
  {
    var id := Get(entity, "id");
    WithId(entity, if !IsNullish(id) then id else Str(freshId))
  }

  /** An entity: its properties are distinct, it has an `id` and no `_id`. */
  predicate IsEntity(entity: Document) {
    JsObject.DistinctKeys(entity) && "id" in JsObject.KeySet(entity) && "_id" !in JsObject.KeySet(entity)
  }

  /** Storing an entity and reading it back gives every property its old
      value. */
  lemma EntityRoundTrip(entity: Document, k: string)
    requires IsEntity(entity)
    ensures JsObject.Lookup(ToEntity(ToMongoDocument(entity)), k) == JsObject.Lookup(entity, k)
  {
    var document := ToMongoDocument(entity);
    if k == "id" {
      assert JsObject.Lookup(ToEntity(document), "id") == Some(Get(document, "_id"));
    }
  }

  /** With `id` as the first property the round trip restores the entity
      exactly, property order included. */
  lemma {:induction false} EntityRoundTripExact(id: Json, rest: Document)
    requires IsEntity([("id", id)] + rest)
    ensures ToEntity(ToMongoDocument([("id", id)] + rest)) == [("id", id)] + rest
  {
    var entity := [("id", id)] + rest;
    assert entity[1..] == rest;
    assert JsObject.KeySet(entity) == {"id"} + JsObject.KeySet(rest);
    assert JsObject.Remove(entity, "id") == rest;
    JsObject.SpreadDisjoint([("_id", id)], rest);
    var document := [("_id", id)] + rest;
    assert ToMongoDocument(entity) == document;
    assert document[1..] == rest;
    assert JsObject.Remove(document, "_id") == rest;
    JsObject.SpreadDisjoint([("id", id)], rest);
  }

  /** A document read as an entity and stored again is the same document,
      property by property. */
  lemma DocumentRoundTrip(document: Document, k: string)
    requires JsObject.DistinctKeys(document) && "_id" in JsObject.KeySet(document) && "id" !in JsObject.KeySet(document)
    ensures JsObject.Lookup(ToMongoDocument(ToEntity(document)), k) == JsObject.Lookup(document, k)
  {
    var entity := ToEntity(document);
    if k == "_id" {
      assert Get(entity, "id") == Get(document, "_id");
    }
  }

  /** An `_id` property of the entity itself is spread after `_id: id` and
      so replaces the entity's id in the document. */
  lemma EntityIdOverridden(entity: Document)
    requires JsObject.DistinctKeys(entity) && "_id" in JsObject.KeySet(entity)
    ensures JsObject.Lookup(ToMongoDocument(entity), "_id") == JsObject.Lookup(entity, "_id")
  {
  }

  /** `_id` is present exactly when `id` is loosely defined, and then it is
      the same document `toMongoDocument` builds. */
  lemma PartialIdPresentIffDefined(entity: Document)
    requires JsObject.DistinctKeys(entity) && "_id" !in JsObject.KeySet(entity)
    ensures "_id" in JsObject.KeySet(ToMongoDocumentWithPartialId(entity)) <==> !IsNullish(Get(entity, "id"))
    ensures !IsNullish(Get(entity, "id")) ==> ToMongoDocumentWithPartialId(entity) == ToMongoDocument(entity)
  {
  }

  /** A defined id is kept and the result is `toMongoDocument`'s; otherwise
      the fresh id is used. */
  lemma NewIdKeepsDefinedId(entity: Document, freshId: string)
    requires JsObject.DistinctKeys(entity)
    ensures !IsNullish(Get(entity, "id")) ==> ToMongoDocumentWithNewId(entity, freshId) == ToMongoDocument(entity)
    ensures IsNullish(Get(entity, "id")) ==> ToMongoDocumentWithNewId(entity, freshId) == WithId(entity, Str(freshId))
  {
  }
}
