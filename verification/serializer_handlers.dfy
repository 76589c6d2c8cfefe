/** The values the serializer handlers see and the element they produce.
    A value is a plain JavaScript value or a class instance; an instance
    records its constructor's name and, when its class defines the
    `serialize` method, the data that method returns. */
module Serialization {
  import opened Wrappers
  import opened JsValue

  datatype Value =
    | Plain(json: Json)
    | Instance(constructorName: string, serialized: Option<Json>)

  /** `SerializedElement`: a handler's tag and its data. */
  datatype Element = Element(tag: string, data: Value)
}

/** `PrimitivesSerializeHandler` (`base/src/serializer/handlers/primitives.ts`):
    `null`, `undefined`, strings, numbers and booleans are stored as they are
    under the tag `primitive`. */
module PrimitivesHandler {
  import opened JsValue
  import opened Serialization

  const PrimitiveTag := "primitive"

  /** `canSerialize`: `obj == undefined` (so `null` too) or a string,
      number or boolean. */
  function CanSerialize(obj: Value): (r: bool)
    ensures r <==> obj.Plain? && IsPrimitive(obj.json)
    ensures obj.Instance? ==> !r
  {
    obj.Plain? && (IsNullish(obj.json) || obj.json.Str? || obj.json.Num? || obj.json.Bool?)
  }

  function Serialize(obj: Value): (r: Element)
    ensures r.tag == PrimitiveTag
  {
    Element(PrimitiveTag, obj)
  }

  function CanDeserialize(element: Element): (r: bool)
    ensures r <==> element.tag == PrimitiveTag
  {
    element.tag == PrimitiveTag
  }

  function Deserialize(element: Element): Value {
    element.data
  }

  /** Every value comes back from its serialized form, and the handler
      claims that form. */
  lemma RoundTrip(obj: Value)
    ensures CanDeserialize(Serialize(obj))
    ensures Deserialize(Serialize(obj)) == obj
  {
  }
}

/** `PrototypeSerializeHandler` (`base/src/serializer/handlers/prototype.ts`):
    instances of registered classes are stored as their constructor's name
    and the serialized result of their `serialize` method. The serializer's
    own `rawSerialize` and `deserialize`, which this handler calls, are
    parameters. */
module PrototypeHandler {
  import opened Wrappers
  import opened JsValue
  import opened Serialization
  import PrimitivesHandler

  const PrototypeTag := "prototype"

  /** A registered class: its name and its static `deserialize`. */
  datatype Prototype = Prototype(name: string, deserialize: Json -> Value)

  type Registry = map<string, Prototype>

  /** The failures of the handler: reading a property of `null` or
      `undefined`, and a name nothing is registered under (the message
      `no prototype named <name> registered`). */
  datatype Failure = TypeError | NoPrototype(name: Json)

  /** `register`: the class is stored under its name, replacing an earlier
      class of the same name. */
  function Register(registry: Registry, prototype: Prototype): (r: Registry)
    ensures r.Keys == registry.Keys + {prototype.name}
    ensures r[prototype.name] == prototype
    ensures forall name :: name in registry && name != prototype.name ==> r[name] == registry[name]
  {
    registry[prototype.name := prototype]
  }

  /** `canSerialize`: whether `obj[serialize]` is a function. Reading a
      property of `null` or `undefined` throws. */
  function CanSerialize(obj: Value): (r: Result<bool, Failure>)
    ensures r.Err? <==> obj.Plain? && IsNullish(obj.json)
    ensures r == Ok(true) <==> obj.Instance? && obj.serialized.Some?
  {
    match obj
    case Plain(json) => if IsNullish(json) then Err(TypeError) else Ok(false)
    case Instance(_, serialized) => Ok(serialized.Some?)
  }

  /** The data of a serialized instance. */
  function InstanceData(name: string, data: Json): (r: Json)
    ensures r.Obj? && |r.entries| == 2
    ensures Prop(r, "prototype") == Str(name) && Prop(r, "data") == data
  {
    Obj([("prototype", Str(name)), ("data", data)])
  }

  /** `serialize`: the tag, the constructor's name and the serialized data
      its `serialize` method returns; calling a method that is not there
      throws. */
  function Serialize(obj: Value, rawSerialize: Json -> Json): (r: Result<Element, Failure>)
    ensures r.Ok? <==> obj.Instance? && obj.serialized.Some?
    ensures r.Ok? ==> r.value.tag == PrototypeTag && r.value.data == Plain(InstanceData(obj.constructorName, rawSerialize(obj.serialized.value)))
  {
    match obj
    case Instance(name, Some(data)) => Ok(Element(PrototypeTag, Plain(InstanceData(name, rawSerialize(data)))))
    case _ => Err(TypeError)
  }

  /** `serializedElement.data.prototype`: an instance value has no such
      property. */
  function PrototypeName(element: Element): (r: Result<Json, Failure>)
    ensures r.Err? <==> element.data.Plain? && IsNullish(element.data.json)
    ensures r.Ok? && element.data.Plain? ==> r.value == Prop(element.data.json, "prototype")
  {
    match element.data
    case Plain(json) => if IsNullish(json) then Err(TypeError) else Ok(Prop(json, "prototype"))
    case Instance(_, _) => Ok(Undefined)
  }

  /** `canDeserialize`: the tag is `prototype` and the name is registered. */
  function CanDeserialize(registry: Registry, element: Element): (r: Result<bool, Failure>)
    ensures element.tag != PrototypeTag ==> r == Ok(false)
    ensures r == Ok(true) <==> (element.tag == PrototypeTag && PrototypeName(element).Ok?
      && PrototypeName(element).value.Str? && PrototypeName(element).value.s in registry)
  {
    if element.tag != PrototypeTag then Ok(false)
    else
      var name :- PrototypeName(element);
      Ok(name.Str? && name.s in registry)
  }

  /** `deserialize`: the registered class rebuilds the instance from the
      deserialized data; an unknown name throws. */
  function Deserialize(registry: Registry, element: Element, deserializeData: Json -> Json): (r: Result<Value, Failure>)
    ensures r.Ok? <==> PrototypeName(element).Ok? && PrototypeName(element).value.Str? && PrototypeName(element).value.s in registry
    ensures r.Ok? ==> element.data.Plain? && r.value == registry[PrototypeName(element).value.s].deserialize(deserializeData(Prop(element.data.json, "data")))
    ensures PrototypeName(element).Ok? && !(PrototypeName(element).value.Str? && PrototypeName(element).value.s in registry) ==>
      r == Err(NoPrototype(PrototypeName(element).value))
  {
    var name :- PrototypeName(element);
    if name.Str? && name.s in registry then
      var data := Prop(element.data.json, "data");
      Ok(registry[name.s].deserialize(deserializeData(data)))
    else Err(NoPrototype(name))
  }

  /** An instance of a registered class comes back from its serialized
      form, when the serializer's two halves are inverse and the class's
      `deserialize` rebuilds the instance from its own data. */
  lemma RoundTrip(registry: Registry, obj: Value, rawSerialize: Json -> Json, deserializeData: Json -> Json)
    requires obj.Instance? && obj.serialized.Some? && obj.constructorName in registry
    requires forall j :: deserializeData(rawSerialize(j)) == j
    requires registry[obj.constructorName].deserialize(obj.serialized.value) == obj
    ensures Serialize(obj, rawSerialize).Ok?
    ensures CanDeserialize(registry, Serialize(obj, rawSerialize).value) == Ok(true)
    ensures Deserialize(registry, Serialize(obj, rawSerialize).value, deserializeData) == Ok(obj)
  {
  }

  /** The serialized form of an instance whose class was never registered
      is not claimed, and deserializing it throws with the class's name. */
  lemma UnregisteredThrows(registry: Registry, obj: Value, rawSerialize: Json -> Json, deserializeData: Json -> Json)
    requires obj.Instance? && obj.serialized.Some? && obj.constructorName !in registry
    ensures Serialize(obj, rawSerialize).Ok?
    ensures CanDeserialize(registry, Serialize(obj, rawSerialize).value) == Ok(false)
    ensures Deserialize(registry, Serialize(obj, rawSerialize).value, deserializeData) == Err(NoPrototype(Str(obj.constructorName)))
  {
  }

  /** Registering a class makes the handler claim its instances' serialized
      form; registering another class under the same name replaces it. */
  lemma RegisterClaims(registry: Registry, prototype: Prototype, other: Prototype, obj: Value, rawSerialize: Json -> Json, deserializeData: Json -> Json)
    requires obj.Instance? && obj.serialized.Some? && obj.constructorName == prototype.name == other.name
    ensures CanDeserialize(Register(registry, prototype), Serialize(obj, rawSerialize).value) == Ok(true)
    ensures Deserialize(Register(Register(registry, prototype), other), Serialize(obj, rawSerialize).value, deserializeData)
      == Ok(other.deserialize(deserializeData(rawSerialize(obj.serialized.value))))
  {
  }

  /** The two handlers' tags differ: neither claims the other's output. */
  lemma TagsDisjoint(registry: Registry, obj: Value, rawSerialize: Json -> Json, primitive: Value)
    requires Serialize(obj, rawSerialize).Ok?
    ensures !PrimitivesHandler.CanDeserialize(Serialize(obj, rawSerialize).value)
    ensures CanDeserialize(registry, PrimitivesHandler.Serialize(primitive)) == Ok(false)
  {
  }
}
