/** The pure parts of `RedisStream` (`redis/src/stream/stream.ts`): the
    field/value arrays of stream entries, the parsers of `XREAD` and `XINFO`
    replies, and the argument lists of the commands. Redis replies are
    `Json` values: bulk strings are `Str`, integers `Num`, nil `Null`,
    arrays `Arr`, and a read past the end of an array is `Undefined`.
    Entry data is a plain object in assignment order. */
module RedisStream {
  import opened Wrappers
  import opened JsValue
  import JsObject

  /** A parsed entry. A field read from the last slot of an odd-length
      array gets the value `undefined`, here `None`. */
  datatype Entry = Entry(id: string, data: JsObject.Object<Option<string>>)

  /** An entry to add: an optional id and its data. */
  datatype SourceEntry = SourceEntry(id: Option<string>, data: JsObject.Object<string>)

  /** `buildFieldValueArray`: every field followed by its value. */
  function FieldValueArray(data: JsObject.Object<string>): (r: seq<string>)
    ensures |r| == 2 * |data|
    ensures forall k :: 0 <= k < |data| ==> r[2 * k] == data[k].0 && r[2 * k + 1] == data[k].1
  {
    if |data| == 0 then []
    else
      var rest := FieldValueArray(data[1..]);
      var r := [data[0].0, data[0].1] + rest;
      forall k | 1 <= k < |data|
        ensures r[2 * k] == data[k].0 && r[2 * k + 1] == data[k].1
      {
        var j := k - 1;
        assert data[1..][j] == data[k];
        assert r[2 * k] == rest[2 * j] && r[2 * k + 1] == rest[2 * j + 1];
      }
      r
  }

  /** The consecutive pairs of a field/value array, in order. */
  function Pairs(dataArray: seq<string>): (r: JsObject.Object<Option<string>>)
    ensures |r| == (|dataArray| + 1) / 2
    ensures forall k :: 0 <= k < |r| ==> r[k].0 == dataArray[2 * k]
    ensures forall k :: 0 <= k < |r| ==> r[k].1 == if 2 * k + 1 < |dataArray| then Some(dataArray[2 * k + 1]) else None
  {
    seq((|dataArray| + 1) / 2, k requires 0 <= k < (|dataArray| + 1) / 2 =>
      (dataArray[2 * k], if 2 * k + 1 < |dataArray| then Some(dataArray[2 * k + 1]) else None))
  }

  /** `parseEntryReturnValue`: each pair assigned into the data object in
      turn, so a repeated field keeps its last value. */
  function ParseEntry(id: string, dataArray: seq<string>): (r: Entry)
    ensures r.id == id
    ensures JsObject.KeySet(r.data) == JsObject.KeySet(Pairs(dataArray))
    ensures JsObject.DistinctKeys(r.data)
  {
    Entry(id, JsObject.Spread([], Pairs(dataArray)))
  }

  /** The data of a source entry as parsed data: every value defined. */
  function Defined(data: JsObject.Object<string>): (r: JsObject.Object<Option<string>>)
    ensures |r| == |data|
    ensures forall k :: 0 <= k < |r| ==> r[k] == (data[k].0, Some(data[k].1))
  {
    seq(|data|, k requires 0 <= k < |data| => (data[k].0, Some(data[k].1)))
  }

  /** Parsing the array built from some data gives that data back. */
  lemma EntryRoundTrip(id: string, data: JsObject.Object<string>)
    requires JsObject.DistinctKeys(data)
    ensures ParseEntry(id, FieldValueArray(data)) == Entry(id, Defined(data))
  {
    var pairs := Pairs(FieldValueArray(data));
    assert pairs == Defined(data);
    JsObject.SameKeys(data, pairs);
    JsObject.SpreadDisjoint([], pairs);
    assert [] + pairs == pairs;
  }

  /** A field that occurs twice keeps the later value. */
  lemma RepeatedFieldLaterWins(id: string, field: string, first: string, second: string)
    ensures ParseEntry(id, [field, first, field, second]) == Entry(id, [(field, Some(second))])
  {
    var pairs := Pairs([field, first, field, second]);
    assert pairs == [(field, Some(first)), (field, Some(second))];
    assert JsObject.Put([], field, Some(first)) == [(field, Some(first))];
    assert JsObject.Put([(field, Some(first))], field, Some(second)) == [(field, Some(second))];
    assert pairs[1..][1..] == [];
    assert JsObject.Spread([], pairs) == JsObject.Spread([(field, Some(first))], pairs[1..]);
  }

  /** One entry of a reply: its id and field/value array. */
  datatype EntryReply = EntryReply(id: string, dataArray: seq<string>)

  /** One stream of an `XREAD` reply with its entries. */
  datatype StreamReply = StreamReply(stream: string, items: seq<EntryReply>)

  /** `parseEntriesReturnValue`. */
  function ParseEntries(items: seq<EntryReply>): (r: seq<Entry>)
    ensures |r| == |items|
    ensures forall k :: 0 <= k < |r| ==> r[k] == ParseEntry(items[k].id, items[k].dataArray)
  {
    seq(|items|, k requires 0 <= k < |items| => ParseEntry(items[k].id, items[k].dataArray))
  }

  /** `parseReadReturnValue`: the entries of every stream, stream after
      stream. */
  function ParseRead(data: seq<StreamReply>): (r: seq<Entry>)
  {
    if |data| == 0 then [] else ParseEntries(data[0].items) + ParseRead(data[1..])
  }

  /** Parsing a reply in two parts parses each part and joins them. */
  lemma {:induction false} ParseReadAppend(a: seq<StreamReply>, b: seq<StreamReply>)
    ensures ParseRead(a + b) == ParseRead(a) + ParseRead(b)
  {
    if |a| > 0 {
      assert (a + b)[0] == a[0];
      assert (a + b)[1..] == a[1..] + b;
      ParseReadAppend(a[1..], b);
    } else {
      assert a + b == b;
    }
  }

  /** The entries of all streams joined. */
  function AllItems(data: seq<StreamReply>): seq<EntryReply> {
    if |data| == 0 then [] else data[0].items + AllItems(data[1..])
  }

  /** `parseReadReturnValue` is `parseEntriesReturnValue` of the joined
      entries. */
  lemma {:induction false} ParseReadFlattens(data: seq<StreamReply>)
    ensures ParseRead(data) == ParseEntries(AllItems(data))
  {
    if |data| > 0 {
      ParseReadFlattens(data[1..]);
      var a := data[0].items;
      var b := AllItems(data[1..]);
      assert ParseEntries(a + b) == ParseEntries(a) + ParseEntries(b);
    }
  }

  /** `info[i]`: `undefined` past the end. */
  function At(info: seq<Json>, i: nat): (r: Json)
    ensures i < |info| ==> r == info[i]
    ensures i >= |info| ==> r == Undefined
  {
    if i < |info| then info[i] else Undefined
  }

  /** The destructuring `[id, dataArray]` of an entry in an `XINFO STREAM`
      reply. `null` (Redis's nil for the entry of an empty stream) cannot
      be destructured and throws. */
  function ParseEntryValue(v: Json): (r: Result<Entry, string>)
    ensures IsNullish(v) ==> r == Err(TypeErrorMessage)
    ensures r.Ok? ==> v.Arr? && |v.items| == 2 && v.items[0] == Str(r.value.id)
  {
    match v
    case Arr(items) =>
      if |items| == 2 && items[0].Str? && items[1].Arr? && AllStrings(items[1].items) then
        Ok(ParseEntry(items[0].s, Strings(items[1].items)))
      else Err(UnexpectedReply)
    case _ => if IsNullish(v) || v.Num? || v.Bool? then Err(TypeErrorMessage) else Err(UnexpectedReply)
  }

  predicate AllStrings(items: seq<Json>) {
    forall k :: 0 <= k < |items| ==> items[k].Str?
  }

  /** The strings of an array reply of bulk strings. */
  function Strings(items: seq<Json>): (r: seq<string>)
    requires AllStrings(items)
    ensures |r| == |items| && forall k :: 0 <= k < |items| ==> items[k] == Str(r[k])
  {
    if |items| == 0 then [] else [items[0].s] + Strings(items[1..])
  }

  /** A reply shape Redis does not send where an entry belongs. */
  const UnexpectedReply := "unexpected reply"

  /** `StreamInfo`: `None` for a property never assigned. */
  datatype StreamInfo = StreamInfo(
    length: Option<Json>, radixTreeKeys: Option<Json>, radixTreeNodes: Option<Json>, groups: Option<Json>,
    firstEntry: Option<Entry>, lastEntry: Option<Entry>)

  const NoStreamInfo := StreamInfo(None, None, None, None, None, None)

  /** One step of `parseInfoReturnValue`'s loop. `fixed` leaves an entry
      property unassigned for a nil entry instead of throwing. */
  function InfoStep(acc: StreamInfo, name: Json, value: Json, fixed: bool): (r: Result<StreamInfo, string>)
    ensures r.Err? ==> (name == Str("first-entry") || name == Str("last-entry"))
    ensures r.Ok? && name == Str("length") ==> r.value == acc.(length := Some(value))
    ensures r.Ok? && name == Str("groups") ==> r.value == acc.(groups := Some(value))
    ensures r.Ok? && name == Str("first-entry") && !value.Null? ==> ParseEntryValue(value).Ok? && r.value == acc.(firstEntry := Some(ParseEntryValue(value).value))
    ensures !name.Str? || !(name.s in {"length", "radix-tree-keys", "radix-tree-nodes", "groups", "first-entry", "last-entry"}) ==> r == Ok(acc)
  {
    if name == Str("length") then Ok(acc.(length := Some(value)))
    else if name == Str("radix-tree-keys") then Ok(acc.(radixTreeKeys := Some(value)))
    else if name == Str("radix-tree-nodes") then Ok(acc.(radixTreeNodes := Some(value)))
    else if name == Str("groups") then Ok(acc.(groups := Some(value)))
    else if name == Str("first-entry") || name == Str("last-entry") then
      if fixed && value.Null? then Ok(acc)
      else
        var entry :- ParseEntryValue(value);
        if name == Str("first-entry") then Ok(acc.(firstEntry := Some(entry))) else Ok(acc.(lastEntry := Some(entry)))
    else Ok(acc)
  }

  /** The loop of `parseInfoReturnValue` from position `i`. */
  function ParseInfoFrom(info: seq<Json>, i: nat, acc: StreamInfo, fixed: bool): (r: Result<StreamInfo, string>)
    decreases |info| - i
  {
    if i >= |info| then Ok(acc)
    else
      var acc' :- InfoStep(acc, info[i], At(info, i + 1), fixed);
      ParseInfoFrom(info, i + 2, acc', fixed)
  }

  /** `parseInfoReturnValue` as written. */
  function ParseInfoAsWritten(info: seq<Json>): Result<StreamInfo, string> {
    ParseInfoFrom(info, 0, NoStreamInfo, false)
  }

  /** `parseInfoReturnValue` with nil entries left unassigned. */
  function ParseInfo(info: seq<Json>): Result<StreamInfo, string> {
    ParseInfoFrom(info, 0, NoStreamInfo, true)
  }

  /** The loop never throws when no entry property is nil or malformed;
      the corrected parser only throws on a malformed entry. */
  lemma {:induction false} ParseInfoFailsOnlyOnEntries(info: seq<Json>, i: nat, acc: StreamInfo, fixed: bool)
    requires forall k :: i <= k < |info| && k % 2 == i % 2 && (info[k] == Str("first-entry") || info[k] == Str("last-entry")) ==>
      ParseEntryValue(At(info, k + 1)).Ok? || (fixed && At(info, k + 1).Null?)
    ensures ParseInfoFrom(info, i, acc, fixed).Ok?
    decreases |info| - i
  {
    if i < |info| {
      var step := InfoStep(acc, info[i], At(info, i + 1), fixed);
      assert step.Ok?;
      ParseInfoFailsOnlyOnEntries(info, i + 2, step.value, fixed);
    }
  }

  /** `XINFO STREAM` of an empty stream: nil first and last entries. */
  function EmptyStreamInfoReply(): seq<Json> {
    [Str("length"), Num(0), Str("radix-tree-keys"), Num(0), Str("radix-tree-nodes"), Num(1),
     Str("groups"), Num(0), Str("last-generated-id"), Str("0-0"), Str("first-entry"), Null, Str("last-entry"), Null]
  }

  /** The replies of an empty stream up to its first entry: four counts
      and the last generated id. */
  function CountsPrefix(fixed: bool): (r: StreamInfo)
    ensures ParseInfoFrom(EmptyStreamInfoReply(), 0, NoStreamInfo, fixed) == ParseInfoFrom(EmptyStreamInfoReply(), 10, r, fixed)
    ensures r == StreamInfo(Some(Num(0)), Some(Num(0)), Some(Num(1)), Some(Num(0)), None, None)
  {
    CountsFirst(fixed);
    CountsSecond(fixed);
    StreamInfo(Some(Num(0)), Some(Num(0)), Some(Num(1)), Some(Num(0)), None, None)
  }

  lemma CountsFirst(fixed: bool)
    ensures ParseInfoFrom(EmptyStreamInfoReply(), 0, NoStreamInfo, fixed)
      == ParseInfoFrom(EmptyStreamInfoReply(), 6, StreamInfo(Some(Num(0)), Some(Num(0)), Some(Num(1)), None, None, None), fixed)
  {
    var info := EmptyStreamInfoReply();
    var a := NoStreamInfo.(length := Some(Num(0)));
    var b := a.(radixTreeKeys := Some(Num(0)));
    var c := b.(radixTreeNodes := Some(Num(1)));
    assert ParseInfoFrom(info, 0, NoStreamInfo, fixed) == ParseInfoFrom(info, 2, a, fixed);
    assert ParseInfoFrom(info, 2, a, fixed) == ParseInfoFrom(info, 4, b, fixed);
    assert ParseInfoFrom(info, 4, b, fixed) == ParseInfoFrom(info, 6, c, fixed);
  }

  lemma CountsSecond(fixed: bool)
    ensures ParseInfoFrom(EmptyStreamInfoReply(), 6, StreamInfo(Some(Num(0)), Some(Num(0)), Some(Num(1)), None, None, None), fixed)
      == ParseInfoFrom(EmptyStreamInfoReply(), 10, StreamInfo(Some(Num(0)), Some(Num(0)), Some(Num(1)), Some(Num(0)), None, None), fixed)
  {
    var info := EmptyStreamInfoReply();
    var c := StreamInfo(Some(Num(0)), Some(Num(0)), Some(Num(1)), None, None, None);
    var d := c.(groups := Some(Num(0)));
    assert ParseInfoFrom(info, 6, c, fixed) == ParseInfoFrom(info, 8, d, fixed);
    assert ParseInfoFrom(info, 8, d, fixed) == ParseInfoFrom(info, 10, d, fixed);
  }

  /** As written, `info()` of an empty stream throws at its nil first
      entry. */
  lemma EmptyStreamInfoThrows()
    ensures ParseInfoAsWritten(EmptyStreamInfoReply()) == Err(TypeErrorMessage)
  {
    var d := CountsPrefix(false);
    assert InfoStep(d, Str("first-entry"), Null, false) == Err(TypeErrorMessage);
  }

  /** The corrected parser reports the counts of an empty stream and no
      entries. */
  lemma EmptyStreamInfoParsed()
    ensures ParseInfo(EmptyStreamInfoReply()) == Ok(StreamInfo(Some(Num(0)), Some(Num(0)), Some(Num(1)), Some(Num(0)), None, None))
  {
    var info := EmptyStreamInfoReply();
    var d := CountsPrefix(true);
    assert ParseInfoFrom(info, 10, d, true) == ParseInfoFrom(info, 12, d, true);
    assert ParseInfoFrom(info, 12, d, true) == ParseInfoFrom(info, 14, d, true);
  }

  /** `ConsumerGroup` and `Consumer`: the recognised properties, `None`
      when never assigned. */
  datatype Record = Record(name: Option<Json>, count: Option<Json>, pending: Option<Json>)

  /** The loops of `parseGroupInfo` (`countKey` = `"consumers"`) and
      `parseConsumer` (`countKey` = `"idle"`): every even position names a
      property, the next holds its value, later assignments win, and
      unknown names are skipped. */
  function ParseRecordFrom(info: seq<Json>, i: nat, acc: Record, countKey: string): (r: Record)
    ensures r.name.Some? <==> acc.name.Some? || exists k :: NameAt(info, i, k)
    decreases |info| - i
  {
    if i >= |info| then acc
    else
      var name := info[i];
      var value := At(info, i + 1);
      var acc' :=
        if name == Str("name") then acc.(name := Some(value))
        else if name == Str(countKey) then acc.(count := Some(value))
        else if name == Str("pending") then acc.(pending := Some(value))
        else acc;
      var j := i + 2;
      var r := ParseRecordFrom(info, j, acc', countKey);
      forall k | NameAt(info, i, k) && k != i
        ensures NameAt(info, j, k)
      {
        assert k - i != 1;
      }
      assert forall k :: NameAt(info, j, k) ==> NameAt(info, i, k);
      assert name == Str("name") ==> NameAt(info, i, i);
      r
  }

  /** Position `k` of the loop that starts at `i` names `name`. */
  predicate NameAt(info: seq<Json>, i: nat, k: int) {
    i <= k < |info| && (k - i) % 2 == 0 && info[k] == Str("name")
  }

  function ParseGroupInfo(info: seq<Json>): Record {
    ParseRecordFrom(info, 0, Record(None, None, None), "consumers")
  }

  function ParseConsumer(info: seq<Json>): Record {
    ParseRecordFrom(info, 0, Record(None, None, None), "idle")
  }

  /** A group reply in the order Redis sends it sets every property. */
  lemma GroupInfoExample(name: string, consumers: int, pending: int, lastId: string)
    ensures ParseGroupInfo([Str("name"), Str(name), Str("consumers"), Num(consumers), Str("pending"), Num(pending), Str("last-delivered-id"), Str(lastId)])
      == Record(Some(Str(name)), Some(Num(consumers)), Some(Num(pending)))
  {
    var info := [Str("name"), Str(name), Str("consumers"), Num(consumers), Str("pending"), Num(pending), Str("last-delivered-id"), Str(lastId)];
    var none := Record(None, None, None);
    var a := none.(name := Some(Str(name)));
    var b := a.(count := Some(Num(consumers)));
    var c := b.(pending := Some(Num(pending)));
    assert ParseRecordFrom(info, 0, none, "consumers") == ParseRecordFrom(info, 2, a, "consumers");
    assert ParseRecordFrom(info, 2, a, "consumers") == ParseRecordFrom(info, 4, b, "consumers");
    assert ParseRecordFrom(info, 4, b, "consumers") == ParseRecordFrom(info, 6, c, "consumers");
    assert ParseRecordFrom(info, 6, c, "consumers") == ParseRecordFrom(info, 8, c, "consumers");
  }

  /** The argument list of `read`. */
  function ReadArguments(stream: string, id: string, count: Option<int>, block: Option<int>): (r: seq<Json>)
    ensures |r| == 3 + (if count.Some? then 2 else 0) + (if block.Some? then 2 else 0)
    ensures r[|r| - 3..] == [Str("STREAMS"), Str(stream), Str(id)]
    ensures count.Some? <==> r[0] == Str("COUNT")
    ensures count.Some? ==> r[1] == Num(count.value)
    ensures var b := if count.Some? then 2 else 0; (block.Some? <==> r[b] == Str("BLOCK")) && (block.Some? ==> r[b + 1] == Num(block.value))
  {
    (if count.Some? then [Str("COUNT"), Num(count.value)] else [])
    + (if block.Some? then [Str("BLOCK"), Num(block.value)] else [])
    + [Str("STREAMS"), Str(stream), Str(id)]
  }

  /** The argument list of `readGroup` as written: `NOACK` whenever `noAck`
      is given, `false` included. */
  function ReadGroupArgumentsAsWritten(stream: string, id: string, group: string, consumer: string, count: Option<int>, block: Option<int>, noAck: Option<bool>): (r: seq<Json>)
    ensures Str("NOACK") in r <==> noAck.Some? || Str("NOACK") in [Str(group), Str(consumer), Str(stream), Str(id)]
  {
    GroupArguments(stream, id, group, consumer, count, block, noAck.Some?)
  }

  /** The argument list `readGroup` evidently intends: `NOACK` only for
      `noAck: true`. */
  function ReadGroupArguments(stream: string, id: string, group: string, consumer: string, count: Option<int>, block: Option<int>, noAck: Option<bool>): (r: seq<Json>)
    ensures Str("NOACK") in r <==> noAck == Some(true) || Str("NOACK") in [Str(group), Str(consumer), Str(stream), Str(id)]
  {
    GroupArguments(stream, id, group, consumer, count, block, noAck == Some(true))
  }

  function GroupArguments(stream: string, id: string, group: string, consumer: string, count: Option<int>, block: Option<int>, noAck: bool): (r: seq<Json>)
    ensures |r| >= 6
    ensures r[..3] == [Str("GROUP"), Str(group), Str(consumer)]
    ensures r[3..] == (if count.Some? then [Str("COUNT"), Num(count.value)] else [])
      + (if block.Some? then [Str("BLOCK"), Num(block.value)] else [])
      + (if noAck then [Str("NOACK")] else [])
      + [Str("STREAMS"), Str(stream), Str(id)]
    ensures Str("NOACK") in r <==> noAck || Str("NOACK") in [Str(group), Str(consumer), Str(stream), Str(id)]
  {
    var r := [Str("GROUP"), Str(group), Str(consumer)]
      + (if count.Some? then [Str("COUNT"), Num(count.value)] else [])
      + (if block.Some? then [Str("BLOCK"), Num(block.value)] else [])
      + (if noAck then [Str("NOACK")] else [])
      + [Str("STREAMS"), Str(stream), Str(id)];
    assert forall x :: x in r <==> (x in [Str("GROUP"), Str(group), Str(consumer)]
      || x in (if count.Some? then [Str("COUNT"), Num(count.value)] else [])
      || x in (if block.Some? then [Str("BLOCK"), Num(block.value)] else [])
      || x in (if noAck then [Str("NOACK")] else [])
      || x in [Str("STREAMS"), Str(stream), Str(id)]);
    r
  }

  /** `noAck: false` still turns acknowledgement off as written. */
  lemma NoAckFalseSendsNoAck(stream: string, id: string, group: string, consumer: string)
    requires "NOACK" !in {stream, id, group, consumer}
    ensures Str("NOACK") in ReadGroupArgumentsAsWritten(stream, id, group, consumer, None, None, Some(false))
    ensures Str("NOACK") !in ReadGroupArguments(stream, id, group, consumer, None, None, Some(false))
  {
    assert Str("NOACK") !in [Str(group), Str(consumer), Str(stream), Str(id)];
  }

  /** `readGroup`'s result: a nil reply (a blocking read that timed out)
      is no entries. */
  function ReadGroupResult(reply: Option<seq<StreamReply>>): (r: seq<Entry>)
    ensures reply.None? ==> r == []
    ensures reply.Some? ==> r == ParseEntries(AllItems(reply.value))
  {
    match reply
    case None => []
    case Some(data) =>
      ParseReadFlattens(data);
      ParseRead(data)
  }

  /** The first argument of `createGroup` after the group name: a start id,
      a make-stream flag, or nothing. */
  datatype StartOrMakeStream = NoArgument | StartAt(id: string) | MakeStream(flag: bool)

  /** The argument list of `createGroup`. */
  function CreateGroupArguments(stream: string, group: string, startAtIdOrMakeStream: StartOrMakeStream, mkStream: bool): (r: seq<string>)
    ensures |r| == 4 || |r| == 5
    ensures r[..4] == ["CREATE", stream, group, if startAtIdOrMakeStream.StartAt? then startAtIdOrMakeStream.id else "0"]
    ensures |r| == 5 <==> (if startAtIdOrMakeStream.MakeStream? then startAtIdOrMakeStream.flag else mkStream)
    ensures |r| == 5 ==> r[4] == "MKSTREAM"
  {
    var startAtId := if startAtIdOrMakeStream.StartAt? then startAtIdOrMakeStream.id else "0";
    var makeStream := if startAtIdOrMakeStream.MakeStream? then startAtIdOrMakeStream.flag else mkStream;
    ["CREATE", stream, group, startAtId] + (if makeStream then ["MKSTREAM"] else [])
  }

  /** The commands of the transactions. */
  datatype Command = XAck(group: string, ids: seq<string>) | XDel(ids: seq<string>) | XAdd(id: string, fields: seq<string>)

  /** `XADD` of a source entry: its id when given (loosely defined), `*`
      otherwise. */
  function AddCommand(entry: SourceEntry): (r: Command)
    ensures r.XAdd? && r.fields == FieldValueArray(entry.data)
    ensures r.id == entry.id.GetOr("*")
  {
    XAdd(entry.id.GetOr("*"), FieldValueArray(entry.data))
  }

  const EmptyIdsMessage := "empty ids array"
  const EmptyAcknowledgeDeleteIdsMessage := "empty acknowledgeDeleteIds array"
  const EmptyEntriesMessage := "empty entries array"

  /** `acknowledgeDeleteTransaction`: an empty id list throws before any
      command is queued. */
  function AcknowledgeDeleteTransaction(group: string, ids: seq<string>): (r: Result<seq<Command>, string>)
    ensures r.Err? <==> |ids| == 0
    ensures r.Err? ==> r.error == EmptyIdsMessage
    ensures r.Ok? ==> r.value == [XAck(group, ids), XDel(ids)]
  {
    if |ids| == 0 then Err(EmptyIdsMessage) else Ok([XAck(group, ids), XDel(ids)])
  }

  /** `acknowledgeDeleteAddTransaction`: empty id or entry lists throw, the
      id check first. */
  function AcknowledgeDeleteAddTransaction(group: string, ids: seq<string>, entries: seq<SourceEntry>): (r: Result<seq<Command>, string>)
    ensures |ids| == 0 ==> r == Err(EmptyAcknowledgeDeleteIdsMessage)
    ensures |ids| > 0 && |entries| == 0 ==> r == Err(EmptyEntriesMessage)
    ensures r.Ok? <==> |ids| > 0 && |entries| > 0
    ensures r.Ok? ==> |r.value| == 2 + |entries| && r.value[..2] == [XAck(group, ids), XDel(ids)]
    ensures r.Ok? ==> forall k :: 0 <= k < |entries| ==> r.value[2 + k] == AddCommand(entries[k])
  {
    if |ids| == 0 then Err(EmptyAcknowledgeDeleteIdsMessage)
    else if |entries| == 0 then Err(EmptyEntriesMessage)
    else Ok([XAck(group, ids), XDel(ids)] + seq(|entries|, k requires 0 <= k < |entries| => AddCommand(entries[k])))
  }

  /** The ids `acknowledgeDeleteAddTransaction` returns: the results after
      the acknowledge and delete results. */
  function NewIds<R>(results: seq<R>): (r: seq<R>)
    ensures |results| >= 2 ==> |r| == |results| - 2 && forall k :: 0 <= k < |r| ==> r[k] == results[k + 2]
  {
    if |results| >= 2 then results[2..] else []
  }
}
