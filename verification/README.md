# common-ts core, modelled in Dafny

This project models the self-contained logic of the `common-ts` TypeScript
libraries: `base`, `mongo` and `redis`. Each source file of the core has its
own module. Every operation is a pure function over immutable data. The
asynchronous parts become explicit inputs:

- awaited results and consumer reactions are scripts (sequences);
- cancellation tokens are booleans;
- clocks are parameters.

Database and Redis state is a plain table: a `seq` of documents or a
`map` of keys.

Shared modules:

- `Wrappers` holds `Option` and `Result`.
- `JsObject` models a JavaScript object as an ordered list of entries with
  the language's assignment semantics: an assignment to an existing key
  keeps its position, a new key goes last, and spread assigns in order.
- `SeqFilter` models `Array.prototype.filter` and `filterAsync`: the kept
  items with the positions they came from.
- `JsValue` models JavaScript values (`undefined`, `null`, booleans,
  integer numbers, strings, arrays, objects) and the property reads of the
  code.

Modules per area:

- The lazy-sequence helpers and the push feed: `Backoff`, `Feedable`,
  `Retry`, `Reduce`, `GroupToSingleMap`, `AssertIterable`, `LastOrDefault`.
- Time arithmetic and the stopwatch: `DateTime`, `Timer`.
- Migration path selection: `Migrator`.
- Query and document translation: `MongoQueryConverter`,
  `ElasticQueryConverter`, `MongoDocument`, `MongoEntityRepository`.
- The job queue and the two lock implementations: `MongoQueue`,
  `MongoLockRepository`, `RedisLockProvider`. The Redis Lua scripts are
  functions on a key/expiry store.
- Redis stream wire formats: `RedisStream`.
- Serializer handlers: `Serialization`, `PrimitivesHandler`,
  `PrototypeHandler`.

Where the code as written does something its authors evidently did not
intend, the model has both the code as written and a corrected version (see
"Findings"). The rest of the model builds on the corrected version.

## Model

| member | source | states |
|---|---|---|
| JsObject.Put | mongo/src/model/document.ts:16-19 | assigning a key: the key set gains it, other keys read as before, keys stay distinct |
| JsObject.Remove | mongo/src/model/document.ts:14 | the rest object of `{ k, ...rest }`: key set minus `k`, other keys read as before, unchanged when `k` is absent |
| JsObject.Spread | mongo/src/model/document.ts:16-19 | `{ ...a, ...b }`: key set is the union, keys of `a` not in `b` read as in `a`, distinct keys preserved |
| JsObject.SpreadLookupAll | mongo/src/model/document.ts:16-19 | every key of a spread reads from `b` when `b` has it and from `a` otherwise |
| JsObject.SpreadDisjoint | mongo/src/model/document.ts:16-19 | spreading an object with new distinct keys appends its entries in order |
| JsObject.SameKeys | redis/src/stream/stream.ts:380-385 | two entry lists with the same names in order have the same key set and the same distinctness |
| JsValue.HasOwn | base/source/search-index/elastic/query-converter.ts:55-64 | `hasOwnProperty.call(v, k)` throws exactly for `null`/`undefined` and is true exactly for an object holding `k` |
| JsValue.Entries | mongo/src/query-converter.ts:12 | `Object.entries`: an object's entries, an array's index entries, nothing for other values, a throw for `null`/`undefined` |
| JsValue.PropertyName | mongo/src/query-converter.ts:47-49 | `id` becomes `_id` and every other name is unchanged |
| Backoff.NewDelay | base/src/utils/backoff.ts:76-94 | linear adds and exponential multiplies `increase`, capped at `maximumDelay`, never above it |
| Backoff.NewHelper | base/src/utils/backoff.ts:24-29 | a new helper keeps its options and has no delay assigned |
| Backoff.Reset | base/src/utils/backoff.ts:31-33 | reset sets the delay to `initialDelay` |
| Backoff.DoBackoff | base/src/utils/backoff.ts:35-38 | backoff waits the current delay, then advances it once and never past the cap |
| Backoff.WaitsAfterReset | base/src/utils/backoff.ts:31-38 | after a reset the k-th backoff waits the delay reached after k steps |
| Backoff.WaitsBeforeReset | base/src/utils/backoff.ts:24-38 | without a reset every backoff waits an unassigned delay |
| Backoff.DelayInRange | base/src/utils/backoff.ts:76-94 | with growing options every delay lies between `initialDelay` and `maximumDelay` |
| Backoff.DelayMonotone | base/src/utils/backoff.ts:76-94 | successive delays after a reset never decrease |
| Backoff.DelayLowerBound | base/src/utils/backoff.ts:76-94 | with strictly growing options the delay after n steps is at least `min(initialDelay + n, maximumDelay)` |
| Backoff.Saturates | base/src/utils/backoff.ts:92 | after `maximumDelay - initialDelay` steps the delay is exactly `maximumDelay` |
| Backoff.Loop | base/src/utils/backoff.ts:47-56 | one action per pass until the token is set; a pass that asks for a backoff waits, any other resets |
| Backoff.LoopWaits | base/src/utils/backoff.ts:47-56 | each wait of the loop is the delay reached by the backoffs since the last reset |
| Backoff.StreakShift | base/src/utils/backoff.ts:47-56 | the backoff streak before pass i is the streak of the remaining passes from the updated start |
| Backoff.LoopFixedWaits | base/src/utils/backoff.ts:43-74 | from a reset helper every wait is the delay of the current backoff streak |
| Backoff.LoopNoneUntilReset | base/src/utils/backoff.ts:43-56 | from an unassigned helper every wait before the first reset has no delay |
| Backoff.BackoffLoopUnassignedDelay | base/src/utils/backoff.ts:43-56 | as written, backoffs before the first reset wait an unassigned delay |
| Feedable.New | base/src/utils/feedable-async-iterable.ts:26-31 | a new feed is open with an empty buffer |
| Feedable.FeedItem | base/src/utils/feedable-async-iterable.ts:33-39 | feeding a closed feed fails with `closed`; otherwise the item is appended at the end |
| Feedable.End | base/src/utils/feedable-async-iterable.ts:41-43 | end closes the feed and keeps the buffer |
| Feedable.EndTwice | base/src/utils/feedable-async-iterable.ts:41-43 | ending twice is ending once |
| Feedable.Throw | base/src/utils/feedable-async-iterable.ts:45-52 | throw on a closed feed fails; otherwise one error entry is appended and the feed closes |
| Feedable.Next | base/src/utils/feedable-async-iterable.ts:54-76 | one pull: done exactly when the generator has ended or the loop condition fails on a drained feed; blocked, waiting on `buffer.added`, exactly when nothing is outstanding and the consumer already waits or the feed is open; otherwise the first outstanding entry is yielded or raised; `empty` resolves exactly when a resumed `yield` finds the buffer empty |
| Feedable.TakeFromBatch | base/src/utils/feedable-async-iterable.ts:63-68 | an item entry is yielded and leaves the front of the outstanding entries; an error entry is thrown and ends the generator, dropping the rest of its batch |
| Feedable.PullStep | base/src/utils/feedable-async-iterable.ts:54-76 | a pull appends nothing; what it yields came off the front of the outstanding entries, and a raised error was the first outstanding entry |
| Feedable.Items | base/src/utils/feedable-async-iterable.ts:38 | the item entries of a sequence, element by element |
| Feedable.ItemsAppend | base/src/utils/feedable-async-iterable.ts:38 | item entries of a concatenation are the concatenation of item entries |
| Feedable.Step | base/src/utils/feedable-async-iterable.ts:33-76 | a finished consumer does nothing; a producer or pull step keeps yielded + outstanding equal to outstanding + appended |
| Feedable.FinishedYieldsNothing | base/src/utils/feedable-async-iterable.ts:63-66 | after an error the consumer yields and raises nothing more |
| Feedable.RunPreservesOrder | base/src/utils/feedable-async-iterable.ts:55-75 | over any run, items come out in append order, without loss or duplication |
| Feedable.RunRaisesAfterEarlierItems | base/src/utils/feedable-async-iterable.ts:63-66 | a raised error ends the iteration and follows every entry appended before it |
| Feedable.EndStrandsWaiter | base/src/utils/feedable-async-iterable.ts:41-57 | a consumer waiting on an empty, closed feed is never resumed: nothing is yielded, raised or appended and its state never changes |
| Feedable.WaitThenEnd | base/src/utils/feedable-async-iterable.ts:41-57 | a pull on an open empty feed followed by `end()` never finishes, while `end()` before the pull lets it finish |
| Feedable.EmptiedOnResume | base/src/utils/feedable-async-iterable.ts:68-73 | `empty` resolves when the resumed generator finds the buffer drained, and not when an item was fed meanwhile |
| Feedable.FeedEndDrain | base/src/utils/feedable-async-iterable.ts:33-76 | feeding three items, ending and pulling yields exactly those items, then done |
| Retry.RetryFrom | base/src/utils/async-iterable-helpers/retry.ts:13-40 | the generator from a source position yields one item per recorded position; what it yields is stated by the rows below |
| Retry.YieldsSourceItems | base/src/utils/async-iterable-helpers/retry.ts:13-40 | every yielded item is the source item at its recorded position, and predicate calls get the item and its position |
| Retry.RetryRule | base/src/utils/async-iterable-helpers/retry.ts:14-38 | after an answered yield the same item comes again exactly when the consumer threw and the predicate said `true`, otherwise the next item; abandoned exactly when the last yield was unanswered |
| Retry.FollowsRule | base/src/utils/async-iterable-helpers/retry.ts:14-38 | the first position is the start, there is one exactly when the source is not exhausted, and consecutive positions obey the retry rule |
| Retry.FollowsAt | base/src/utils/async-iterable-helpers/retry.ts:22-38 | the retry rule, read at one position |
| Retry.RethrowOnFalse | base/src/utils/async-iterable-helpers/retry.ts:34-36 | with `throwOnRetryFalse`, a refused error at a live position is rethrown and nothing is yielded after it |
| Retry.CompletesAfterLastItem | base/src/utils/async-iterable-helpers/retry.ts:16-38 | a completed iteration ended on the last source item, with every yield answered |
| Retry.CompletesFrom | base/src/utils/async-iterable-helpers/retry.ts:16-38 | the step of the previous row across one answered yield |
| Retry.LastAnswerMovesOn | base/src/utils/async-iterable-helpers/retry.ts:22-36 | the last answer of a completed iteration was not a retry, and was an accept when `throwOnRetryFalse` is set |
| Retry.CallsFor | base/src/utils/async-iterable-helpers/retry.ts:27-28 | the predicate calls of a trace are no more than its answers |
| Retry.CallsAreThrows | base/src/utils/async-iterable-helpers/retry.ts:22-33 | each thrown error is passed to the predicate once, with the item and index it was thrown at, in order |
| Retry.PositionsStepByOne | base/src/utils/async-iterable-helpers/retry.ts:14-28 | positions never go back and advance by at most one, so a retried item keeps its index |
| Retry.NoThrowIsIdentity | base/src/utils/async-iterable-helpers/retry.ts:16-25 | a consumer that never throws gets the source exactly once, and the predicate is never called |
| Retry.RethrowOnlyWhenAsked | base/src/utils/async-iterable-helpers/retry.ts:22-36 | the error is rethrown only when `throwOnRetryFalse` is set, and it is the error of the last answer, a throw the predicate refused |
| Retry.RetryThenGiveUp | base/src/utils/async-iterable-helpers/retry.ts:22-36 | concrete trace: an item is re-yielded after a true answer and dropped after a false one |
| Reduce.ReduceAsync | base/src/utils/async-iterable-helpers/reduce.ts:15-35 | the loop computes the recursive definition, and an empty source gives the initial value |
| Reduce.DefinedIsFold | base/src/utils/async-iterable-helpers/reduce.ts:19-31 | with a defined accumulator and a reducer that never returns nullish values, the result is the left fold |
| Reduce.WithInitialValue | base/src/utils/async-iterable-helpers/reduce.ts:15-35 | with a defined initial value the result is the left fold from it, with indices from 0 |
| Reduce.WithoutInitialValue | base/src/utils/async-iterable-helpers/reduce.ts:16-24 | without an initial value the first element becomes the accumulator without a call, and calls are counted from 0 |
| Reduce.NullishMidSequence | base/src/utils/async-iterable-helpers/reduce.ts:20-22 | an accumulator that becomes nullish mid-sequence is replaced by the next element without a call |
| GroupToSingleMap.GroupToSingleMapAsync | base/source/utils/async-iterable-helpers/group-to-single-map.ts:11-26 | fails with `group has more than one items` exactly when two items share a key; otherwise every item is stored under its key and every key comes from an item |
| AssertIterable.AssertFrom | base/source/utils/async-iterable-helpers/assert.ts:12-25 | the yielded items are a prefix of the source that passes, and a failure is at the first item that does not |
| AssertIterable.FailsIffSomeItemFails | base/source/utils/async-iterable-helpers/assert.ts:12-25 | the assertion fails exactly when some item fails, and otherwise the output is the input |
| LastOrDefault.LastKept | base/source/utils/async-iterable-helpers/last-or-default.ts:7-21 | the last kept position, none exactly when no item is kept |
| LastOrDefault.LastOrDefaultAsync | base/source/utils/async-iterable-helpers/last-or-default.ts:6-22 | the result is the last item passing the filter, or the default exactly when none does |
| SeqFilter.Kept | base/source/utils/async-iterable-helpers/last-or-default.ts:7 | the positions the predicate keeps, every one of them, in ascending order |
| SeqFilter.Filter | base/source/utils/async-iterable-helpers/last-or-default.ts:7 | the filtered source is the items at the kept positions, in source order |
| SeqFilter.FilterMembers | base/source/utils/async-iterable-helpers/last-or-default.ts:7 | an item is in the filtered source exactly when it sits at a position the predicate keeps |
| LastOrDefault.LastKeptIsLastPosition | base/source/utils/async-iterable-helpers/last-or-default.ts:7-15 | the last kept item is the one at the highest kept position |
| LastOrDefault.LastKeptIsLastFiltered | base/source/utils/async-iterable-helpers/last-or-default.ts:7-21 | the last kept position is the last element of the filtered source |
| LastOrDefault.WithoutPredicate | base/source/utils/async-iterable-helpers/last-or-default.ts:7 | without a predicate the result is the last element, or the default for an empty source |
| DateTime.Constants | base/source/utils/date-time.ts:4-8 | milliseconds per minute, hour, day and week have the stated values |
| DateTime.JsRem | base/source/utils/date-time.ts:73 | the truncating remainder takes the dividend's sign and is smaller than the divisor |
| DateTime.TimestampToNumericDate | base/source/utils/date-time.ts:63-65 | the date is the day that contains the timestamp |
| DateTime.TimestampToTime | base/source/utils/date-time.ts:72-74 | the time has the timestamp's sign, is less than a day in size, and differs from it by whole days |
| DateTime.TimestampToNumericDateAndTime | base/source/utils/date-time.ts:76-81 | the pair of date and time |
| DateTime.NumericDateToTimestamp | base/source/utils/date-time.ts:83-85 | the timestamp of a date is a whole number of days |
| DateTime.NumericDateTimeToTimestamp | base/source/utils/date-time.ts:98-100 | the timestamp is the date's timestamp plus the time |
| DateTime.DateRoundTrip | base/source/utils/date-time.ts:63-85 | a numeric date survives the trip through its timestamp |
| DateTime.DayStartHasTimeZero | base/source/utils/date-time.ts:72-85 | the start of a day has time 0 |
| DateTime.DateAndTimeRoundTrip | base/source/utils/date-time.ts:76-100 | for non-negative timestamps, date and time give back the timestamp, and the time lies within the day |
| DateTime.NegativeTimestampDoesNotRoundTrip | base/source/utils/date-time.ts:63-100 | the timestamp -1 splits into date -1 and time -1 and comes back as one day earlier |
| DateTime.TimestampToTimeFloored | base/source/utils/date-time.ts:72-74 | the floored time lies within the day and agrees with the code for non-negative timestamps |
| DateTime.TimestampToNumericDateAndTimeFloored | base/source/utils/date-time.ts:76-81 | the corrected pair: the floored date with the floored time of day |
| DateTime.FlooredDateAndTimeRoundTrip | base/source/utils/date-time.ts:76-100 | with the floored time every timestamp round-trips, and it agrees with the code exactly for non-negative timestamps and day starts |
| Timer.NewTimer | base/src/utils/timer.ts:30-36 | a new timer has elapsed 0 and runs exactly when started |
| Timer.Start | base/src/utils/timer.ts:52-56 | start while running changes nothing; otherwise it records the clock |
| Timer.Read | base/src/utils/timer.ts:93-100 | the current span is 0 when stopped and non-negative for a running timer started earlier |
| Timer.Stop | base/src/utils/timer.ts:58-64 | stop while stopped is a no-op; otherwise it adds the current span and stops |
| Timer.Reset | base/src/utils/timer.ts:71-74 | reset clears elapsed and stops |
| Timer.Restart | base/src/utils/timer.ts:66-69 | restart is a fresh timer running from now |
| Timer.Nanoseconds | base/src/utils/timer.ts:76-79 | the reading is elapsed plus the current span when running |
| Timer.Milliseconds | base/src/utils/timer.ts:85-87 | the millisecond reading times `NS_PER_MS` is the nanosecond reading |
| Timer.Measure | base/src/utils/timer.ts:38-43 | `measure` is the clock difference across the function in milliseconds, never negative for a clock that does not run backwards |
| Timer.StartStopKeepReading | base/src/utils/timer.ts:52-79 | stopping or starting at an instant keeps the reading, and a stopped timer's reading is frozen |
| Timer.ElapsedNeverDecreases | base/src/utils/timer.ts:58-74 | with a monotone clock and no reset, elapsed and the reading never decrease |
| Timer.MonotoneChain | base/src/utils/timer.ts:58-64 | later readings of a monotone clock are never smaller |
| Timer.ResetClears | base/src/utils/timer.ts:66-74 | after reset or restart the reading is 0 |
| Migrator.RevisionOf | base/source/migration/migrator.ts:59-60 | a missing state is `init`, a stored state its revision |
| Migrator.Latest | base/source/migration/migrator.ts:61 | the latest revision is the maximum `to` |
| Migrator.Choose | base/source/migration/migrator.ts:67-73 | none exactly when nothing applies; otherwise an applicable migration with the largest `to`, the first such |
| Migrator.Persist | base/source/migration/migrator.ts:88-98 | an insert exactly when no state existed, writing the migration's `to` |
| Migrator.Loop | base/source/migration/migrator.ts:53-101 | a finished loop stores the latest revision and runs at most one migration per scripted execution; a revision short of the latest that no migration applies to fails with `no suitable migration path` naming it and the latest |
| Migrator.NoSuitablePathAtDeadEnd | base/source/migration/migrator.ts:59-71 | `no suitable migration path` names the latest revision and a reached revision, the stored one or the `to` of a migration run, that is not the latest and that no migration applies to |
| Migrator.LoopFollowsScript | base/source/migration/migrator.ts:73-80 | each result records the current revision, the chosen `to` and the restart flag of its execution |
| Migrator.LoopChained | base/source/migration/migrator.ts:59-98 | each iteration starts from the revision the previous one left stored, and a restart leaves it unchanged |
| Migrator.LoopWrites | base/source/migration/migrator.ts:82-98 | one write per result that did not restart: an insert first when no state existed, patches after |
| Migrator.PersistedCons | base/source/migration/migrator.ts:82-98 | the count of persisting results adds up over a list |
| Migrator.Migrate | base/source/migration/migrator.ts:42-65 | an empty list fails with `no migrations provided`; a database at the latest revision runs nothing |
| Migrator.FreshDatabaseSkipsToHighest | base/source/migration/migrator.ts:59-98 | concrete run: from `init`, the applicable migration with the highest `to` is taken at each step |
| Migrator.RestartRunsAgain | base/source/migration/migrator.ts:80-86 | a restart re-reads the unchanged state and runs the same migration again |
| MongoQueryConverter.Mapped | mongo/src/query-converter.ts:13-18 | a mapped property takes the mapping's key and transformed value, any other its own name; `id` becomes `_id` |
| MongoQueryConverter.Convert | mongo/src/query-converter.ts:9-45 | converting `null` or `undefined` throws a TypeError |
| MongoQueryConverter.ConvertEntries | mongo/src/query-converter.ts:12-44 | the filter's keys are the converted names, and keys stay distinct; the values are stated by `ConvertedValues` |
| MongoQueryConverter.LastNamed | mongo/src/query-converter.ts:18-37 | the last query entry stored under a name, none exactly when no entry is |
| MongoQueryConverter.ConvertsIffAll | mongo/src/query-converter.ts:12-44 | the conversion succeeds exactly when every entry's value converts |
| MongoQueryConverter.ConvertedValues | mongo/src/query-converter.ts:12-44 | after a conversion each name holds the converted value of the last entry stored under it, and other names keep the filter's value |
| MongoQueryConverter.ConvertProperty | mongo/src/query-converter.ts:19-41 | primitives and comparison operands are copied; a logical operator yields an array; any other object or array is converted recursively, succeeding exactly when that nested conversion does |
| MongoQueryConverter.LogicalItemsAsWritten | mongo/src/query-converter.ts:24-61 | as written, an array operand yields no sub-queries |
| MongoQueryConverter.LogicalItemsFixed | mongo/src/query-converter.ts:51-61 | the corrected operand is the array itself |
| MongoQueryConverter.ConvertAll | mongo/src/query-converter.ts:52-60 | each sub-query is converted, in order |
| MongoQueryConverter.ConvertAllCons | mongo/src/query-converter.ts:52-60 | the converted list of `[q] + qs` is the converted `q` followed by the converted `qs` |
| MongoQueryConverter.ConvertedKeys | mongo/src/query-converter.ts:12-44 | the filter's keys are exactly the renamed query keys, without duplicates |
| MongoQueryConverter.SingleEntry | mongo/src/query-converter.ts:12-41 | a one-property query stores the converted value under the renamed key |
| MongoQueryConverter.PrimitiveCopied | mongo/src/query-converter.ts:21-22 | an unmapped primitive is copied under its own name, `id` as `_id` |
| MongoQueryConverter.MappedFirst | mongo/src/query-converter.ts:13-16 | a mapped property is renamed and transformed before any other rule applies |
| MongoQueryConverter.ComparisonKept | mongo/src/query-converter.ts:33-34 | a comparison operator keeps its operand untouched |
| MongoQueryConverter.LogicalAsWrittenThrows | mongo/src/query-converter.ts:24-61 | as written, any logical operator with an array operand throws |
| MongoQueryConverter.LogicalFixedConverts | mongo/src/query-converter.ts:24-61 | corrected, a logical operator converts each sub-query in order |
| MongoQueryConverter.AndExample | mongo/src/query-converter.ts:9-61 | `{ $and: [{ id: 1 }, { name: "x" }] }` converts to `_id` and `name` under the corrected code and throws as written |
| MongoQueryConverter.ConvertSort | mongo/src/query-converter.ts:63-66 | `desc` gives -1 and anything else 1; the field goes through the mapping's key when there is one |
| ElasticQueryConverter.ConvertMode | base/source/search-index/elastic/query-converter.ts:168-185 | undefined stays undefined; `best`, `most` and `cross` get the `_fields` suffix; anything else throws |
| ElasticQueryConverter.Operand | base/source/search-index/elastic/query-converter.ts:55-109 | an operator operand exists exactly when the value owns that property |
| ElasticQueryConverter.SpanClause | base/source/search-index/elastic/query-converter.ts:46-53 | only `$textSpan` produces a clause, and it is a `multi_match` |
| ElasticQueryConverter.EqClause | base/source/search-index/elastic/query-converter.ts:55-62 | a primitive or `$eq` operand gives a `term` on the property |
| ElasticQueryConverter.OperatorClauses | base/source/search-index/elastic/query-converter.ts:64-123 | `$in` gives `terms`, the range operands one `range` holding each of them, and `$regex` a `regexp`, all in `must`; `$neq` gives `term` and `$nin` `terms` in `mustNot`; every clause comes from one of these operands, and a non-object gives none |
| ElasticQueryConverter.TextOperandClause | base/source/search-index/elastic/query-converter.ts:125-138 | no `$text` operand gives no clause; a string gives `match` with that query; `null` or `undefined` throws; any other operand gives `match` with its `text` and `operator` |
| ElasticQueryConverter.PropertyClauses | base/source/search-index/elastic/query-converter.ts:46-142 | a handled property contributes at least one clause; `null` and `undefined` throw |
| ElasticQueryConverter.AllOk | base/source/search-index/elastic/query-converter.ts:156-166 | all sub-queries succeed exactly when each does, and their results are kept in order |
| ElasticQueryConverter.Convert | base/source/search-index/elastic/query-converter.ts:10-150 | `null` or `undefined` throws, and `match_all` is returned exactly for a value without entries |
| ElasticQueryConverter.Loop | base/source/search-index/elastic/query-converter.ts:15-150 | `match_all` exactly when the loop ends without collected clauses |
| ElasticQueryConverter.SingleProperty | base/source/search-index/elastic/query-converter.ts:15-149 | a one-property query is the bool query of that property's clauses |
| ElasticQueryConverter.MatchAllIffEmpty | base/source/search-index/elastic/query-converter.ts:145-147 | `match_all` is returned exactly for the empty query |
| ElasticQueryConverter.LogicalMustStandAlone | base/source/search-index/elastic/query-converter.ts:22-44 | a logical key next to other keys makes the loop fail |
| ElasticQueryConverter.LoopLogicalWithOthers | base/source/search-index/elastic/query-converter.ts:22-44 | reaching a logical key in a level of several keys throws `only one logical operator per level allowed` |
| ElasticQueryConverter.LoopStep | base/source/search-index/elastic/query-converter.ts:15-143 | one loop pass over a non-logical property adds its clauses and continues |
| ElasticQueryConverter.LogicalWithOthersFails | base/source/search-index/elastic/query-converter.ts:22-44 | a query with a logical key among several keys fails |
| ElasticQueryConverter.LogicalOperators | base/source/search-index/elastic/query-converter.ts:156-166 | `$and`, `$or` and `$nor` become `must`, `should` and `mustNot` over the converted sub-queries |
| ElasticQueryConverter.PrimitiveTerm | base/source/search-index/elastic/query-converter.ts:55-62 | a non-nullish primitive is one `term` in `must`; a nullish one throws |
| ElasticQueryConverter.EqAndIn | base/source/search-index/elastic/query-converter.ts:55-80 | `$eq` gives `term` and `$in` gives `terms`, both in `must` |
| ElasticQueryConverter.NeqAndNin | base/source/search-index/elastic/query-converter.ts:64-89 | `$neq` gives `term` and `$nin` gives `terms`, both in `mustNot`, `$neq` first |
| ElasticQueryConverter.RangeMerged | base/source/search-index/elastic/query-converter.ts:91-114 | range operators on one property merge into a single `range` clause |
| ElasticQueryConverter.UnknownOperatorThrows | base/source/search-index/elastic/query-converter.ts:140-142 | an object without a known operator throws `unsupported query type` naming the property |
| ElasticQueryConverter.IdRenamed | base/source/search-index/elastic/query-converter.ts:152-154 | `id` is searched as `_id` |
| MongoDocument.ToEntity | mongo/src/model/document.ts:13-22 | `_id` is replaced by `id` holding its value; other fields are unchanged |
| MongoDocument.ToMongoDocument | mongo/src/model/document.ts:24-33 | `id` is replaced by `_id` holding its value; the result has no `id` key |
| MongoDocument.WithId | mongo/src/model/document.ts:27-30 | `_id` holds the given id unless the entity has its own `_id`, which the spread keeps |
| MongoDocument.ToMongoDocumentWithPartialId | mongo/src/model/document.ts:35-46 | `_id` is present exactly when `id` is defined (or the entity has its own `_id`) |
| MongoDocument.ToMongoDocumentWithNewId | mongo/src/model/document.ts:48-57 | `_id` is the defined id, or else the fresh one |
| MongoDocument.EntityRoundTrip | mongo/src/model/document.ts:13-33 | every field of an entity without `_id` survives the trip to a document and back |
| MongoDocument.EntityRoundTripExact | mongo/src/model/document.ts:13-33 | an entity whose `id` comes first comes back exactly |
| MongoDocument.DocumentRoundTrip | mongo/src/model/document.ts:13-33 | every field of a document without `id` survives the trip to an entity and back |
| MongoDocument.EntityIdOverridden | mongo/src/model/document.ts:27-30 | an entity's own `_id` overrides its `id` in the document |
| MongoDocument.PartialIdPresentIffDefined | mongo/src/model/document.ts:35-46 | `_id` is present exactly when `id` is defined, and then the result is `toMongoDocument`'s |
| MongoDocument.NewIdKeepsDefinedId | mongo/src/model/document.ts:48-57 | a defined id is kept; otherwise the fresh id is used |
| MongoEntityRepository.NormalizeIndex | base/source/database/mongo/mongo-entity-repository.ts:340-343 | exactly `v`, `background` and `ns` are removed; everything else reads as before |
| MongoEntityRepository.NormalizeIdempotent | base/source/database/mongo/mongo-entity-repository.ts:340-343 | normalising twice is normalising once |
| MongoEntityRepository.Where | base/source/database/mongo/mongo-entity-repository.ts:77-90 | `filter`: exactly the elements that pass |
| MongoEntityRepository.ExistingIndexes | base/source/database/mongo/mongo-entity-repository.ts:76-77 | the existing indexes are the normalised raw ones except `_id_` |
| MongoEntityRepository.Reconcile | base/source/database/mongo/mongo-entity-repository.ts:69-100 | nothing without configured indexes; a nameless wanted index throws; unwanted and required are the set differences under deep equality |
| MongoEntityRepository.IdIndexKept | base/source/database/mongo/mongo-entity-repository.ts:77 | the `_id_` index is never dropped |
| MongoEntityRepository.InSyncDoesNothing | base/source/database/mongo/mongo-entity-repository.ts:89-100 | when wanted and existing indexes match, nothing is dropped or created |
| MongoEntityRepository.MapPatchEntries | base/source/database/mongo/mongo-entity-repository.ts:325-334 | each patch property is renamed and transformed through its mapping, or passed through |
| MongoEntityRepository.TransformPatch | base/source/database/mongo/mongo-entity-repository.ts:322-337 | the update is one `$set` whose keys are the renamed patch keys, without duplicates |
| MongoEntityRepository.PatchWithoutCollisions | base/source/database/mongo/mongo-entity-repository.ts:322-337 | without name collisions the `$set` holds the mapped entries in order |
| MongoEntityRepository.UnmappedPatchPassesThrough | base/source/database/mongo/mongo-entity-repository.ts:331-336 | without mappings the patch is wrapped unchanged |
| MongoEntityRepository.LaterPatchPropertyWins | base/source/database/mongo/mongo-entity-repository.ts:325-334 | two properties mapped to one key: the later one wins |
| MongoEntityRepository.ConvertOptions | base/source/database/mongo/mongo-entity-repository.ts:345-357 | undefined stays undefined; skip and limit are copied and each sort item is converted |
| MongoEntityRepository.PatchLoadOptions | base/source/database/mongo/mongo-entity-repository.ts:194-204 | `returnDocument` is `after` exactly when the patch is included, else `before`, over the converted options |
| MongoQueue.NewJob | mongo/src/queue/queue.ts:38-45 | a new job has `tries` 0, `lastDequeueTimestamp` 0, no batch and the current time |
| MongoQueue.NewJobs | mongo/src/queue/queue.ts:51-60 | one new job per item, all with one clock reading |
| MongoQueue.ToModelJob | mongo/src/queue/queue.ts:130-137 | only `id` and `data` are handed out |
| MongoQueue.DequeueFindParameters | mongo/src/queue/queue.ts:140-158 | the dequeue bound is `now - processTimeout` |
| MongoQueue.MarkDequeued | mongo/src/queue/queue.ts:149-155 | dequeuing adds one try, sets the dequeue time and the batch, and keeps the rest |
| MongoQueue.DequeuedJobIneligible | mongo/src/queue/queue.ts:141-155 | a job just dequeued is not eligible again at the same instant |
| MongoQueue.FirstInOrder | mongo/src/queue/queue.ts:69-76 | none exactly when no job is eligible; otherwise the eligible job no other sorts before, the first among equals |
| MongoQueue.Dequeue | mongo/src/queue/queue.ts:66-79 | no job exactly when none is eligible; otherwise the smallest eligible job is updated and handed out |
| MongoQueue.FirstEligible | mongo/src/queue/queue.ts:87-89 | a bulk update takes the first eligible job in natural order |
| MongoQueue.BulkDequeue | mongo/src/queue/queue.ts:85-91 | the bulk keeps the number of jobs |
| MongoQueue.Count | mongo/src/queue/queue.ts:93 | a count never exceeds the number of jobs |
| MongoQueue.CountUpdate | mongo/src/queue/queue.ts:87-89 | replacing one job changes a count by that job's contribution |
| MongoQueue.DequeueStep | mongo/src/queue/queue.ts:87-89 | one update of the bulk removes one job from the eligible ones and adds it to the batch, and still no eligible job carries the batch id |
| MongoQueue.CountZero | mongo/src/queue/queue.ts:93 | a count is zero exactly when no job qualifies |
| MongoQueue.BulkDequeueTakes | mongo/src/queue/queue.ts:85-91 | each update of the bulk moves one eligible job into the batch, until none is left |
| MongoQueue.Taken | mongo/src/queue/queue.ts:85-91 | `count` updates take `min(count, eligible)` jobs, none for a non-positive count |
| MongoQueue.TakesFirst | mongo/src/queue/queue.ts:87-89 | the same count when the first update finds an eligible job |
| MongoQueue.DequeueMany | mongo/src/queue/queue.ts:81-96 | every job handed out carries the fresh batch id |
| MongoQueue.InBatchJobs | mongo/src/queue/queue.ts:93 | exactly the jobs of the batch are loaded |
| MongoQueue.DequeueManyCount | mongo/src/queue/queue.ts:81-96 | `dequeueMany(count)` hands out `min(count, eligible)` jobs |
| MongoQueue.CountSame | mongo/src/queue/queue.ts:93 | counts under equal predicates are equal |
| MongoQueue.Acknowledge | mongo/src/queue/queue.ts:98-101 | exactly the jobs with the given ids are deleted |
| MongoQueue.ConsumerPasses | mongo/src/queue/queue.ts:103-114 | a poll without a job asks for a backoff; a found job is yielded |
| MongoQueue.ConsumerDelays | mongo/src/queue/queue.ts:11-16 | the consumer waits 100 ms doubled per empty poll, capped at 5000 |
| MongoQueue.ConsumerWaits | mongo/src/queue/queue.ts:103-114 | with the corrected backoff helper, which starts at `initialDelay` (see Findings), every empty poll of the consumer waits the delay of the current run of empty polls |
| MongoLockRepository.TryInsertOrRefresh | mongo/src/lock/mongo-lock-repository.ts:19-43 | a match (held by the caller or expired) gets the new expiry but keeps its key, and reports the date only when modified; no record inserts; a live foreign record reports false |
| MongoLockRepository.TryInsertOrRefreshFixed | mongo/src/lock/mongo-lock-repository.ts:19-43 | corrected: a match also takes the caller's key |
| MongoLockRepository.Exists | mongo/src/lock/mongo-lock-repository.ts:45-47 | true exactly for a record that has not expired |
| MongoLockRepository.TryUpdateExpiration | mongo/src/lock/mongo-lock-repository.ts:49-53 | only the holder's record is updated; the date is returned exactly when it changed |
| MongoLockRepository.DeleteByRessource | mongo/src/lock/mongo-lock-repository.ts:55-57 | only the holder's record is deleted |
| MongoLockRepository.FixedExcludesOthers | mongo/src/lock/mongo-lock-repository.ts:19-57 | under the corrected upsert another key cannot take, extend or delete a live lock |
| MongoLockRepository.FixedSuccessHolds | mongo/src/lock/mongo-lock-repository.ts:19-47 | under the corrected upsert a successful caller holds the lock until the new date |
| MongoLockRepository.TakeoverKeepsOldHolder | mongo/src/lock/mongo-lock-repository.ts:19-57 | as written, taking over an expired lock reports success but the old holder keeps it |
| MongoLockRepository.AgreeWithoutTakeover | mongo/src/lock/mongo-lock-repository.ts:19-43 | without a takeover both versions agree |
| RedisLockProvider.LockKey | redis/src/lock/provider.ts:17-22 | the store key is `lock:` followed by the key |
| RedisLockProvider.LockKeyInjective | redis/src/lock/provider.ts:17-22 | distinct keys have distinct store keys |
| RedisLockProvider.Get | redis/src/lock/provider.ts:32 | `GET` returns the value of a live key and false otherwise |
| RedisLockProvider.PExpireAt | redis/src/lock/provider.ts:43 | `PEXPIREAT` returns 1 exactly for a live key; a past timestamp deletes it |
| RedisLockProvider.Acquire | redis/src/lock/provider.ts:25-51 | `owned` for the holder, `failed` for another holder, `acquired` with the new expiry when free |
| RedisLockProvider.Refresh | redis/src/lock/provider.ts:53-68 | only the holder moves the expiry; others get 0 |
| RedisLockProvider.Del | redis/src/lock/provider.ts:81 | `DEL` removes the key and returns 1 exactly when it was live |
| RedisLockProvider.ReleaseAsWritten | redis/src/lock/provider.ts:70-85 | as written, only the holder releases; the force flag has no effect |
| RedisLockProvider.Release | redis/src/lock/provider.ts:70-85 | corrected: the holder or a forced call deletes the key |
| RedisLockProvider.Time | redis/src/lock/provider.ts:98 | `TIME` splits the clock into seconds and microseconds |
| RedisLockProvider.OwnedUntil | redis/src/lock/provider.ts:87-104 | the holder gets its expiry timestamp; anyone else gets 0 |
| RedisLockProvider.MillisecondsOfTime | redis/src/lock/provider.ts:99 | the script's conversion of `TIME` gives the clock in whole milliseconds |
| RedisLockProvider.AcquiredIsExclusive | redis/src/lock/provider.ts:25-85 | until it expires, an acquired lock cannot be taken, refreshed or released by another id |
| RedisLockProvider.ForceIgnored | redis/src/lock/provider.ts:75-81 | a forced release by a non-holder deletes nothing as written and deletes the key when corrected |
| RedisLockProvider.OwnedAfterAcquire | redis/src/lock/provider.ts:25-104 | the holder reads back the expiry it acquired with |
| RedisStream.FieldValueArray | redis/src/stream/stream.ts:315-324 | every field is followed by its value, and the length is twice the field count |
| RedisStream.Pairs | redis/src/stream/stream.ts:380-385 | the consecutive pairs of the array; a missing last value is undefined |
| RedisStream.ParseEntry | redis/src/stream/stream.ts:377-388 | the entry keeps its id, and its data has the array's field names once each |
| RedisStream.Defined | redis/src/stream/stream.ts:377-388 | source data seen as parsed data: every value defined |
| RedisStream.EntryRoundTrip | redis/src/stream/stream.ts:315-388 | parsing the array built from some data gives that data back |
| RedisStream.RepeatedFieldLaterWins | redis/src/stream/stream.ts:380-385 | a repeated field keeps its later value |
| RedisStream.ParseEntries | redis/src/stream/stream.ts:372-375 | each item is parsed, in order |
| RedisStream.ParseReadAppend | redis/src/stream/stream.ts:326-333 | parsing a reply in two parts parses each part and joins the results |
| RedisStream.ParseReadFlattens | redis/src/stream/stream.ts:326-333 | the read reply's entries are those of every stream, stream after stream |
| RedisStream.At | redis/src/stream/stream.ts:341-361 | a read past the end of the reply is undefined |
| RedisStream.ParseEntryValue | redis/src/stream/stream.ts:357-377 | destructuring a nil entry throws; a parsed entry has the reply's id |
| RedisStream.Strings | redis/src/stream/stream.ts:377 | the strings of a bulk-string array, element by element |
| RedisStream.InfoStep | redis/src/stream/stream.ts:339-366 | each recognised name sets its property, unknown names change nothing, and only entries can fail |
| RedisStream.ParseInfoFailsOnlyOnEntries | redis/src/stream/stream.ts:335-370 | the info parser fails only on an entry it cannot parse |
| RedisStream.CountsPrefix | redis/src/stream/stream.ts:338-354 | the counts of an empty stream's reply are read into their properties |
| RedisStream.EmptyStreamInfoThrows | redis/src/stream/stream.ts:356-358 | as written, the info of an empty stream throws at its nil first entry |
| RedisStream.EmptyStreamInfoParsed | redis/src/stream/stream.ts:335-370 | corrected, the info of an empty stream has its counts and no entries |
| RedisStream.ParseRecordFrom | redis/src/stream/stream.ts:390-438 | `name` is set exactly when some step of the loop reads the name `name` |
| RedisStream.GroupInfoExample | redis/src/stream/stream.ts:390-413 | a group reply in Redis's order sets name, consumers and pending, and skips the unknown field |
| RedisStream.ReadArguments | redis/src/stream/stream.ts:168-181 | `COUNT` only with a count and `BLOCK` only with a block, with their values, then `STREAMS`, stream, id |
| RedisStream.ReadGroupArgumentsAsWritten | redis/src/stream/stream.ts:183-194 | as written, `NOACK` is sent whenever `noAck` is given |
| RedisStream.ReadGroupArguments | redis/src/stream/stream.ts:183-194 | corrected, `NOACK` is sent exactly for `noAck: true` |
| RedisStream.GroupArguments | redis/src/stream/stream.ts:184-194 | `GROUP`, group and consumer, then the options, then `STREAMS`, stream, id |
| RedisStream.NoAckFalseSendsNoAck | redis/src/stream/stream.ts:190 | `noAck: false` sends `NOACK` as written and not when corrected |
| RedisStream.ReadGroupResult | redis/src/stream/stream.ts:196-204 | a nil reply is no entries; otherwise the entries of all streams |
| RedisStream.CreateGroupArguments | redis/src/stream/stream.ts:305-312 | the start id is the string argument or `0`; `MKSTREAM` exactly when the boolean argument, or else `mkStream`, is set |
| RedisStream.AddCommand | redis/src/stream/stream.ts:61-77 | `XADD` with the given id or `*` and the field/value array |
| RedisStream.AcknowledgeDeleteTransaction | redis/src/stream/stream.ts:128-139 | an empty id list throws `empty ids array`; otherwise `XACK` then `XDEL` of the ids |
| RedisStream.AcknowledgeDeleteAddTransaction | redis/src/stream/stream.ts:141-159 | empty ids throw first, then empty entries; otherwise `XACK`, `XDEL`, then one `XADD` per entry |
| RedisStream.NewIds | redis/src/stream/stream.ts:161-165 | the returned ids are the results after the first two |
| PrimitivesHandler.CanSerialize | base/src/serializer/handlers/primitives.ts:7-10 | true exactly for `null`, `undefined`, strings, numbers and booleans |
| PrimitivesHandler.Serialize | base/src/serializer/handlers/primitives.ts:12-17 | the element is tagged `primitive` |
| PrimitivesHandler.CanDeserialize | base/src/serializer/handlers/primitives.ts:19-21 | true exactly for the tag `primitive` |
| PrimitivesHandler.RoundTrip | base/src/serializer/handlers/primitives.ts:12-25 | every value comes back from its serialized form, which the handler claims |
| PrototypeHandler.Register | base/src/serializer/handlers/prototype.ts:26-28 | the class is stored under its name, replacing an earlier one; other names are unchanged |
| PrototypeHandler.CanSerialize | base/src/serializer/handlers/prototype.ts:30-33 | true exactly for instances with a `serialize` method; `null` and `undefined` throw |
| PrototypeHandler.InstanceData | base/src/serializer/handlers/prototype.ts:41-44 | the data records the constructor name and the serialized data |
| PrototypeHandler.Serialize | base/src/serializer/handlers/prototype.ts:35-50 | tagged `prototype` with the constructor name and the serialized data; it fails without a `serialize` method |
| PrototypeHandler.PrototypeName | base/src/serializer/handlers/prototype.ts:54-62 | reading the recorded name throws exactly for nullish data |
| PrototypeHandler.CanDeserialize | base/src/serializer/handlers/prototype.ts:52-58 | true exactly for the tag `prototype` and a registered name |
| PrototypeHandler.Deserialize | base/src/serializer/handlers/prototype.ts:60-74 | a registered class rebuilds the value from the deserialized data; an unregistered name throws naming it |
| PrototypeHandler.RoundTrip | base/src/serializer/handlers/prototype.ts:35-74 | an instance of a registered class comes back when the class and the serializer invert their halves |
| PrototypeHandler.UnregisteredThrows | base/src/serializer/handlers/prototype.ts:52-66 | an unregistered class's form is not claimed, and deserializing it throws with its name |
| PrototypeHandler.RegisterClaims | base/src/serializer/handlers/prototype.ts:26-74 | registering claims a class's instances; re-registering a name switches to the new class |
| PrototypeHandler.TagsDisjoint | base/src/serializer/handlers/prototype.ts:39-58 | neither handler claims the other's output |

## Left out

- Awaiting is modelled only as suspension: a pull that waits on `buffer.added` is `Blocked`, and the next pull resumes it once the buffer holds an entry. The listeners of the `read`/`empty` deferred promises, timeouts and the internals of cancellation tokens are not modelled: `Next` states when `empty` resolves, other waits are preconditions, and a token is a boolean.
- Numbers are unbounded integers. Floating point, `NaN` and `Infinity` are not modelled. The unassigned backoff delay, which the code turns into `NaN`, is `None`.
- `Object.keys` and `Object.entries` list integer-like keys first in JavaScript. The model keeps insertion order for all keys, which affects only the order of such keys in `buildFieldValueArray`, `transformPatch` and the converters.
- Assigning a field named `__proto__` sets an object's prototype in JavaScript. The model treats it as an ordinary key.
- `equals` (deep equality in `initialize`) is a parameter, because its library is not part of this model.
- base/source/database/mongo/query-converter.ts is not part of this model. `transformFilter` is modelled by the converter of mongo/src/query-converter.ts.
- The queue's `job.ts` and the lock entity model are not part of this model. Their fields are taken from how the code uses them.
- The TTL index that deletes expired lock records is left out, because it runs in the background. An expired record that is still present behaves as the filters say.
- Generated ids are parameters: the random document id, the dequeue batch id and the fresh id of `toMongoDocumentWithNewId`.
- Logging, the migration lock (`lock.using`) and timing of migrations are left out as I/O. A restart re-reads the state through the script.
- The driver calls of `RedisStream` are left out as I/O: `range`, `get`, `getMany`, `delete`, `trim`, `info`, `getGroups`, `getConsumers`, `getPendingInfo` and the others.
- The Redis reply parsers expect the reply shapes Redis sends. A different shape where an entry belongs gives the error `unexpected reply` instead of JavaScript's destructuring of strings or short arrays.
- The serializer's dispatch among handlers, `Serializer.rawSerialize` and `Serializer.deserialize` are not part of this model. The two calls are function parameters.
- The rendering of a non-string class name into the `no prototype named ... registered` message is not modelled. The failure carries the name value.
- The following files are left out:
  - base/src/utils/async-iterable-helpers/parallel/map.ts and base/src/promise/cancelable-promise.ts, because their point is concurrency;
  - base/src/enumerable/async-enumerable.ts, base/src/utils/async-iterable-helpers/to-async-iterator.ts and the `index.ts` re-exports, because they only delegate or adapt;
  - base/src/utils/async-iterable-helpers/sort.ts, because it wraps a sort that is not part of this model;
  - mongo/src/mongo-base-repository.ts and mongo/src/utils.ts, because they are driver I/O;
  - base/src/serializer/handlers/regex.ts, because it wraps `RegExp`;
  - base/src/utils/periodic-sampler.ts, because it is timers and floating point;
  - server/src/process-shutdown.ts and base/source/logger/console/logger.ts, because they are process signals and console output;
  - base/source/database/id.ts, because it is randomness.
- The Luxon and `Date` functions of date-time.ts are library calls. The `microseconds` and `seconds` getters of `Timer` and its platform clock selection are floating point.
- `migrations.sort(...)` at migrator.ts:61 also reorders the caller's array in place. The model reads the list without changing it; `Choose` breaks ties by list order, which the stable sorts keep.
- Timer.Milliseconds: the division by `NS_PER_MS` is exact; the source divides in floating point and rounds.
- Timer.Measure: the result is an exact quotient of the clock difference, where the source's float division rounds; `measureAsync` is the same with an awaited function.
- MongoQueryConverter.Convert: the recursion into transformed values carries a fuel bound, because a transform's output is unbounded. A query nested deeper than the fuel converts to an error.
- ElasticQueryConverter.Convert: `BoolQueryBuilder` is not part of this model. The result is a plain bool query of `must`, `should` and `mustNot` lists.
- MongoQueryConverter.ConvertProperty: `allComparisonQueryTypes` is not part of this model. The comparison operator names are a parameter.
- MongoQueryConverter.ConvertProperty: the `unsupported query property` error (query-converter.ts:39-40) needs a value that is neither primitive nor object, such as a function. `Json` has no such value, so the model keeps the branch but never reaches it.
- MongoDocument.EntityRoundTrip: the round trip is stated field by field, because the spread moves `id` to the front. Exact equality is EntityRoundTripExact, for entities whose `id` comes first.
- RedisLockProvider.OwnedUntil: the result for a holder whose key has no expiry (`PTTL` -1) is not stated.
- RedisStream.ParseRecordFrom: the contract states only when `name` is assigned. The other properties are shown by GroupInfoExample.
- RedisLockProvider.Release: the force flag is assumed to arrive as the string `"1"`. The caller of the script is not part of this model.

## Findings

| source | as written | input that shows it | evidently intended | confidence | as-written member | corrected member |
|---|---|---|---|---|---|---|
| base/src/utils/backoff.ts:24-38 | the constructor never assigns `delay`, so a backoff before any reset waits `undefined` and the delay stays `NaN` | `backoffLoop` whose first pass asks for a backoff | the helper starts at `initialDelay` | not executed; high | Backoff.BackoffLoopUnassignedDelay | Backoff.LoopFixedWaits |
| base/source/utils/date-time.ts:63-81 | the date is floored but the time is a truncating remainder | timestamp -1 gives date -1, time -1, and converts back to -86400001 | a time of day in `[0, millisecondsPerDay)` paired with the floored date | not executed; medium | DateTime.NegativeTimestampDoesNotRoundTrip | DateTime.FlooredDateAndTimeRoundTrip |
| redis/src/lock/provider.ts:80 | `force == 1` compares the string argument with a number, which Lua never finds equal | a release by a non-holder with force `"1"` | a forced release deletes the lock | not executed; high | RedisLockProvider.ForceIgnored | RedisLockProvider.Release |
| mongo/src/query-converter.ts:24-31 | the array operand is passed to `convertLogicalAndQuery`, which reads `.$and` of it and calls `map` on `undefined` | `{ $and: [{ id: 1 }, { name: "x" }] }` | each sub-query of the array is converted | not executed; high | MongoQueryConverter.LogicalAsWrittenThrows | MongoQueryConverter.LogicalFixedConverts |
| mongo/src/lock/mongo-lock-repository.ts:33 | `key` sits under `$setOnInsert`, so taking over an expired lock keeps the old holder's key while reporting success | record `r` held by `a` until 5; `b` calls at 10 with date 20 | the new caller becomes the holder | not executed; high | MongoLockRepository.TakeoverKeepsOldHolder | MongoLockRepository.FixedSuccessHolds |
| redis/src/stream/stream.ts:356-361 | a nil `first-entry` or `last-entry` is destructured | `XINFO STREAM` of an empty stream | the entry is left unassigned | not executed; medium | RedisStream.EmptyStreamInfoThrows | RedisStream.EmptyStreamInfoParsed |
| redis/src/stream/stream.ts:190 | `noAck != undefined` adds `NOACK` | `readGroup` with `noAck: false` | `NOACK` only for `noAck: true` | not executed; medium | RedisStream.NoAckFalseSendsNoAck | RedisStream.ReadGroupArguments |
