/** `FeedableAsyncIterable` of `utils/feedable-async-iterable.ts`: a producer
    appends items or a terminal error to a buffer; a single consumer drains it,
    swapping the whole buffer out for a fresh one before yielding its entries.
    A pull runs the generator from where it was suspended to its next
    suspension; one that ends waiting on `buffer.added` reports `Blocked`. */
module Feedable {
  import opened Wrappers

  datatype Entry<T> = Item(item: T) | Failure(error: string)

  datatype Feed<T> = Feed(closed: bool, buffer: seq<Entry<T>>)

  function New<T>(): (f: Feed<T>)
    ensures !f.closed && |f.buffer| == 0
  {
    Feed(false, [])
  }

  /** `bufferSize`. */
  function BufferSize<T>(f: Feed<T>): nat {
    |f.buffer|
  }

  const ClosedMessage := "closed"

  /** `feed(item)`. */
  function FeedItem<T>(f: Feed<T>, x: T): (r: Result<Feed<T>, string>)
    ensures r.Err? <==> f.closed
    ensures r.Err? ==> r.error == ClosedMessage
    ensures r.Ok? ==> !r.value.closed && r.value.buffer == f.buffer + [Item(x)]
  {
    if f.closed then Err(ClosedMessage) else Ok(f.(buffer := f.buffer + [Item(x)]))
  }

  /** `end()`: unconditional, so ending twice is the same as ending once. */
  function End<T>(f: Feed<T>): (r: Feed<T>)
    ensures r.closed && r.buffer == f.buffer
  {
    f.(closed := true)
  }

  lemma EndTwice<T>(f: Feed<T>)
    ensures End(End(f)) == End(f)
  {
  }

  /** `throw(error)`: one terminal entry, then closed. */
  function Throw<T>(f: Feed<T>, e: string): (r: Result<Feed<T>, string>)
    ensures r.Err? <==> f.closed
    ensures r.Err? ==> r.error == ClosedMessage
    ensures r.Ok? ==> r.value.closed && r.value.buffer == f.buffer + [Failure(e)]
  {
    if f.closed then Err(ClosedMessage) else Ok(Feed(true, f.buffer + [Failure(e)]))
  }

  /** The consumer's generator: the feed, the batch it swapped out and is
      yielding from, whether it has returned or thrown, and where it is
      suspended: at `await this.buffer.added` (`waiting`) or at
      `yield entry.item` (`atYield`). */
  datatype Consumer<T> = Consumer(feed: Feed<T>, batch: seq<Entry<T>>, finished: bool, waiting: bool, atYield: bool)

  function Start<T>(f: Feed<T>): Consumer<T> {
    Consumer(f, [], false, false, false)
  }

  /** What one pull ends with. `Blocked`: the generator is suspended on
      `buffer.added` and stays there until an entry is appended. */
  datatype Outcome<T> = Yielded(item: T) | Raised(error: string) | Done | Blocked

  /** One pull. `emptied` is the `empty` signal, resolved when the generator
      resumes after its previous `yield` and finds the buffer empty. */
  datatype Pull<T> = Pull(outcome: Outcome<T>, emptied: bool)

  /** Every entry not yet handed to the consumer, in order. */
  function Outstanding<T>(c: Consumer<T>): seq<Entry<T>> {
    c.batch + c.feed.buffer
  }

  /** The generator at the head of its batch: an item is yielded, an error
      thrown. */
  function TakeFromBatch<T>(c: Consumer<T>, emptied: bool): (r: (Pull<T>, Consumer<T>))
    requires |c.batch| > 0 && !c.atYield
    ensures r.0.emptied == emptied && r.1.feed == c.feed
    ensures r.0.outcome.Yielded? || r.0.outcome.Raised?
    ensures r.1.atYield <==> r.0.outcome.Yielded?
    ensures r.0.outcome.Yielded? ==> r.1.finished == c.finished && [Item(r.0.outcome.item)] + Outstanding(r.1) == Outstanding(c)
    ensures r.0.outcome.Raised? ==> r.1.finished && Failure(r.0.outcome.error) == c.batch[0] && Outstanding(r.1) == r.1.feed.buffer
  {
    match c.batch[0]
    case Item(x) => (Pull(Yielded(x), emptied), c.(batch := c.batch[1..], atYield := true))
    case Failure(e) => (Pull(Raised(e), emptied), c.(batch := [], finished := true))
  }

  /** One pull of the drain loop of `[Symbol.asyncIterator]`: resume where
      the generator was suspended, then run to its next `yield`, `throw`,
      `return` or wait. A wait on `buffer.added` is resumed only by an
      appended entry, so it outlasts `end()`. */
  function Next<T>(c: Consumer<T>): (r: (Pull<T>, Consumer<T>))
    ensures r.0.emptied <==> !c.finished && c.atYield && |c.feed.buffer| == 0
    ensures r.0.outcome.Done? <==> (c.finished || (|c.batch| == 0 && !c.waiting && c.feed.closed && |c.feed.buffer| == 0))
    ensures r.0.outcome.Blocked? <==> (!c.finished && |c.batch| == 0 && |c.feed.buffer| == 0 && (c.waiting || !c.feed.closed))
    ensures r.0.outcome.Blocked? ==> r.1.waiting && !r.1.atYield
    ensures r.0.outcome.Blocked? || r.0.outcome.Done? ==> r.1.batch == c.batch && r.1.feed == c.feed
    ensures r.1.atYield <==> r.0.outcome.Yielded?
    ensures r.0.outcome.Yielded? ==> !c.finished && !r.1.finished && [Item(r.0.outcome.item)] + Outstanding(r.1) == Outstanding(c)
    ensures r.0.outcome.Raised? ==> r.1.finished && Failure(r.0.outcome.error) == Outstanding(c)[0]
    ensures r.0.outcome.Raised? ==> Outstanding(r.1) == r.1.feed.buffer
    ensures r.1.feed.closed == c.feed.closed
    ensures r.1.finished <==> c.finished || r.0.outcome.Raised? || r.0.outcome.Done?
  {
    if c.finished then (Pull(Done, false), c.(atYield := false))
    else
      var emptied := c.atYield && |c.feed.buffer| == 0;
      var resumed := c.(atYield := false);
      if |resumed.batch| > 0 then TakeFromBatch(resumed, emptied)
      else if |resumed.feed.buffer| == 0 then
        if resumed.waiting || !resumed.feed.closed then (Pull(Blocked, emptied), resumed.(waiting := true))
        else (Pull(Done, emptied), resumed.(finished := true))
      else
        var swapped := Consumer(resumed.feed.(buffer := []), resumed.feed.buffer, false, false, false);
        assert Outstanding(swapped) == Outstanding(c);
        TakeFromBatch(swapped, emptied)
  }

  /** A step of the producer or of the consumer. */
  datatype Op<T> = FeedOp(x: T) | EndOp | ThrowOp(e: string) | PullOp

  /** What a step or a run of steps produced: the entries the producer
      managed to append, the items and the error the consumer saw, and the
      calls the feed rejected with `'closed'`. */
  datatype Effect<T> = Effect(appended: seq<Entry<T>>, yielded: seq<T>, raised: Option<string>, rejected: nat)

  function Items<T>(ys: seq<T>): (r: seq<Entry<T>>)
    ensures |r| == |ys| && forall i :: 0 <= i < |ys| ==> r[i] == Item(ys[i])
  {
    seq(|ys|, i requires 0 <= i < |ys| => Item(ys[i]))
  }

  lemma ItemsAppend<T>(a: seq<T>, b: seq<T>)
    ensures Items(a + b) == Items(a) + Items(b)
  {
  }

  /** Splicing the accounting of one step onto that of the rest of a run. */
  lemma Rearrange<X>(a: seq<X>, b: seq<X>, o2: seq<X>, o1: seq<X>, o: seq<X>, p1: seq<X>, p2: seq<X>)
    requires b + o2 == o1 + p2
    requires a + o1 == o + p1
    ensures (a + b) + o2 == o + (p1 + p2)
  {
    calc {
      (a + b) + o2;
      a + (b + o2);
      a + (o1 + p2);
      (a + o1) + p2;
      (o + p1) + p2;
    }
  }

  lemma PrefixRearrange<X>(a: seq<X>, b: seq<X>, o1: seq<X>, o: seq<X>, p1: seq<X>, p2: seq<X>)
    requires b <= o1 + p2
    requires a + o1 == o + p1
    ensures a + b <= o + (p1 + p2)
  {
    calc {
      o + (p1 + p2);
      (o + p1) + p2;
      (a + o1) + p2;
      a + (o1 + p2);
    }
  }

  function Step<T>(c: Consumer<T>, op: Op<T>): (r: (Consumer<T>, Effect<T>))
    ensures c.finished ==> r.0.finished && r.1.yielded == [] && r.1.raised.None?
    ensures !c.finished && r.1.raised.None? && !r.0.finished ==>
      Items(r.1.yielded) + Outstanding(r.0) == Outstanding(c) + r.1.appended
    ensures !c.finished && r.1.raised.Some? ==>
      r.0.finished && r.1.yielded == [] && |Outstanding(c)| > 0 && Outstanding(c)[0] == Failure(r.1.raised.value)
    ensures !c.finished && r.0.finished && r.1.raised.None? ==> r.1.yielded == []
  {
    match op
    case FeedOp(x) =>
      (match FeedItem(c.feed, x)
       case Ok(f) =>
         assert Outstanding(c.(feed := f)) == Outstanding(c) + [Item(x)];
         (c.(feed := f), Effect([Item(x)], [], None, 0))
       case Err(_) => (c, Effect([], [], None, 1)))
    case EndOp => (c.(feed := End(c.feed)), Effect([], [], None, 0))
    case ThrowOp(e) =>
      (match Throw(c.feed, e)
       case Ok(f) =>
         assert Outstanding(c.(feed := f)) == Outstanding(c) + [Failure(e)];
         (c.(feed := f), Effect([Failure(e)], [], None, 0))
       case Err(_) => (c, Effect([], [], None, 1)))
    case PullOp => PullStep(c)
  }

  /** A pull as a step: what the consumer saw, as an effect. */
  function PullStep<T>(c: Consumer<T>): (r: (Consumer<T>, Effect<T>))
    ensures r.1.appended == [] && r.1.rejected == 0
    ensures c.finished ==> r.0.finished && r.1.yielded == [] && r.1.raised.None?
    ensures !c.finished && r.1.raised.None? && !r.0.finished ==>
      Items(r.1.yielded) + Outstanding(r.0) == Outstanding(c)
    ensures !c.finished && r.1.raised.Some? ==>
      r.0.finished && r.1.yielded == [] && |Outstanding(c)| > 0 && Outstanding(c)[0] == Failure(r.1.raised.value)
    ensures !c.finished && r.0.finished && r.1.raised.None? ==> r.1.yielded == []
  {
    var (p, c') := Next(c);
    match p.outcome
    case Yielded(x) => (c', Effect([], [x], None, 0))
    case Raised(e) => (c', Effect([], [], Some(e), 0))
    case Done => (c', Effect([], [], None, 0))
    case Blocked => (c', Effect([], [], None, 0))
  }

  /** The effect of `a` followed by that of `b`; only the first error counts. */
  function Then<T>(a: Effect<T>, b: Effect<T>): Effect<T> {
    Effect(a.appended + b.appended, a.yielded + b.yielded,
           if a.raised.Some? then a.raised else b.raised, a.rejected + b.rejected)
  }

  function Run<T>(c: Consumer<T>, ops: seq<Op<T>>): (r: (Consumer<T>, Effect<T>))
    decreases |ops|
  {
    if |ops| == 0 then (c, Effect([], [], None, 0))
    else
      var (c1, e1) := Step(c, ops[0]);
      var (c2, e2) := Run(c1, ops[1..]);
      (c2, Then(e1, e2))
  }

  /** A finished consumer pulls nothing more. */
  lemma {:induction false} FinishedYieldsNothing<T>(c: Consumer<T>, ops: seq<Op<T>>)
    requires c.finished
    ensures Run(c, ops).1.yielded == [] && Run(c, ops).1.raised.None? && Run(c, ops).0.finished
    decreases |ops|
  {
    if |ops| > 0 {
      FinishedYieldsNothing(Step(c, ops[0]).0, ops[1..]);
    }
  }

  /** FIFO without loss or duplication: whatever was outstanding at the start
      or appended during the run is either handed to the consumer, in append
      order, or still outstanding at the end. */
  lemma {:induction false} RunPreservesOrder<T>(c: Consumer<T>, ops: seq<Op<T>>)
    requires !c.finished
    requires Run(c, ops).1.raised.None? && !Run(c, ops).0.finished
    ensures Items(Run(c, ops).1.yielded) + Outstanding(Run(c, ops).0) == Outstanding(c) + Run(c, ops).1.appended
    decreases |ops|
  {
    if |ops| > 0 {
      var (c1, e1) := Step(c, ops[0]);
      var (c2, e2) := Run(c1, ops[1..]);
      assert Run(c, ops) == (c2, Then(e1, e2));
      if c1.finished {
        FinishedYieldsNothing(c1, ops[1..]);
      } else {
        RunPreservesOrder(c1, ops[1..]);
        ItemsAppend(e1.yielded, e2.yielded);
        Rearrange(Items(e1.yielded), Items(e2.yielded), Outstanding(c2), Outstanding(c1), Outstanding(c), e1.appended, e2.appended);
      }
    }
  }

  /** The error entry ends the iteration, and only after every entry appended
      before it has been yielded. */
  lemma {:induction false} RunRaisesAfterEarlierItems<T>(c: Consumer<T>, ops: seq<Op<T>>)
    requires !c.finished
    requires Run(c, ops).1.raised.Some?
    ensures Run(c, ops).0.finished
    ensures Items(Run(c, ops).1.yielded) + [Failure(Run(c, ops).1.raised.value)] <= Outstanding(c) + Run(c, ops).1.appended
    decreases |ops|
  {
    var (c1, e1) := Step(c, ops[0]);
    var (c2, e2) := Run(c1, ops[1..]);
    assert Run(c, ops) == (c2, Then(e1, e2));
    var t := Then(e1, e2);
    if e1.raised.Some? {
      FinishedYieldsNothing(c1, ops[1..]);
      assert t.yielded == [] && t.raised == e1.raised;
    } else if c1.finished {
      FinishedYieldsNothing(c1, ops[1..]);
    } else {
      RunRaisesAfterEarlierItems(c1, ops[1..]);
      var f := [Failure(t.raised.value)];
      ItemsAppend(e1.yielded, e2.yielded);
      PrefixRearrange(Items(e1.yielded), Items(e2.yielded) + f, Outstanding(c1), Outstanding(c), e1.appended, e2.appended);
      assert Items(t.yielded) + f == Items(e1.yielded) + (Items(e2.yielded) + f);
    }
  }

  /** Feeding `a, b, c`, ending, and pulling until the end yields exactly
      `a, b, c` and leaves the buffer empty. */
  lemma FeedEndDrain<T>(a: T, b: T, c: T)
    ensures var r := Run(Start(New<T>()), [FeedOp(a), FeedOp(b), FeedOp(c), EndOp, PullOp, PullOp, PullOp, PullOp]);
      r.1.yielded == [a, b, c] && r.1.raised.None? && r.0.finished && BufferSize(r.0.feed) == 0
  {
    var ops: seq<Op<T>> := [FeedOp(a), FeedOp(b), FeedOp(c), EndOp, PullOp, PullOp, PullOp, PullOp];
    var s0 := Start(New<T>());
    var s1 := Step(s0, ops[0]).0;
    var s2 := Step(s1, ops[1]).0;
    var s3 := Step(s2, ops[2]).0;
    var s4 := Step(s3, ops[3]).0;
    assert s4 == Consumer(Feed(true, [Item(a), Item(b), Item(c)]), [], false, false, false);
    var s5 := Step(s4, ops[4]).0;
    assert s5 == Consumer(Feed(true, []), [Item(b), Item(c)], false, false, true);
    var s6 := Step(s5, ops[5]).0;
    assert s6 == Consumer(Feed(true, []), [Item(c)], false, false, true);
    var s7 := Step(s6, ops[6]).0;
    assert s7 == Consumer(Feed(true, []), [], false, false, true);
    var s8 := Step(s7, ops[7]).0;
    assert s8.finished;
    assert Run(s7, ops[7..]).1.yielded == [];
    assert Run(s6, ops[6..]).1.yielded == [c];
    assert Run(s5, ops[5..]).1.yielded == [b, c];
    assert Run(s4, ops[4..]).1.yielded == [a, b, c];
    assert Run(s3, ops[3..]).1.yielded == [a, b, c];
    assert Run(s2, ops[2..]).1.yielded == [a, b, c];
    assert Run(s1, ops[1..]).1.yielded == [a, b, c];
    assert Run(s0, ops).1.yielded == [a, b, c];
  }

  /** `end()` appends nothing and feeding after it throws `closed`, so a
      consumer already waiting on an empty buffer is never resumed: it
      neither yields nor finishes, whatever happens afterwards. */
  lemma {:induction false} EndStrandsWaiter<T>(c: Consumer<T>, ops: seq<Op<T>>)
    requires !c.finished && c.waiting && !c.atYield && |c.batch| == 0
    requires c.feed.closed && |c.feed.buffer| == 0
    ensures Run(c, ops).0 == c
    ensures Run(c, ops).1.yielded == [] && Run(c, ops).1.raised.None? && Run(c, ops).1.appended == []
    decreases |ops|
  {
    if |ops| > 0 {
      assert Step(c, ops[0]).0 == c;
      EndStrandsWaiter(c, ops[1..]);
    }
  }

  /** A pull on an open, empty feed waits; ending the feed afterwards leaves
      that wait pending for ever, where ending it before the pull lets the
      iteration finish. */
  lemma WaitThenEnd<T>(ops: seq<Op<T>>)
    ensures var r := Run(Start(New<T>()), [PullOp, EndOp] + ops);
      !r.0.finished && r.1.yielded == [] && r.1.raised.None?
    ensures Run(Start(New<T>()), [EndOp, PullOp]).0.finished
  {
    var all := [PullOp, EndOp] + ops;
    var c1 := Step(Start(New<T>()), PullOp).0;
    assert c1 == Consumer(Feed(false, []), [], false, true, false);
    var c2 := Step(c1, EndOp).0;
    assert c2 == Consumer(Feed(true, []), [], false, true, false);
    EndStrandsWaiter(c2, ops);
    assert all[1..] == [EndOp] + ops && all[1..][1..] == ops;
    var ends: seq<Op<T>> := [EndOp, PullOp];
    assert ends[1..][1..] == [];
  }

  /** The `empty` signal is decided when the generator resumes after a
      `yield`: an item fed between two pulls keeps it unresolved, and a
      pull that finds the buffer drained resolves it. */
  lemma EmptiedOnResume<T>(a: T, b: T)
    ensures var c1 := Run(Start(New<T>()), [FeedOp(a), PullOp]).0;
      && Next(c1).0.emptied
      && !Next(Step(c1, FeedOp(b)).0).0.emptied
      && Next(Step(c1, FeedOp(b)).0).0.outcome == Yielded(b)
  {
    var ops: seq<Op<T>> := [FeedOp(a), PullOp];
    var c0 := Step(Start(New<T>()), FeedOp(a)).0;
    assert c0 == Consumer(Feed(false, [Item(a)]), [], false, false, false);
    var c1 := Step(c0, PullOp).0;
    assert c1 == Consumer(Feed(false, []), [], false, false, true);
    assert ops[1..] == [PullOp] && ops[1..][1..] == [];
    assert Run(c1, []).0 == c1;
    assert Run(c0, ops[1..]).0 == c1;
    assert Run(Start(New<T>()), ops).0 == c1;
  }
}
