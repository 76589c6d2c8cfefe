/** The stopwatch of `utils/timer.ts`. The platform clock is a parameter:
    every operation that reads the clock takes its current reading `now`, in
    nanoseconds, and the span since `begin` is `now - begin`. */
module Timer {
  import opened Wrappers

  /** `elapsedNanoseconds` and the clock reading taken at the last start,
      absent while the timer is stopped. */
  datatype Timer = Timer(elapsed: int, begin: Option<int>) {
    predicate Running() { begin.Some? }
  }

  function Start(t: Timer, now: int): (r: Timer)
    ensures r.Running() && r.elapsed == t.elapsed
    ensures t.Running() ==> r == t
    ensures !t.Running() ==> r.begin == Some(now)
  {
    if t.begin.None? then Timer(t.elapsed, Some(now)) else t
  }

  /** `new Timer(start)`. */
  function NewTimer(start: bool, now: int): (r: Timer)
    ensures r.elapsed == 0
    ensures r.Running() <==> start
  {
    var t := Timer(0, None);
    if start then Start(t, now) else t
  }

  /** The private `read`: the span of the current run, 0 when stopped. */
  function Read(t: Timer, now: int): (r: int)
    ensures !t.Running() ==> r == 0
    ensures t.Running() && t.begin.value <= now ==> r >= 0
  {
    if t.begin.None? then 0 else now - t.begin.value
  }

  function Stop(t: Timer, now: int): (r: Timer)
    ensures !r.Running()
    ensures !t.Running() ==> r == t
    ensures t.Running() ==> r.elapsed == t.elapsed + (now - t.begin.value)
  {
    if t.begin.Some? then Timer(t.elapsed + Read(t, now), None) else t
  }

  function Reset(t: Timer): (r: Timer)
    ensures r.elapsed == 0 && !r.Running()
  {
    Timer(0, None)
  }

  function Restart(t: Timer, now: int): (r: Timer)
    ensures r == Timer(0, Some(now))
  {
    Start(Reset(t), now)
  }

  /** The `nanoseconds` getter. */
  function Nanoseconds(t: Timer, now: int): (r: int)
    ensures t.Running() ==> r == t.elapsed + (now - t.begin.value)
    ensures !t.Running() ==> r == t.elapsed
  {
    t.elapsed + Read(t, now)
  }

  /** The `milliseconds` getter: the reading divided by `NS_PER_MS`. */
  function Milliseconds(t: Timer, now: int): (r: real)
    ensures r * 1000000.0 == Nanoseconds(t, now) as real
  {
    Nanoseconds(t, now) as real / 1000000.0
  }

  /** `Timer.measure`: a timer started just before the function runs and read
      in milliseconds just after; the reading is the time the function took. */
  function Measure(before: int, after: int): (r: real)
    ensures r * 1000000.0 == (after - before) as real
    ensures before <= after ==> r >= 0.0
  {
    Milliseconds(NewTimer(true, before), after)
  }

  /** Stopping or starting at an instant does not change the reading at that
      instant; a stopped timer's reading does not depend on the clock. */
  lemma StartStopKeepReading(t: Timer, now: int, later: int)
    ensures Nanoseconds(Stop(t, now), now) == Nanoseconds(t, now)
    ensures Nanoseconds(Start(t, now), now) == Nanoseconds(t, now)
    ensures Nanoseconds(Stop(t, now), later) == Nanoseconds(t, now)
  {
  }

  datatype Op = StartOp | StopOp | ResetOp | RestartOp

  /** One public operation performed when the clock reads `now`. */
  function Apply(t: Timer, op: Op, now: int): Timer {
    match op
    case StartOp => Start(t, now)
    case StopOp => Stop(t, now)
    case ResetOp => Reset(t)
    case RestartOp => Restart(t, now)
  }

  /** Operations stamped with clock readings, applied in order. */
  function Run(t: Timer, ops: seq<(Op, int)>): (r: Timer)
    ensures |ops| == 0 ==> r == t
    decreases |ops|
  {
    if |ops| == 0 then t else Run(Apply(t, ops[0].0, ops[0].1), ops[1..])
  }

  /** The clock never runs backwards: every reading is at least the previous
      one and at least `from`. */
  predicate Monotone(ops: seq<(Op, int)>, from: int) {
    forall i :: 0 <= i < |ops| ==> from <= ops[i].1 && (i > 0 ==> ops[i - 1].1 <= ops[i].1)
  }

  predicate NoReset(ops: seq<(Op, int)>) {
    forall i :: 0 <= i < |ops| ==> ops[i].0 != ResetOp && ops[i].0 != RestartOp
  }

  /** A timer whose run began no later than `from`. */
  predicate StartedBy(t: Timer, from: int) {
    t.Running() ==> t.begin.value <= from
  }

  /** With a monotone clock and no reset or restart, the elapsed time never
      decreases, and neither does the reading at the end. */
  lemma {:induction false} ElapsedNeverDecreases(t: Timer, ops: seq<(Op, int)>, from: int, end: int)
    requires StartedBy(t, from) && Monotone(ops, from) && NoReset(ops)
    requires forall i :: 0 <= i < |ops| ==> ops[i].1 <= end
    requires from <= end
    ensures Run(t, ops).elapsed >= t.elapsed
    ensures Nanoseconds(Run(t, ops), end) >= Nanoseconds(t, from)
    decreases |ops|
  {
    if |ops| > 0 {
      var now := ops[0].1;
      var t1 := Apply(t, ops[0].0, now);
      assert StartedBy(t1, now);
      assert Nanoseconds(t1, now) >= Nanoseconds(t, from);
      assert Monotone(ops[1..], now) by {
        forall i | 0 <= i < |ops[1..]|
          ensures now <= ops[1..][i].1 && (i > 0 ==> ops[1..][i - 1].1 <= ops[1..][i].1)
        {
          assert ops[1..][i] == ops[i + 1];
          if i == 0 {
          } else {
            MonotoneChain(ops, from, 0, i + 1);
          }
        }
      }
      ElapsedNeverDecreases(t1, ops[1..], now, end);
    }
  }

  /** Readings further along are never smaller. */
  lemma {:induction false} MonotoneChain(ops: seq<(Op, int)>, from: int, i: nat, j: nat)
    requires Monotone(ops, from) && i <= j < |ops|
    ensures ops[i].1 <= ops[j].1
    decreases j - i
  {
    if i < j {
      MonotoneChain(ops, from, i, j - 1);
    }
  }

  /** A reset or restart brings the elapsed time back to 0. */
  lemma ResetClears(t: Timer, now: int)
    ensures Reset(t).elapsed == 0 && Nanoseconds(Reset(t), now) == 0
    ensures Nanoseconds(Restart(t, now), now) == 0
  {
  }
}
