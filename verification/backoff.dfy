/** The backoff engine of `utils/backoff.ts`: a delay that grows by a linear or
    an exponential strategy up to a cap, the helper that waits and advances it,
    and the poll loop that backs off on "nothing to do" and resets on progress.
    Delays are whole milliseconds; waiting itself is an action in the trace. */
module Backoff {
  import opened Wrappers

  datatype Strategy = Linear | Exponential

  datatype Options = Options(strategy: Strategy, initialDelay: int, increase: int, maximumDelay: int)

  function Min(a: int, b: int): int {
    if a <= b then a else b
  }

  /** `getNewDelay`: one step of the strategy, capped at `maximumDelay`. */
  function NewDelay(strategy: Strategy, currentDelay: int, increase: int, maximumDelay: int): (r: int)
    ensures r <= maximumDelay
    ensures strategy.Linear? ==> r == Min(currentDelay + increase, maximumDelay)
    ensures strategy.Exponential? ==> r == Min(currentDelay * increase, maximumDelay)
  {
    var grown := match strategy
      case Linear => currentDelay + increase
      case Exponential => currentDelay * increase;
    Min(grown, maximumDelay)
  }

  /** A `BackoffHelper`. `delay` is `None` while it is still unassigned: the
      constructor does not set it, only `reset` does. Arithmetic on the
      unassigned value yields `NaN`, which `None` also stands for. */
  datatype Helper = Helper(options: Options, delay: Option<int>)

  function NewHelper(options: Options): (h: Helper)
    ensures h.options == options && h.delay.None?
  {
    Helper(options, None)
  }

  function Reset(h: Helper): (r: Helper)
    ensures r.options == h.options && r.delay == Some(h.options.initialDelay)
  {
    h.(delay := Some(h.options.initialDelay))
  }

  /** `backoff()`: waits the current delay, then advances it once. */
  function DoBackoff(h: Helper): (r: (Option<int>, Helper))
    ensures r.0 == h.delay
    ensures r.1.options == h.options
    ensures r.1.delay.Some? <==> h.delay.Some?
    ensures h.delay.Some? ==> r.1.delay.value <= h.options.maximumDelay
  {
    var o := h.options;
    match h.delay
    case None => (None, h)
    case Some(d) => (Some(d), h.(delay := Some(NewDelay(o.strategy, d, o.increase, o.maximumDelay))))
  }

  /** The delay after `n` backoffs since the last reset. */
  function DelayAfter(o: Options, n: nat): int {
    if n == 0 then o.initialDelay
    else NewDelay(o.strategy, DelayAfter(o, n - 1), o.increase, o.maximumDelay)
  }

  /** The delays waited by `n` consecutive backoffs of `h`. */
  function Waits(h: Helper, n: nat): seq<Option<int>>
    decreases n
  {
    if n == 0 then []
    else
      var (w, h') := DoBackoff(h);
      [w] + Waits(h', n - 1)
  }

  /** After a reset, the k-th backoff waits exactly `DelayAfter(o, k)`. */
  lemma {:induction false} WaitsAfterReset(h: Helper, j: nat, n: nat)
    requires h.delay == Some(DelayAfter(h.options, j))
    ensures |Waits(h, n)| == n
    ensures forall k :: 0 <= k < n ==> Waits(h, n)[k] == Some(DelayAfter(h.options, j + k))
    decreases n
  {
    if n > 0 {
      var (w, h') := DoBackoff(h);
      WaitsAfterReset(h', j + 1, n - 1);
    }
  }

  /** An unassigned delay stays unassigned however often the helper backs off. */
  lemma {:induction false} WaitsBeforeReset(h: Helper, n: nat)
    requires h.delay.None?
    ensures Waits(h, n) == seq(n, k => None)
  {
    if n > 0 {
      WaitsBeforeReset(h, n - 1);
    }
  }

  /** The options under which the delay grows monotonically up to the cap. */
  predicate Growing(o: Options) {
    && 0 <= o.initialDelay <= o.maximumDelay
    && (o.strategy.Linear? ==> o.increase >= 0)
    && (o.strategy.Exponential? ==> o.increase >= 1)
  }

  lemma {:induction false} DelayInRange(o: Options, n: nat)
    requires Growing(o)
    ensures o.initialDelay <= DelayAfter(o, n) <= o.maximumDelay
  {
    if n > 0 {
      DelayInRange(o, n - 1);
      StepGrows(o, DelayAfter(o, n - 1));
    }
  }

  /** One step never shrinks a delay in range under growing options. */
  lemma StepGrows(o: Options, d: int)
    requires Growing(o) && 0 <= d <= o.maximumDelay
    ensures d <= NewDelay(o.strategy, d, o.increase, o.maximumDelay) <= o.maximumDelay
  {
    if o.strategy.Exponential? {
      assert d * o.increase >= d * 1;
    }
  }

  /** One step adds at least one to a positive delay below the cap under
      saturating options. */
  lemma StepAdvances(o: Options, d: int)
    requires Saturating(o) && 1 <= d
    ensures NewDelay(o.strategy, d, o.increase, o.maximumDelay) >= Min(d + 1, o.maximumDelay)
  {
    if o.strategy.Exponential? {
      assert d * o.increase >= d * 2;
    }
  }

  /** Successive delays after a reset never decrease. */
  lemma {:induction false} DelayMonotone(o: Options, n: nat, m: nat)
    requires Growing(o) && n <= m
    ensures DelayAfter(o, n) <= DelayAfter(o, m)
    decreases m - n
  {
    if n < m {
      DelayMonotone(o, n, m - 1);
      DelayInRange(o, m - 1);
      StepGrows(o, DelayAfter(o, m - 1));
    }
  }

  /** The options under which the delay grows strictly until it reaches the cap. */
  predicate Saturating(o: Options) {
    && 1 <= o.initialDelay <= o.maximumDelay
    && (o.strategy.Linear? ==> o.increase >= 1)
    && (o.strategy.Exponential? ==> o.increase >= 2)
  }

  lemma {:induction false} DelayLowerBound(o: Options, n: nat)
    requires Saturating(o)
    ensures DelayAfter(o, n) >= Min(o.initialDelay + n, o.maximumDelay)
  {
    if n > 0 {
      DelayLowerBound(o, n - 1);
      assert Growing(o);
      DelayInRange(o, n - 1);
      StepAdvances(o, DelayAfter(o, n - 1));
    }
  }

  /** Once `maximumDelay - initialDelay` backoffs have happened the delay is
      the cap, and it stays there. */
  lemma Saturates(o: Options, n: nat)
    requires Saturating(o) && n >= o.maximumDelay - o.initialDelay
    ensures DelayAfter(o, n) == o.maximumDelay
  {
    DelayLowerBound(o, n);
    assert Growing(o);
    DelayInRange(o, n);
  }

  /** One pass of the poll loop: whether the cancellation token read by the
      loop guard was set, and whether the pass asked to back off (`true` from
      the loop function, or the yielded callback invoked). */
  datatype Pass = Pass(cancelled: bool, backoff: bool)

  datatype Action = Wait(delay: Option<int>) | ResetDelay

  /** The loop shared by `backoffLoop` and `backoffGenerator`, run from helper `h`. */
  function Loop(h: Helper, script: seq<Pass>): (actions: seq<Action>)
    ensures |actions| <= |script|
    ensures forall i :: 0 <= i < |actions| ==> !script[i].cancelled && (actions[i].Wait? <==> script[i].backoff)
    ensures |actions| < |script| ==> script[|actions|].cancelled
    decreases |script|
  {
    if |script| == 0 || script[0].cancelled then []
    else if script[0].backoff then
      var (w, h') := DoBackoff(h);
      [Wait(w)] + Loop(h', script[1..])
    else
      [ResetDelay] + Loop(Reset(h), script[1..])
  }

  /** `backoffLoop` and `backoffGenerator` as written: the helper is used
      straight from its constructor, without a reset. */
  function BackoffLoop(o: Options, script: seq<Pass>): seq<Action> {
    Loop(NewHelper(o), script)
  }

  /** The corrected loop: the helper starts from `initialDelay`. */
  function BackoffLoopFixed(o: Options, script: seq<Pass>): seq<Action> {
    Loop(Reset(NewHelper(o)), script)
  }

  /** Backoffs in a row since the last reset (or since the start) before pass `i`. */
  function Streak(script: seq<Pass>, i: nat, start: nat): nat
    requires i <= |script|
  {
    if i == 0 then start
    else if script[i - 1].backoff then Streak(script, i - 1, start) + 1
    else 0
  }

  lemma {:induction false} LoopWaits(h: Helper, j: nat, script: seq<Pass>, i: nat)
    requires h.delay == Some(DelayAfter(h.options, j))
    requires i < |Loop(h, script)| && script[i].backoff
    ensures Loop(h, script)[i] == Wait(Some(DelayAfter(h.options, Streak(script, i, j))))
    decreases i
  {
    var s' := script[1..];
    if i > 0 {
      if script[0].backoff {
        var (w, h') := DoBackoff(h);
        LoopWaits(h', j + 1, s', i - 1);
        StreakShift(script, i, j);
      } else {
        LoopWaits(Reset(h), 0, s', i - 1);
        StreakShift(script, i, j);
      }
    }
  }

  lemma {:induction false} StreakShift(script: seq<Pass>, i: nat, j: nat)
    requires 0 < i <= |script|
    ensures Streak(script, i, j) == Streak(script[1..], i - 1, if script[0].backoff then j + 1 else 0)
  {
    if i > 1 {
      StreakShift(script, i - 1, j);
    }
  }

  /** With the corrected start, every wait of the loop is the delay reached by
      the backoffs in a row before it. */
  lemma LoopFixedWaits(o: Options, script: seq<Pass>, i: nat)
    requires i < |BackoffLoopFixed(o, script)| && script[i].backoff
    ensures BackoffLoopFixed(o, script)[i] == Wait(Some(DelayAfter(o, Streak(script, i, 0))))
  {
    LoopWaits(Reset(NewHelper(o)), 0, script, i);
  }

  lemma {:induction false} LoopNoneUntilReset(h: Helper, script: seq<Pass>, i: nat)
    requires h.delay.None?
    requires i < |Loop(h, script)|
    requires forall k :: 0 <= k <= i ==> script[k].backoff
    ensures Loop(h, script)[i] == Wait(None)
  {
    if i > 0 {
      LoopNoneUntilReset(h, script[1..], i - 1);
    }
  }

  /** As written, every backoff before the first reset waits an unassigned
      delay, and so does every later one: `undefined` grows to `NaN`. */
  lemma BackoffLoopUnassignedDelay(o: Options, script: seq<Pass>, i: nat)
    requires i < |BackoffLoop(o, script)|
    requires forall k :: 0 <= k <= i ==> script[k].backoff
    ensures BackoffLoop(o, script)[i] == Wait(None)
  {
    LoopNoneUntilReset(NewHelper(o), script, i);
  }
}
