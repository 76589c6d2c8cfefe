/** `retryAsync` of `utils/async-iterable-helpers/retry.ts`. The generator
    yields the current source item; the consumer either takes it (and pulls
    the next one) or throws an error back into the generator, which asks the
    retry predicate whether to yield the same item again. The consumer's
    reactions, with the predicate's answer to each thrown error, form a script.
    The sync-source and async-source variants have identical bodies and are
    modelled once. */
module Retry {

  /** The consumer's answer to one yielded item; for a thrown error it carries
      the value the retry predicate returned for that call. */
  datatype Reaction = Accept | Throw(error: string, retry: bool)

  datatype Outcome = Completed | Rethrown(error: string) | Abandoned

  /** A call of the retry predicate: `predicate(error, item, index)`. */
  datatype Call<T> = Call(error: string, item: T, index: nat)

  /** What the generator did: the items it yielded with their source
      positions, the predicate calls it made, and how it ended. */
  datatype Trace<T> = Trace(yielded: seq<T>, positions: seq<nat>, calls: seq<Call<T>>, outcome: Outcome)

  /** The generator from source position `i` on. */
  function RetryFrom<T>(src: seq<T>, i: nat, throwOnRetryFalse: bool, reactions: seq<Reaction>): (t: Trace<T>)
    requires i <= |src|
    ensures |t.yielded| == |t.positions|
    decreases |reactions|, |src| - i
  {
    if i == |src| then Trace([], [], [], Completed)
    else if |reactions| == 0 then Trace([src[i]], [i], [], Abandoned)
    else
      match reactions[0]
      case Accept =>
        var t := RetryFrom(src, i + 1, throwOnRetryFalse, reactions[1..]);
        Trace([src[i]] + t.yielded, [i] + t.positions, t.calls, t.outcome)
      case Throw(e, retry) =>
        var call := Call(e, src[i], i);
        if retry then
          var t := RetryFrom(src, i, throwOnRetryFalse, reactions[1..]);
          Trace([src[i]] + t.yielded, [i] + t.positions, [call] + t.calls, t.outcome)
        else if throwOnRetryFalse then
          Trace([src[i]], [i], [call], Rethrown(e))
        else
          var t := RetryFrom(src, i + 1, throwOnRetryFalse, reactions[1..]);
          Trace([src[i]] + t.yielded, [i] + t.positions, [call] + t.calls, t.outcome)
  }

  /** Every yielded item of `t` is the source item at its recorded position,
      and every predicate call gets an item with its position, all from `lo`
      on. */
  ghost predicate Sourced<T>(src: seq<T>, lo: nat, t: Trace<T>) {
    && |t.yielded| == |t.positions|
    && (forall k :: 0 <= k < |t.positions| ==> lo <= t.positions[k] < |src| && t.yielded[k] == src[t.positions[k]])
    && (forall c :: c in t.calls ==> lo <= c.index < |src| && c.item == src[c.index])
  }

  /** Yielding `src[i]` in front of a sourced trace keeps it sourced. */
  lemma SourcedCons<T>(src: seq<T>, i: nat, next: nat, calls: seq<Call<T>>, t: Trace<T>)
    requires i <= next && i < |src| && Sourced(src, next, t)
    requires forall c :: c in calls ==> c.index == i && c.item == src[i]
    ensures Sourced(src, i, Trace([src[i]] + t.yielded, [i] + t.positions, calls + t.calls, t.outcome))
  {
    var u := Trace([src[i]] + t.yielded, [i] + t.positions, calls + t.calls, t.outcome);
    forall k | 0 <= k < |u.positions|
      ensures i <= u.positions[k] < |src| && u.yielded[k] == src[u.positions[k]]
    {
      if k > 0 {
        assert u.positions[k] == t.positions[k - 1] && u.yielded[k] == t.yielded[k - 1];
      }
    }
  }

  lemma {:induction false} YieldsSourceItems<T>(src: seq<T>, i: nat, throwOnRetryFalse: bool, reactions: seq<Reaction>)
    requires i <= |src|
    ensures Sourced(src, i, RetryFrom(src, i, throwOnRetryFalse, reactions))
    decreases |reactions|, |src| - i
  {
    if i < |src| && |reactions| > 0 {
      var rest := reactions[1..];
      match reactions[0]
      case Accept =>
        YieldsSourceItems(src, i + 1, throwOnRetryFalse, rest);
        SourcedCons(src, i, i + 1, [], RetryFrom(src, i + 1, throwOnRetryFalse, rest));
      case Throw(e, retry) =>
        if retry {
          YieldsSourceItems(src, i, throwOnRetryFalse, rest);
          SourcedCons(src, i, i, [Call(e, src[i], i)], RetryFrom(src, i, throwOnRetryFalse, rest));
        } else if throwOnRetryFalse {
          SourcedCons(src, i, i, [Call(e, src[i], i)], Trace([], [], [], Rethrown(e)));
        } else {
          YieldsSourceItems(src, i + 1, throwOnRetryFalse, rest);
          SourcedCons(src, i, i + 1, [Call(e, src[i], i)], RetryFrom(src, i + 1, throwOnRetryFalse, rest));
        }
    }
  }

  /** The predicate asked for the item to be yielded again. */
  predicate Retried(r: Reaction) {
    r.Throw? && r.retry
  }

  /** The rule of the inner `while`: after each answered yield the next
      position is the same one when the predicate said retry, and the next
      item otherwise; every yield but the last has its reaction. */
  predicate Follows(ps: seq<nat>, reactions: seq<Reaction>)
    decreases |ps|
  {
    |ps| <= |reactions| + 1
    && (|ps| >= 2 ==>
      ps[1] == (if Retried(reactions[0]) then ps[0] else ps[0] + 1)
      && Follows(ps[1..], reactions[1..]))
  }

  function RetryAsync<T>(src: seq<T>, throwOnRetryFalse: bool, reactions: seq<Reaction>): Trace<T> {
    RetryFrom(src, 0, throwOnRetryFalse, reactions)
  }

  /** Consecutive positions never go back and advance by at most one. */
  predicate StepsByOne(ps: seq<nat>) {
    forall k :: 0 <= k < |ps| - 1 ==> ps[k] <= ps[k + 1] <= ps[k] + 1
  }

  lemma ConsStep(i: nat, ps: seq<nat>)
    requires StepsByOne(ps) && (|ps| > 0 ==> i <= ps[0] <= i + 1)
    ensures StepsByOne([i] + ps)
  {
    var qs := [i] + ps;
    forall k | 0 <= k < |qs| - 1
      ensures qs[k] <= qs[k + 1] <= qs[k] + 1
    {
      assert qs[k + 1] == ps[k];
      if k > 0 {
        assert qs[k] == ps[k - 1];
      }
    }
  }

  /** Positions never go back and never skip an item: each item is yielded at
      least once, in source order, before the next one. */
  lemma {:induction false} PositionsStepByOne<T>(src: seq<T>, i: nat, throwOnRetryFalse: bool, reactions: seq<Reaction>)
    requires i <= |src|
    ensures var t := RetryFrom(src, i, throwOnRetryFalse, reactions);
      (|t.positions| > 0 ==> t.positions[0] == i) && StepsByOne(t.positions)
    decreases |reactions|, |src| - i
  {
    if i < |src| && |reactions| > 0 {
      var rest := reactions[1..];
      match reactions[0]
      case Accept =>
        PositionsStepByOne(src, i + 1, throwOnRetryFalse, rest);
        ConsStep(i, RetryFrom(src, i + 1, throwOnRetryFalse, rest).positions);
      case Throw(e, retry) =>
        if retry {
          PositionsStepByOne(src, i, throwOnRetryFalse, rest);
          ConsStep(i, RetryFrom(src, i, throwOnRetryFalse, rest).positions);
        } else if !throwOnRetryFalse {
          PositionsStepByOne(src, i + 1, throwOnRetryFalse, rest);
          ConsStep(i, RetryFrom(src, i + 1, throwOnRetryFalse, rest).positions);
        }
    }
  }

  /** A consumer that never throws sees the source exactly once, in order. */
  lemma {:induction false} NoThrowIsIdentity<T>(src: seq<T>, i: nat, throwOnRetryFalse: bool, reactions: seq<Reaction>)
    requires i <= |src|
    requires |reactions| >= |src| - i
    requires forall k :: 0 <= k < |reactions| ==> reactions[k] == Accept
    ensures RetryFrom(src, i, throwOnRetryFalse, reactions).yielded == src[i..]
    ensures RetryFrom(src, i, throwOnRetryFalse, reactions).outcome == Completed
    ensures RetryFrom(src, i, throwOnRetryFalse, reactions).calls == []
    decreases |src| - i
  {
    if i < |src| {
      NoThrowIsIdentity(src, i + 1, throwOnRetryFalse, reactions[1..]);
      assert src[i..] == [src[i]] + src[i + 1..];
    }
  }

  /** The generator only rethrows when `throwOnRetryFalse` is set, and then the
      rethrown error is the one whose predicate call answered `false`: the
      reaction to the last yield, and the last call it made. */
  lemma {:induction false} RethrowOnlyWhenAsked<T>(src: seq<T>, i: nat, throwOnRetryFalse: bool, reactions: seq<Reaction>)
    requires i <= |src|
    ensures var t := RetryFrom(src, i, throwOnRetryFalse, reactions);
      t.outcome.Rethrown? ==> (throwOnRetryFalse && |t.calls| > 0 && t.calls[|t.calls| - 1].error == t.outcome.error
        && 0 < |t.positions| <= |reactions| && reactions[|t.positions| - 1] == Throw(t.outcome.error, false))
    decreases |reactions|, |src| - i
  {
    if i < |src| && |reactions| > 0 {
      match reactions[0]
      case Accept =>
        RethrowOnlyWhenAsked(src, i + 1, throwOnRetryFalse, reactions[1..]);
      case Throw(e, retry) =>
        if retry {
          RethrowOnlyWhenAsked(src, i, throwOnRetryFalse, reactions[1..]);
        } else if !throwOnRetryFalse {
          RethrowOnlyWhenAsked(src, i + 1, throwOnRetryFalse, reactions[1..]);
        }
    }
  }

  /** The positions obey the rule of the inner `while`, the first is `i`,
      and the iteration is abandoned exactly when the last yield went
      unanswered. */
  lemma {:induction false} FollowsRule<T>(src: seq<T>, i: nat, throwOnRetryFalse: bool, reactions: seq<Reaction>)
    requires i <= |src|
    ensures var t := RetryFrom(src, i, throwOnRetryFalse, reactions);
      && (i < |src| <==> |t.positions| > 0)
      && (|t.positions| > 0 ==> t.positions[0] == i)
      && (t.outcome == Abandoned <==> |t.positions| == |reactions| + 1)
      && Follows(t.positions, reactions)
    decreases |reactions|, |src| - i
  {
    if i < |src| && |reactions| > 0 {
      var rest := reactions[1..];
      var next := match reactions[0]
        case Accept => i + 1
        case Throw(_, retry) => if retry then i else i + 1;
      if reactions[0].Throw? && !reactions[0].retry && throwOnRetryFalse {
      } else {
        FollowsRule(src, next, throwOnRetryFalse, rest);
        var t' := RetryFrom(src, next, throwOnRetryFalse, rest);
        var ps := [i] + t'.positions;
        assert RetryFrom(src, i, throwOnRetryFalse, reactions).positions == ps;
        assert ps[1..] == t'.positions;
        assert |ps| >= 2 ==> ps[1] == t'.positions[0] == next;
      }
    }
  }

  /** `Follows`, read position by position. */
  lemma {:induction false} FollowsAt(ps: seq<nat>, reactions: seq<Reaction>, k: nat)
    requires Follows(ps, reactions) && k + 1 < |ps|
    ensures k < |reactions| && ps[k + 1] == (if Retried(reactions[k]) then ps[k] else ps[k] + 1)
    decreases k
  {
    if k > 0 {
      FollowsAt(ps[1..], reactions[1..], k - 1);
    }
  }

  /** The rule of `retry.ts`: after an answered yield the same item is
      yielded again exactly when the consumer threw and the predicate said
      `true`; otherwise the next item follows, whether the consumer took
      the item or the predicate dropped it. Every yield but the last was
      answered. */
  lemma RetryRule<T>(src: seq<T>, i: nat, throwOnRetryFalse: bool, reactions: seq<Reaction>)
    requires i <= |src|
    ensures var t := RetryFrom(src, i, throwOnRetryFalse, reactions);
      && |t.positions| <= |reactions| + 1
      && (t.outcome == Abandoned <==> |t.positions| == |reactions| + 1)
      && forall k :: 0 <= k < |t.positions| - 1 ==>
        && (t.positions[k + 1] == t.positions[k] <==> reactions[k].Throw? && reactions[k].retry)
        && (t.positions[k + 1] == t.positions[k] + 1 <==> !(reactions[k].Throw? && reactions[k].retry))
  {
    var t := RetryFrom(src, i, throwOnRetryFalse, reactions);
    FollowsRule(src, i, throwOnRetryFalse, reactions);
    forall k | 0 <= k < |t.positions| - 1
      ensures t.positions[k + 1] == (if Retried(reactions[k]) then t.positions[k] else t.positions[k] + 1)
    {
      FollowsAt(t.positions, reactions, k);
    }
  }

  /** With `throwOnRetryFalse`, an error the predicate refuses ends the
      iteration right there, rethrowing that error. */
  lemma {:induction false} RethrowOnFalse<T>(src: seq<T>, i: nat, reactions: seq<Reaction>, k: nat)
    requires i <= |src| && k < |reactions|
    requires k < |RetryFrom(src, i, true, reactions).positions|
    requires reactions[k].Throw? && !reactions[k].retry
    ensures var t := RetryFrom(src, i, true, reactions);
      |t.positions| == k + 1 && t.outcome == Rethrown(reactions[k].error)
    decreases k
  {
    if k > 0 {
      var next := if reactions[0].Throw? && reactions[0].retry then i else i + 1;
      assert reactions[1..][k - 1] == reactions[k];
      RethrowOnFalse(src, next, reactions[1..], k - 1);
    }
  }

  /** An iteration completes right after the last source item was yielded
      and answered. */
  lemma {:induction false} CompletesAfterLastItem<T>(src: seq<T>, i: nat, throwOnRetryFalse: bool, reactions: seq<Reaction>)
    requires i < |src|
    requires RetryFrom(src, i, throwOnRetryFalse, reactions).outcome == Completed
    ensures var ps := RetryFrom(src, i, throwOnRetryFalse, reactions).positions;
      0 < |ps| <= |reactions| && ps[|ps| - 1] == |src| - 1
    decreases |reactions|
  {
    var rest := reactions[1..];
    match reactions[0]
    case Accept =>
      CompletesFrom(src, i, i + 1, throwOnRetryFalse, reactions);
    case Throw(_, retry) =>
      if retry {
        CompletesFrom(src, i, i, throwOnRetryFalse, reactions);
      } else {
        CompletesFrom(src, i, i + 1, throwOnRetryFalse, reactions);
      }
  }

  /** The step of `CompletesAfterLastItem` from position `i` to `next`. */
  lemma {:induction false} CompletesFrom<T>(src: seq<T>, i: nat, next: nat, throwOnRetryFalse: bool, reactions: seq<Reaction>)
    requires next == i + 1 <= |src| || next == i < |src|
    requires 0 < |reactions|
    requires RetryFrom(src, i, throwOnRetryFalse, reactions).positions == [i] + RetryFrom(src, next, throwOnRetryFalse, reactions[1..]).positions
    requires RetryFrom(src, next, throwOnRetryFalse, reactions[1..]).outcome == Completed
    ensures var ps := RetryFrom(src, i, throwOnRetryFalse, reactions).positions;
      0 < |ps| <= |reactions| && ps[|ps| - 1] == |src| - 1
    decreases |reactions|, 0
  {
    var ps := RetryFrom(src, i, throwOnRetryFalse, reactions).positions;
    var qs := RetryFrom(src, next, throwOnRetryFalse, reactions[1..]).positions;
    if next == |src| {
      assert qs == [];
      assert ps == [i];
    } else {
      CompletesAfterLastItem(src, next, throwOnRetryFalse, reactions[1..]);
      assert ps[|ps| - 1] == qs[|qs| - 1];
    }
  }

  /** The last answer of a completed iteration moved on: the item was
      taken, or, without `throwOnRetryFalse`, dropped by the predicate. */
  lemma {:induction false} LastAnswerMovesOn<T>(src: seq<T>, i: nat, throwOnRetryFalse: bool, reactions: seq<Reaction>)
    requires i <= |src|
    ensures var t := RetryFrom(src, i, throwOnRetryFalse, reactions);
      t.outcome == Completed && |t.positions| > 0 ==>
        && |t.positions| <= |reactions|
        && !Retried(reactions[|t.positions| - 1])
        && (throwOnRetryFalse ==> reactions[|t.positions| - 1] == Accept)
    decreases |reactions|, |src| - i
  {
    if i < |src| && |reactions| > 0 {
      var next := if Retried(reactions[0]) then i else i + 1;
      if !(reactions[0].Throw? && !reactions[0].retry && throwOnRetryFalse) {
        var rest := reactions[1..];
        LastAnswerMovesOn(src, next, throwOnRetryFalse, rest);
        var t' := RetryFrom(src, next, throwOnRetryFalse, rest);
        var t := RetryFrom(src, i, throwOnRetryFalse, reactions);
        assert |t.positions| == 1 + |t'.positions| && t.outcome == t'.outcome;
        if t'.outcome == Completed {
          if |t'.positions| == 0 {
            assert next == |src| && |t.positions| == 1;
          } else {
            assert rest[|t'.positions| - 1] == reactions[|t.positions| - 1];
          }
        }
      }
    }
  }

  /** The predicate calls an iteration makes: one per thrown error among
      the answered yields, with the error, the yielded item and its index. */
  function CallsFor<T>(yielded: seq<T>, positions: seq<nat>, reactions: seq<Reaction>): (r: seq<Call<T>>)
    requires |yielded| == |positions|
    ensures |r| <= |reactions|
    decreases |positions|
  {
    if |positions| == 0 || |reactions| == 0 then []
    else
      (match reactions[0]
       case Accept => []
       case Throw(e, _) => [Call(e, yielded[0], positions[0])])
      + CallsFor(yielded[1..], positions[1..], reactions[1..])
  }

  /** Each thrown error is handed to the predicate once, with the item it
      was thrown at and that item's index, in order. */
  lemma {:induction false} CallsAreThrows<T>(src: seq<T>, i: nat, throwOnRetryFalse: bool, reactions: seq<Reaction>)
    requires i <= |src|
    ensures var t := RetryFrom(src, i, throwOnRetryFalse, reactions);
      t.calls == CallsFor(t.yielded, t.positions, reactions)
    decreases |reactions|, |src| - i
  {
    if i < |src| && |reactions| > 0 {
      var next := if reactions[0].Throw? && reactions[0].retry then i else i + 1;
      var t := RetryFrom(src, i, throwOnRetryFalse, reactions);
      if reactions[0].Throw? && !reactions[0].retry && throwOnRetryFalse {
        assert t.positions == [i] && t.yielded == [src[i]];
        assert t.positions[1..] == [] && t.yielded[1..] == [];
      } else {
        CallsAreThrows(src, next, throwOnRetryFalse, reactions[1..]);
        var t' := RetryFrom(src, next, throwOnRetryFalse, reactions[1..]);
        assert t.positions == [i] + t'.positions && t.yielded == [src[i]] + t'.yielded;
        assert t.positions[1..] == t'.positions && t.yielded[1..] == t'.yielded;
      }
    }
  }

  /** Source `[1, 2, 3]`; the consumer throws once on `2` and the predicate says
      retry, then throws again and the predicate gives up: `2` is yielded twice,
      dropped, and iteration goes on with `3` without an error. */
  lemma RetryThenGiveUp()
    ensures var t := RetryAsync([1, 2, 3], false, [Accept, Throw("e", true), Throw("e", false), Accept]);
      t.yielded == [1, 2, 2, 3] && t.outcome == Completed
      && t.calls == [Call("e", 2, 1), Call("e", 2, 1)]
  {
  }
}
