/** The revision-selection loop of `Migrator.migrate` in
    `migration/migrator.ts`. The stored migration state is an optional
    revision number; the lock, the logger and the timing are left out, and
    each migrator function is replaced by its scripted outcome: the value it
    returns and whether it asked for a restart. */
module Migrator {
  import opened Wrappers

  /** `currentState?.revision ?? 'init'`. */
  datatype Revision = Init | At(n: int)

  /** `Migration.from`: `'init'`, one revision, or a list of revisions. */
  datatype From = FromInit | FromRevision(n: int) | FromAny(ns: seq<int>)

  datatype Migration = Migration(from: From, to: int)

  /** What the migrator function of one execution returned, and whether it
      called `control.restart()`. */
  datatype Execution<T> = Execution(result: T, restart: bool)

  /** `MigrationResult` without its timing. */
  datatype MigrationResult<T> = MigrationResult(from: Revision, to: int, result: T, restartRequested: bool)

  /** The state writes: `patchByFilter` when a state record existed,
      `insert` when it did not. */
  datatype Write = Patch(revision: int) | Insert(revision: int)

  datatype MigrateError =
    | NoMigrationsProvided
    | NoSuitablePath(current: Revision, latest: int)
    | ScriptExhausted

  datatype Migrated<T> = Migrated(results: seq<MigrationResult<T>>, state: Option<int>, writes: seq<Write>)

  const NoMigrationsMessage := "no migrations provided"

  function RevisionOf(state: Option<int>): (r: Revision)
    ensures r == Init <==> state.None?
    ensures state.Some? ==> r == At(state.value)
  {
    match state
    case None => Init
    case Some(n) => At(n)
  }

  /** `toArray(migration.from).includes(currentRevision)`. */
  predicate Applies(from: From, current: Revision) {
    match from
    case FromInit => current == Init
    case FromRevision(n) => current == At(n)
    case FromAny(ns) => current.At? && current.n in ns
  }

  /** The highest `to` over all migrations. */
  function Latest(ms: seq<Migration>): (r: int)
    requires |ms| > 0
    ensures forall i :: 0 <= i < |ms| ==> ms[i].to <= r
    ensures exists i :: 0 <= i < |ms| && ms[i].to == r
    decreases |ms|
  {
    if |ms| == 1 then ms[0].to
    else
      var rest := Latest(ms[1..]);
      assert forall i :: 1 <= i < |ms| ==> ms[i] == ms[1..][i - 1];
      if ms[0].to >= rest then ms[0].to else rest
  }

  /** The position of the chosen migration: among those that apply to the
      current revision, the one with the highest `to`. Both sorts are
      stable, so on a tie the one listed first wins. */
  function Choose(ms: seq<Migration>, current: Revision): (r: Option<nat>)
    ensures r.None? <==> forall i :: 0 <= i < |ms| ==> !Applies(ms[i].from, current)
    ensures r.Some? ==> r.value < |ms| && Applies(ms[r.value].from, current)
    ensures r.Some? ==> forall i :: 0 <= i < |ms| && Applies(ms[i].from, current) ==> ms[i].to <= ms[r.value].to
    ensures r.Some? ==> forall i :: 0 <= i < r.value && Applies(ms[i].from, current) ==> ms[i].to < ms[r.value].to
    decreases |ms|
  {
    if |ms| == 0 then None
    else
      var rest := Choose(ms[1..], current);
      assert forall i :: 1 <= i < |ms| ==> ms[i] == ms[1..][i - 1];
      if !Applies(ms[0].from, current) then
        (if rest.None? then None else Some(rest.value + 1))
      else if rest.Some? && ms[rest.value + 1].to > ms[0].to then Some(rest.value + 1)
      else Some(0)
  }

  /** Each result starts where the previous one left the stored revision: at
      the same revision after a restart, at its `to` otherwise. */
  predicate Chained<T>(results: seq<MigrationResult<T>>, start: Revision) {
    (|results| > 0 ==> results[0].from == start)
    && forall k :: 0 < k < |results| ==>
      results[k].from == (if results[k - 1].restartRequested then results[k - 1].from else At(results[k - 1].to))
  }

  /** How many results persisted their revision. */
  function Persisted<T>(results: seq<MigrationResult<T>>): nat
    decreases |results|
  {
    if |results| == 0 then 0
    else Persisted(results[..|results| - 1]) + (if results[|results| - 1].restartRequested then 0 else 1)
  }

  function Persist(state: Option<int>, to: int): (w: Write)
    ensures state.None? <==> w.Insert?
    ensures w.revision == to
  {
    if state.Some? then Patch(to) else Insert(to)
  }

  /** The `while (true)` loop, one iteration per scripted execution. The
      source loops until the latest revision is reached; a script that runs
      out first ends the model with `ScriptExhausted`. */
  function Loop<T>(ms: seq<Migration>, state: Option<int>, script: seq<Execution<T>>): (r: Result<Migrated<T>, MigrateError>)
    requires |ms| > 0
    ensures r.Err? ==> r.error != NoMigrationsProvided
    ensures r.Ok? ==> RevisionOf(r.value.state) == At(Latest(ms))
    ensures r.Ok? ==> |r.value.results| <= |script|
    ensures RevisionOf(state) != At(Latest(ms)) && Choose(ms, RevisionOf(state)).None? ==>
      r == Err(NoSuitablePath(RevisionOf(state), Latest(ms)))
    decreases |script|
  {
    var current := RevisionOf(state);
    var latest := Latest(ms);
    if current == At(latest) then Ok(Migrated([], state, []))
    else
      match Choose(ms, current)
      case None => Err(NoSuitablePath(current, latest))
      case Some(i) =>
        if |script| == 0 then Err(ScriptExhausted)
        else
          var rest := Loop(ms, if script[0].restart then state else Some(ms[i].to), script[1..]);
          if rest.Err? then rest
          else
            Ok(Migrated(
              [MigrationResult(current, ms[i].to, script[0].result, script[0].restart)] + rest.value.results,
              rest.value.state,
              (if script[0].restart then [] else [Persist(state, ms[i].to)]) + rest.value.writes))
  }

  /** One iteration of the loop that runs a migration and does not end it. */
  lemma LoopRuns<T>(ms: seq<Migration>, state: Option<int>, script: seq<Execution<T>>, i: nat, rest: Migrated<T>)
    requires |ms| > 0 && |script| > 0
    requires RevisionOf(state) != At(Latest(ms)) && Choose(ms, RevisionOf(state)) == Some(i)
    requires Loop(ms, if script[0].restart then state else Some(ms[i].to), script[1..]) == Ok(rest)
    ensures Loop(ms, state, script) == Ok(Migrated(
      [MigrationResult(RevisionOf(state), ms[i].to, script[0].result, script[0].restart)] + rest.results,
      rest.state,
      (if script[0].restart then [] else [Persist(state, ms[i].to)]) + rest.writes))
  {
  }

  /** `no suitable migration path` is reported only for a revision the loop
      reached, the stored one or the `to` of a migration it ran, that is not
      the latest and that no migration applies to. */
  lemma {:induction false} NoSuitablePathAtDeadEnd<T>(ms: seq<Migration>, state: Option<int>, script: seq<Execution<T>>)
    requires |ms| > 0
    ensures var r := Loop(ms, state, script);
      r.Err? && r.error.NoSuitablePath? ==>
        && r.error.latest == Latest(ms)
        && r.error.current != At(Latest(ms))
        && Choose(ms, r.error.current).None?
        && (r.error.current == RevisionOf(state) || exists i :: 0 <= i < |ms| && r.error.current == At(ms[i].to))
    decreases |script|
  {
    var current := RevisionOf(state);
    if current != At(Latest(ms)) && Choose(ms, current).Some? && |script| > 0 {
      var i := Choose(ms, current).value;
      var next := if script[0].restart then state else Some(ms[i].to);
      NoSuitablePathAtDeadEnd(ms, next, script[1..]);
      var e := Loop(ms, next, script[1..]);
      if e.Err? && e.error.NoSuitablePath? && e.error.current == RevisionOf(next) && !script[0].restart {
        assert e.error.current == At(ms[i].to);
      }
    }
  }

  /** The loop takes one scripted execution per iteration: the k-th result
      carries what the k-th execution returned and its restart flag. */
  lemma {:induction false} LoopFollowsScript<T>(ms: seq<Migration>, state: Option<int>, script: seq<Execution<T>>)
    requires |ms| > 0
    ensures var r := Loop(ms, state, script);
      r.Ok? ==> forall k :: 0 <= k < |r.value.results| ==>
        r.value.results[k].result == script[k].result && r.value.results[k].restartRequested == script[k].restart
    decreases |script|
  {
    var r := Loop(ms, state, script);
    var current := RevisionOf(state);
    if r.Ok? && current != At(Latest(ms)) {
      var i := Choose(ms, current).value;
      var next := if script[0].restart then state else Some(ms[i].to);
      LoopFollowsScript(ms, next, script[1..]);
      var rest := Loop(ms, next, script[1..]);
      assert r.value.results == [r.value.results[0]] + rest.value.results;
    }
  }

  /** Each result applies the migration chosen for its starting revision. */
  predicate ChosenAll<T>(ms: seq<Migration>, results: seq<MigrationResult<T>>) {
    forall k :: 0 <= k < |results| ==>
      Choose(ms, results[k].from).Some? && ms[Choose(ms, results[k].from).value].to == results[k].to
  }

  lemma ChainedCons<T>(first: MigrationResult<T>, rest: seq<MigrationResult<T>>)
    requires Chained(rest, if first.restartRequested then first.from else At(first.to))
    ensures Chained([first] + rest, first.from)
  {
    var all := [first] + rest;
    forall k | 0 < k < |all|
      ensures all[k].from == (if all[k - 1].restartRequested then all[k - 1].from else At(all[k - 1].to))
    {
      assert all[k] == rest[k - 1];
      if k > 1 {
        assert all[k - 1] == rest[k - 2];
      }
    }
  }

  lemma ChosenCons<T>(ms: seq<Migration>, first: MigrationResult<T>, rest: seq<MigrationResult<T>>)
    requires ChosenAll(ms, rest)
    requires Choose(ms, first.from).Some? && ms[Choose(ms, first.from).value].to == first.to
    ensures ChosenAll(ms, [first] + rest)
  {
    var all := [first] + rest;
    forall k | 0 < k < |all|
      ensures Choose(ms, all[k].from).Some? && ms[Choose(ms, all[k].from).value].to == all[k].to
    {
      assert all[k] == rest[k - 1];
    }
  }

  /** Every iteration reads the revision the previous one left stored, and
      each result applies a chosen migration. */
  lemma {:induction false} LoopChained<T>(ms: seq<Migration>, state: Option<int>, script: seq<Execution<T>>)
    requires |ms| > 0
    ensures var r := Loop(ms, state, script);
      r.Ok? ==> Chained(r.value.results, RevisionOf(state)) && ChosenAll(ms, r.value.results)
    decreases |script|
  {
    var r := Loop(ms, state, script);
    var current := RevisionOf(state);
    if r.Ok? && current != At(Latest(ms)) {
      var i := Choose(ms, current).value;
      var next := if script[0].restart then state else Some(ms[i].to);
      LoopChained(ms, next, script[1..]);
      var rest := Loop(ms, next, script[1..]).value;
      var first := MigrationResult(current, ms[i].to, script[0].result, script[0].restart);
      assert r.value.results == [first] + rest.results;
      assert RevisionOf(next) == (if first.restartRequested then first.from else At(first.to));
      ChainedCons(first, rest.results);
      ChosenCons(ms, first, rest.results);
    }
  }

  /** What the writes of a finished loop look like: one per result that did
      not restart, an insert first exactly when no state existed, patches
      after that, and an untouched state when nothing was written. */
  predicate WritesFit<T>(m: Migrated<T>, state: Option<int>) {
    |m.writes| == Persisted(m.results)
    && (|m.writes| > 0 ==> (m.writes[0].Insert? <==> state.None?))
    && (forall k :: 0 < k < |m.writes| ==> m.writes[k].Patch?)
    && (|m.writes| == 0 ==> m.state == state)
  }

  /** One more iteration in front keeps the writes fitting. */
  lemma WritesFitCons<T>(state: Option<int>, first: MigrationResult<T>, rest: Migrated<T>)
    requires WritesFit(rest, if first.restartRequested then state else Some(first.to))
    ensures WritesFit(Migrated([first] + rest.results,
      rest.state,
      (if first.restartRequested then [] else [Persist(state, first.to)]) + rest.writes), state)
  {
    var head: seq<Write> := if first.restartRequested then [] else [Persist(state, first.to)];
    var writes := head + rest.writes;
    PersistedCons(first, rest.results);
    if !first.restartRequested {
      forall k | 0 < k < |writes|
        ensures writes[k].Patch?
      {
        assert writes[k] == rest.writes[k - 1];
      }
    } else {
      assert writes == rest.writes;
    }
  }

  lemma {:induction false} LoopWrites<T>(ms: seq<Migration>, state: Option<int>, script: seq<Execution<T>>)
    requires |ms| > 0
    ensures Loop(ms, state, script).Ok? ==> WritesFit(Loop(ms, state, script).value, state)
    decreases |script|
  {
    var r := Loop(ms, state, script);
    var current := RevisionOf(state);
    if r.Ok? && current != At(Latest(ms)) {
      var i := Choose(ms, current).value;
      var next := if script[0].restart then state else Some(ms[i].to);
      LoopWrites(ms, next, script[1..]);
      var rest := Loop(ms, next, script[1..]).value;
      var first := MigrationResult(current, ms[i].to, script[0].result, script[0].restart);
      WritesFitCons(state, first, rest);
    }
  }

  lemma {:induction false} PersistedCons<T>(first: MigrationResult<T>, rest: seq<MigrationResult<T>>)
    ensures Persisted([first] + rest) == Persisted(rest) + (if first.restartRequested then 0 else 1)
    decreases |rest|
  {
    if |rest| > 0 {
      var all := [first] + rest;
      assert all[..|all| - 1] == [first] + rest[..|rest| - 1];
      PersistedCons(first, rest[..|rest| - 1]);
    } else {
      assert ([first] + rest)[..0] == [];
    }
  }

  /** `migrate`: an empty list fails before anything else happens. */
  function Migrate<T>(ms: seq<Migration>, state: Option<int>, script: seq<Execution<T>>): (r: Result<Migrated<T>, MigrateError>)
    ensures |ms| == 0 <==> r == Err(NoMigrationsProvided)
    ensures |ms| > 0 && RevisionOf(state) == At(Latest(ms)) ==> r == Ok(Migrated([], state, []))
  {
    if |ms| == 0 then Err(NoMigrationsProvided) else Loop(ms, state, script)
  }

  /** The migrations of the example run below: from `init` to 1, from 1 to
      2, and from 1 or 2 straight to 3. */
  const SkipMigrations := [Migration(FromInit, 1), Migration(FromRevision(1), 2), Migration(FromAny([1, 2]), 3)]

  lemma SkipChoices()
    ensures Latest(SkipMigrations) == 3
    ensures Choose(SkipMigrations, Init) == Some(0)
    ensures Choose(SkipMigrations, At(1)) == Some(2)
  {
    var ms := SkipMigrations;
    assert Applies(ms[2].from, At(1));
  }

  /** A fresh database: 'init' -> 1, then from 1 the jump straight to 3 wins
      over the step to 2. */
  lemma FreshDatabaseSkipsToHighest(a: int, b: int)
    ensures Migrate(SkipMigrations, None, [Execution(a, false), Execution(b, false)])
      == Ok(Migrated([MigrationResult(Init, 1, a, false), MigrationResult(At(1), 3, b, false)], Some(3), [Insert(1), Patch(3)]))
  {
    var ms := SkipMigrations;
    SkipChoices();
    var script := [Execution(a, false), Execution(b, false)];
    var tail := [Execution(b, false)];
    assert script[1..] == tail && tail[1..] == [];
    var done := Migrated([], Some(3), []);
    assert Loop(ms, Some(3), tail[1..]) == Ok(done);
    LoopRuns(ms, Some(1), tail, 2, done);
    var r1 := Migrated([MigrationResult(At(1), 3, b, false)], Some(3), [Patch(3)]);
    assert [MigrationResult(At(1), 3, b, false)] + done.results == r1.results;
    assert [Persist(Some(1), 3)] + done.writes == r1.writes;
    LoopRuns(ms, None, script, 0, r1);
    assert [MigrationResult(Init, 1, a, false)] + r1.results == [MigrationResult(Init, 1, a, false), MigrationResult(At(1), 3, b, false)];
    assert [Persist(None, 1)] + r1.writes == [Insert(1), Patch(3)];
  }

  /** A restart re-reads the unchanged state and so runs the same migration
      again, and nothing is written for the restarted execution. */
  lemma RestartRunsAgain(a: int, b: int)
    ensures var ms := [Migration(FromInit, 1)];
      Migrate(ms, None, [Execution(a, true), Execution(b, false)])
      == Ok(Migrated([MigrationResult(Init, 1, a, true), MigrationResult(Init, 1, b, false)], Some(1), [Insert(1)]))
  {
    var ms := [Migration(FromInit, 1)];
    assert Latest(ms) == 1;
    assert Choose(ms, Init) == Some(0);
    var script := [Execution(a, true), Execution(b, false)];
    var tail := [Execution(b, false)];
    assert script[1..] == tail && tail[1..] == [];
    var done := Migrated([], Some(1), []);
    assert Loop(ms, Some(1), tail[1..]) == Ok(done);
    LoopRuns(ms, None, tail, 0, done);
    var r1 := Migrated([MigrationResult(Init, 1, b, false)], Some(1), [Insert(1)]);
    assert [MigrationResult(Init, 1, b, false)] + done.results == r1.results;
    assert [Persist(None, 1)] + done.writes == r1.writes;
    LoopRuns(ms, None, script, 0, r1);
    assert [MigrationResult(Init, 1, a, true)] + r1.results == [MigrationResult(Init, 1, a, true), MigrationResult(Init, 1, b, false)];
    assert [] + r1.writes == [Insert(1)];
  }
}
