/** `RedisLockProvider` of `redis/src/lock/provider.ts`: the store key of a
    lock and the four Lua scripts it defines, run against a key/value store
    with per-key expiry. Script arguments arrive as strings; the expiry
    timestamp is the integer the string denotes. The server clock is a
    parameter in milliseconds (`now`), or in microseconds for the script
    that reads `TIME`. */
module RedisLockProvider {
  import opened Wrappers

  /** A stored string and its optional absolute expiry in milliseconds. */
  datatype Entry = Entry(value: string, expireAt: Option<int>)

  type Store = map<string, Entry>

  /** `get(key)` works on the store key `lock:<key>`. */
  function LockKey(key: string): (r: string)
    ensures |r| == |key| + 5 && r[..5] == "lock:" && r[5..] == key
  {
    "lock:" + key
  }

  lemma LockKeyInjective(a: string, b: string)
    ensures LockKey(a) == LockKey(b) <==> a == b
  {
    if LockKey(a) == LockKey(b) {
      assert a == LockKey(a)[5..];
    }
  }

  /** A key is present until its expiry time. */
  predicate Live(store: Store, key: string, now: int) {
    key in store && (store[key].expireAt.None? || now < store[key].expireAt.value)
  }

  /** `GET`: the value of a live key; `None` is Lua's `false` for nil. */
  function Get(store: Store, key: string, now: int): (r: Option<string>)
    ensures r.Some? <==> Live(store, key, now)
    ensures r.Some? ==> r.value == store[key].value
  {
    if Live(store, key, now) then Some(store[key].value) else None
  }

  /** `PEXPIREAT` on a live key: 1, and a timestamp already past deletes the
      key; 0 when the key is missing. */
  function PExpireAt(store: Store, key: string, timestamp: int, now: int): (r: (int, Store))
    ensures r.0 == 1 <==> Live(store, key, now)
    ensures r.0 == 0 <==> !Live(store, key, now)
    ensures r.0 == 0 ==> r.1 == store
    ensures r.0 == 1 && now < timestamp ==> r.1 == store[key := Entry(store[key].value, Some(timestamp))]
    ensures r.0 == 1 && timestamp <= now ==> r.1 == store - {key}
  {
    if !Live(store, key, now) then (0, store)
    else if timestamp <= now then (1, store - {key})
    else (1, store[key := Entry(store[key].value, Some(timestamp))])
  }

  datatype AcquireResult = Owned | Failed | Acquired

  /** The `lock:acquire` script. `SET NX` follows a `GET` that found no
      value, inside one atomic script, so it always succeeds, and
      `PEXPIREAT` on the key just set returns 1: the `"failed"` result of
      the last branch cannot occur. */
  function Acquire(store: Store, key: string, id: string, expireTimestamp: int, now: int): (r: (AcquireResult, Store))
    ensures Get(store, key, now) == Some(id) ==> r == (Owned, store)
    ensures Get(store, key, now).Some? && Get(store, key, now) != Some(id) ==> r == (Failed, store)
    ensures Get(store, key, now).None? ==> r.0 == Acquired
    ensures Get(store, key, now).None? && now < expireTimestamp ==> r.1 == store[key := Entry(id, Some(expireTimestamp))]
  {
    var lockedId := Get(store, key, now);
    if lockedId == Some(id) then (Owned, store)
    else if lockedId.Some? then (Failed, store)
    else
      var afterSet := store[key := Entry(id, None)];
      var (expired, afterExpire) := PExpireAt(afterSet, key, expireTimestamp, now);
      if expired == 1 then (Acquired, afterExpire) else (Failed, afterExpire)
  }

  /** The `lock:refresh` script: the holder moves the expiry. */
  function Refresh(store: Store, key: string, id: string, expireTimestamp: int, now: int): (r: (int, Store))
    ensures Get(store, key, now) != Some(id) ==> r == (0, store)
    ensures Get(store, key, now) == Some(id) ==> r.0 == 1
    ensures Get(store, key, now) == Some(id) && now < expireTimestamp ==> r.1 == store[key := Entry(id, Some(expireTimestamp))]
  {
    if Get(store, key, now) == Some(id) then PExpireAt(store, key, expireTimestamp, now) else (0, store)
  }

  /** Lua's `==` between the string `force` and the number literal `1`:
      values of different types are never equal. */
  function LuaStringEqualsNumber(s: string, n: int): bool {
    false
  }

  /** `DEL` of one key: 1 when it was live. */
  function Del(store: Store, key: string, now: int): (r: (int, Store))
    ensures r.0 == (if Live(store, key, now) then 1 else 0)
    ensures r.1 == store - {key}
  {
    (if Live(store, key, now) then 1 else 0, store - {key})
  }

  /** The `lock:release` script as written: `force == 1` compares the
      string argument with a number, so only the holder releases. */
  function ReleaseAsWritten(store: Store, key: string, id: string, force: string, now: int): (r: (int, Store))
    ensures Get(store, key, now) == Some(id) ==> r == (1, store - {key})
    ensures Get(store, key, now) != Some(id) ==> r == (0, store)
  {
    if Get(store, key, now) == Some(id) || LuaStringEqualsNumber(force, 1) then Del(store, key, now) else (0, store)
  }

  /** The release the script evidently intends: the holder, or anyone
      passing the force flag `"1"`, deletes the key. */
  function Release(store: Store, key: string, id: string, force: string, now: int): (r: (int, Store))
    ensures Get(store, key, now) == Some(id) || force == "1" ==> r.1 == store - {key} && r.0 == (if Live(store, key, now) then 1 else 0)
    ensures Get(store, key, now) != Some(id) && force != "1" ==> r == (0, store)
  {
    if Get(store, key, now) == Some(id) || force == "1" then Del(store, key, now) else (0, store)
  }

  /** The reply of `TIME`, seconds and microseconds, for a clock reading in
      microseconds. */
  function Time(nowMicros: nat): (r: (int, int))
    ensures r.0 * 1000000 + r.1 == nowMicros && 0 <= r.1 < 1000000
  {
    (nowMicros / 1000000, nowMicros % 1000000)
  }

  /** `PTTL` of a live key: the milliseconds left, or -1 without expiry. */
  function PTtl(store: Store, key: string, now: int): int
    requires Live(store, key, now)
  {
    match store[key].expireAt
    case None => -1
    case Some(t) => t - now
  }

  /** The `lock:owned` script: for the holder, the remaining time plus the
      current time in milliseconds; 0 otherwise. */
  function OwnedUntil(store: Store, key: string, id: string, nowMicros: nat): (r: int)
    ensures Get(store, key, nowMicros / 1000) != Some(id) ==> r == 0
    ensures Get(store, key, nowMicros / 1000) == Some(id) && store[key].expireAt.Some? ==> r == store[key].expireAt.value
  {
    var now := nowMicros / 1000;
    if Get(store, key, now) == Some(id) then
      var millisecondsLeft := PTtl(store, key, now);
      var time := Time(nowMicros);
      MillisecondsOfTime(nowMicros);
      millisecondsLeft + time.0 * 1000 + time.1 / 1000
    else 0
  }

  /** Seconds and microseconds of `TIME`, converted as the script does, give
      the clock in whole milliseconds. */
  lemma MillisecondsOfTime(nowMicros: nat)
    ensures Time(nowMicros).0 * 1000 + Time(nowMicros).1 / 1000 == nowMicros / 1000
  {
    var (s, us) := Time(nowMicros);
    assert nowMicros == s * 1000000 + us;
    assert s * 1000000 == (s * 1000) * 1000;
    var ms := s * 1000;
    assert nowMicros == ms * 1000 + us;
  }

  /** A lock acquired by one id until `expire` excludes every other id
      until then: their acquire fails, their refresh returns 0, and their
      release (whatever the force flag, as written) deletes nothing. */
  lemma AcquiredIsExclusive(store: Store, key: string, id: string, expire: int, now: int, other: string, later: int, otherExpire: int, force: string)
    requires Acquire(store, key, id, expire, now).0 == Acquired
    requires now <= later < expire && now < expire && other != id
    ensures var s := Acquire(store, key, id, expire, now).1;
      && Acquire(s, key, other, otherExpire, later) == (Failed, s)
      && Refresh(s, key, other, otherExpire, later) == (0, s)
      && ReleaseAsWritten(s, key, other, force, later) == (0, s)
      && Acquire(s, key, id, otherExpire, later) == (Owned, s)
  {
    var s := Acquire(store, key, id, expire, now).1;
    assert Get(s, key, later) == Some(id);
  }

  /** As written the force flag has no effect: a forced release by anyone
      but the holder leaves the lock in place, where the corrected script
      deletes it. */
  lemma ForceIgnored(store: Store, key: string, id: string, now: int)
    requires Live(store, key, now) && store[key].value != id
    ensures ReleaseAsWritten(store, key, id, "1", now) == (0, store)
    ensures Release(store, key, id, "1", now) == (1, store - {key})
  {
  }

  /** The holder reads back the expiry it acquired the lock with. */
  lemma OwnedAfterAcquire(store: Store, key: string, id: string, expire: int, nowMicros: nat)
    requires Get(store, key, nowMicros / 1000).None? && nowMicros / 1000 < expire
    ensures OwnedUntil(Acquire(store, key, id, expire, nowMicros / 1000).1, key, id, nowMicros) == expire
  {
    var s := Acquire(store, key, id, expire, nowMicros / 1000).1;
    assert Get(s, key, nowMicros / 1000) == Some(id);
  }
}
