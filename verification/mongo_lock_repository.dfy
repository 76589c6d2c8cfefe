/** `MongoLockRepository` of `mongo/src/lock/mongo-lock-repository.ts`: one
    lock record per resource (the unique index on `ressource`), holding the
    holder's key and an expiration time. The table maps a resource to its
    record; the clock is the parameter `now`. The TTL index that deletes
    expired records in the background is left out: an expired record that
    is still present behaves as the filters say. */
module MongoLockRepository {
  import opened Wrappers

  datatype Lock = Lock(key: string, expire: int)

  type Table = map<string, Lock>

  /** The filter of `tryInsertOrRefresh`: the resource's record, held by
      `key` or expired. */
  predicate Matches(table: Table, ressource: string, key: string, now: int) {
    ressource in table && (table[ressource].key == key || table[ressource].expire <= now)
  }

  /** `tryInsertOrRefresh` as written: an upsert that sets `expire` and,
      only when inserting, `key`. A matched record whose expiry already
      equals the new date is not modified, so the call reports `false`. An
      unmatched resource that has a record makes the insert violate the
      unique index (error 11000), which is reported as `false`. */
  function TryInsertOrRefresh(table: Table, ressource: string, key: string, newExpirationDate: int, now: int): (r: (Option<int>, Table))
    ensures r.0.Some? ==> r.0.value == newExpirationDate && ressource in r.1 && r.1[ressource].expire == newExpirationDate
    ensures ressource !in table ==> r.0 == Some(newExpirationDate) && r.1 == table[ressource := Lock(key, newExpirationDate)]
    ensures ressource in table && !Matches(table, ressource, key, now) ==> r == (None, table)
    ensures Matches(table, ressource, key, now) ==> r.1 == table[ressource := Lock(table[ressource].key, newExpirationDate)]
    ensures Matches(table, ressource, key, now) ==> (r.0.Some? <==> table[ressource].expire != newExpirationDate)
  {
    if Matches(table, ressource, key, now) then
      var modified := table[ressource].expire != newExpirationDate;
      (if modified then Some(newExpirationDate) else None, table[ressource := table[ressource].(expire := newExpirationDate)])
    else if ressource !in table then
      (Some(newExpirationDate), table[ressource := Lock(key, newExpirationDate)])
    else
      (None, table)
  }

  /** The corrected upsert: `key` is set on every match, so taking over an
      expired lock makes the caller its holder. */
  function TryInsertOrRefreshFixed(table: Table, ressource: string, key: string, newExpirationDate: int, now: int): (r: (Option<int>, Table))
    ensures r.0.Some? ==> r.0.value == newExpirationDate && r.1 == table[ressource := Lock(key, newExpirationDate)]
    ensures r.0.None? ==> r.1 == table || r.1 == table[ressource := Lock(key, newExpirationDate)]
    ensures r.0.Some? <==> (ressource !in table || (Matches(table, ressource, key, now) && table[ressource] != Lock(key, newExpirationDate)))
  {
    if Matches(table, ressource, key, now) then
      var modified := table[ressource] != Lock(key, newExpirationDate);
      (if modified then Some(newExpirationDate) else None, table[ressource := Lock(key, newExpirationDate)])
    else if ressource !in table then
      (Some(newExpirationDate), table[ressource := Lock(key, newExpirationDate)])
    else
      (None, table)
  }

  /** `exists`: a record for the resource that has not expired. */
  function Exists(table: Table, ressource: string, now: int): (r: bool)
    ensures r <==> ressource in table && now < table[ressource].expire
  {
    ressource in table && table[ressource].expire > now
  }

  /** `tryUpdateExpiration`: only the holder's record is updated; the date
      is returned when the record changed. */
  function TryUpdateExpiration(table: Table, ressource: string, key: string, expirationDate: int): (r: (Option<int>, Table))
    ensures !(ressource in table && table[ressource].key == key) ==> r == (None, table)
    ensures ressource in table && table[ressource].key == key ==> r.1 == table[ressource := Lock(key, expirationDate)]
    ensures r.0.Some? <==> ressource in table && table[ressource].key == key && table[ressource].expire != expirationDate
    ensures r.0.Some? ==> r.0.value == expirationDate
  {
    if ressource in table && table[ressource].key == key then
      var modified := table[ressource].expire != expirationDate;
      (if modified then Some(expirationDate) else None, table[ressource := table[ressource].(expire := expirationDate)])
    else
      (None, table)
  }

  /** `deleteByRessource`: only the holder's record is deleted. */
  function DeleteByRessource(table: Table, ressource: string, key: string): (r: (bool, Table))
    ensures r.0 <==> ressource in table && table[ressource].key == key
    ensures r.0 ==> r.1 == table - {ressource}
    ensures !r.0 ==> r.1 == table
  {
    if ressource in table && table[ressource].key == key then (true, table - {ressource}) else (false, table)
  }

  /** Under the corrected upsert a lock is exclusive: once `key` holds it
      until `expire`, another key's attempt before then fails and changes
      nothing. */
  lemma FixedExcludesOthers(table: Table, ressource: string, key: string, expire: int, other: string, otherExpire: int, now: int)
    requires ressource in table && table[ressource] == Lock(key, expire)
    requires other != key && now < expire
    ensures TryInsertOrRefreshFixed(table, ressource, other, otherExpire, now) == (None, table)
    ensures TryUpdateExpiration(table, ressource, other, otherExpire) == (None, table)
    ensures DeleteByRessource(table, ressource, other) == (false, table)
  {
  }

  /** A successful attempt under the corrected upsert makes the caller the
      holder until the new date. */
  lemma FixedSuccessHolds(table: Table, ressource: string, key: string, newExpirationDate: int, now: int)
    requires TryInsertOrRefreshFixed(table, ressource, key, newExpirationDate, now).0.Some?
    ensures var t := TryInsertOrRefreshFixed(table, ressource, key, newExpirationDate, now).1;
      t[ressource] == Lock(key, newExpirationDate) && (newExpirationDate > now ==> Exists(t, ressource, now))
  {
  }

  /** As written, taking over an expired lock reports success to the new
      caller but leaves the old holder's key in the record: the old holder
      can still refresh it, and the new one can neither extend nor delete
      it. */
  lemma TakeoverKeepsOldHolder()
    ensures var t0 := map["r" := Lock("a", 5)];
      var (taken, t1) := TryInsertOrRefresh(t0, "r", "b", 20, 10);
      && taken == Some(20)
      && t1 == map["r" := Lock("a", 20)]
      && TryInsertOrRefresh(t1, "r", "a", 30, 11).0 == Some(30)
      && TryUpdateExpiration(t1, "r", "b", 30).0.None?
      && !DeleteByRessource(t1, "r", "b").0
  {
  }

  /** Without a takeover of an expired lock, the code as written and the
      corrected upsert agree. */
  lemma AgreeWithoutTakeover(table: Table, ressource: string, key: string, newExpirationDate: int, now: int)
    requires ressource in table ==> table[ressource].key == key || table[ressource].expire > now
    ensures TryInsertOrRefresh(table, ressource, key, newExpirationDate, now) == TryInsertOrRefreshFixed(table, ressource, key, newExpirationDate, now)
  {
  }
}
