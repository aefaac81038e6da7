/** The process-local key/value cache the application uses (Django's
    default local-memory backend): entries carry an expiry time, a read at or
    after that time sees nothing, `add` inserts only when no live entry
    exists, and `clear` drops everything. The clock is a parameter. */
module Cache {

  import opened Outcomes
  import opened Entities

  /** What the cache holds: edit-lock holders, and opaque cached pages and id lists. */
  datatype CacheValue = Holder(user: UserId) | Opaque(text: string)

  datatype Entry = Entry(value: CacheValue, expiresAt: Option<Timestamp>)

  /** An entry is live while the clock is strictly before its expiry. */
  predicate Live(e: Entry, now: Timestamp) {
    e.expiresAt.None? || now < e.expiresAt.value
  }

  function ExpiryFor(now: Timestamp, timeout: Option<nat>): (t: Option<Timestamp>)
    ensures timeout.Some? ==> t == Some(now + timeout.value)
    ensures timeout.None? ==> t.None?
  {
    match timeout
    case Some(s) => Some(now + s)
    case None => None
  }

  /** What a read of `key` at time `now` finds in `entries`. */
  function Read(entries: map<string, Entry>, key: string, now: Timestamp): (r: Option<CacheValue>)
    ensures r.Some? <==> key in entries && Live(entries[key], now)
    ensures r.Some? ==> r.value == entries[key].value
  {
    if key in entries && Live(entries[key], now) then Some(entries[key].value) else None
  }

  class Store {
    var entries: map<string, Entry>

    constructor ()
      ensures entries == map[]
    {
      entries := map[];
    }

    /** `cache.get(key)`: the live value, or nothing. */
    function Get(key: string, now: Timestamp): (r: Option<CacheValue>)
      reads this
      ensures r == Read(entries, key, now)
    {
      Read(entries, key, now)
    }

    /** `cache.set(key, value, timeout)`: overwrite unconditionally. */
    method Set(key: string, value: CacheValue, timeout: Option<nat>, now: Timestamp)
      modifies this
      ensures entries == old(entries)[key := Entry(value, ExpiryFor(now, timeout))]
    {
      entries := entries[key := Entry(value, ExpiryFor(now, timeout))];
    }

    /** `cache.add(key, value, timeout)`: one atomic step that inserts only
        when no live entry exists, and reports whether it inserted. */
    method Add(key: string, value: CacheValue, timeout: Option<nat>, now: Timestamp) returns (added: bool)
      modifies this
      ensures added <==> old(Get(key, now)).None?
      ensures added ==> entries == old(entries)[key := Entry(value, ExpiryFor(now, timeout))]
      ensures !added ==> entries == old(entries)
    {
      if Get(key, now).None? {
        entries := entries[key := Entry(value, ExpiryFor(now, timeout))];
        added := true;
      } else {
        added := false;
      }
    }

    /** `cache.delete(key)`. */
    method Delete(key: string)
      modifies this
      ensures entries == old(entries) - {key}
    {
      entries := entries - {key};
    }

    /** `cache.clear()`: every entry goes, edit locks included. */
    method Clear()
      modifies this
      ensures entries == map[]
    {
      entries := map[];
    }
  }

  /** A value written with a timeout is readable until the timeout runs out
      and not after. */
  lemma ReadBackWithinTimeout(e: Entry, now: Timestamp, timeout: nat, later: Timestamp)
    requires e.expiresAt == ExpiryFor(now, Some(timeout))
    ensures Live(e, later) <==> later < now + timeout
  {
  }
}
