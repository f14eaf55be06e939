/** The time-to-live cache pattern the console repeats in TenantInfo,
    HostelInfo, Topbar and UserFeedback: an entry `{ data, timestamp }` is
    answered from memory only while it is younger than `maxAge`; otherwise
    the request is made and, on success, overwrites the entry. Times are
    integer milliseconds read from the clock (`Date.now()`). The clock is
    read twice: `now` before the request, for the freshness test, and
    `storedAt` after the awaited response, for the new timestamp. */
module Ttl {
  import opened Wrappers

  /** One cache entry. `None` is the `null` the source stores when empty. */
  datatype Entry<T> = Entry(data: Option<T>, timestamp: Option<int>)

  /** What the request did: it delivered a body, failed with a message, or
      was cancelled by a newer request of the same kind. */
  datatype Response<T> = Fetched(body: T) | Failed(message: string) | Cancelled

  /** What `fetchWithCache` hands its caller: a value, a thrown error, or
      `undefined` (the cancelled case, which is logged and swallowed). */
  datatype Answer<T> = Value(value: T) | Throws(message: string) | Undefined

  /** One `fetchWithCache` call: its answer, whether a request was made,
      whether the entry was written, and the entry afterwards. */
  datatype Lookup<T> = Lookup(answer: Answer<T>, requested: bool, stored: bool, entry: Entry<T>)

  function EmptyEntry<T>(): Entry<T> {
    Entry(None, None)
  }

  /** The guard every cache in the console applies: not forced, data and
      timestamp present (a timestamp of 0 is falsy), and strictly younger
      than `maxAge`. */
  predicate Servable<T>(e: Entry<T>, now: int, maxAge: int, forceRefresh: bool) {
    && !forceRefresh
    && e.data.Some?
    && e.timestamp.Some? && e.timestamp.value != 0
    && now - e.timestamp.value < maxAge
  }

  /** Reference definition of one read through a cache entry. */
  function ReadThrough<T>(e: Entry<T>, now: int, maxAge: int, forceRefresh: bool, response: Response<T>, storedAt: int)
    : (l: Lookup<T>)
    ensures l.requested <==> !Servable(e, now, maxAge, forceRefresh)
    ensures l.stored <==> l.requested && response.Fetched?
    ensures !l.stored ==> l.entry == e
  {
    if Servable(e, now, maxAge, forceRefresh) then Lookup(Value(e.data.value), false, false, e)
    else match response
      case Fetched(body) => Lookup(Value(body), true, true, Entry(Some(body), Some(storedAt)))
      case Failed(m) => Lookup(Throws(m), true, false, e)
      case Cancelled => Lookup(Undefined, true, false, e)
  }

  /** A successful request stores its body with the time the response
      arrived, not the time the read began, and answers with that same body. */
  lemma FetchStoresBody<T>(e: Entry<T>, now: int, maxAge: int, forceRefresh: bool, body: T, storedAt: int)
    requires !Servable(e, now, maxAge, forceRefresh)
    ensures var l := ReadThrough(e, now, maxAge, forceRefresh, Fetched(body), storedAt);
      l.answer == Value(body) && l.entry == Entry(Some(body), Some(storedAt))
  {
  }

  /** After a read begun at `start` whose response arrived at `t`, a later
      read that is not forced and comes less than `maxAge` after `t`
      answers with the stored body without making a request, whatever the
      network would have said: the age counts from the arrival. */
  lemma {:induction false} StoredIsServedWithinMaxAge<T>(
    e: Entry<T>, start: int, t: int, maxAge: int, forceRefresh: bool, body: T,
    now: int, later: Response<T>, laterAt: int)
    requires t != 0 && t <= now && now - t < maxAge
    requires ReadThrough(e, start, maxAge, forceRefresh, Fetched(body), t).requested
    ensures var stored := ReadThrough(e, start, maxAge, forceRefresh, Fetched(body), t).entry;
      var again := ReadThrough(stored, now, maxAge, false, later, laterAt);
      !again.requested && again.answer == Value(body) && again.entry == stored
  {
    var stored := ReadThrough(e, start, maxAge, forceRefresh, Fetched(body), t).entry;
    assert stored == Entry(Some(body), Some(t));
    assert Servable(stored, now, maxAge, false);
  }

  /** An entry exactly `maxAge` old, or older, is fetched again: the age
      comparison is strict. */
  lemma ExpiredIsRefetched<T>(d: T, t: int, now: int, maxAge: int, response: Response<T>, storedAt: int)
    requires now - t >= maxAge
    ensures ReadThrough(Entry(Some(d), Some(t)), now, maxAge, false, response, storedAt).requested
  {
  }

  /** A failed or cancelled request leaves the entry as it was, so a stale
      entry survives; a failure is passed on to the caller. */
  lemma FailureKeepsEntry<T>(e: Entry<T>, now: int, maxAge: int, forceRefresh: bool, m: string, storedAt: int)
    requires !Servable(e, now, maxAge, forceRefresh)
    ensures ReadThrough(e, now, maxAge, forceRefresh, Failed(m), storedAt) == Lookup(Throws(m), true, false, e)
    ensures ReadThrough(e, now, maxAge, forceRefresh, Cancelled, storedAt) == Lookup(Undefined, true, false, e)
  {
  }

  /** The module-level `cache` object of TenantInfo and HostelInfo: one
      entry per resource key and one shared `maxAge`. */
  class KeyedCache<T> {
    var entries: map<string, Entry<T>>
    const maxAge: int

    /** The entry under `key`; a key never written reads as empty. */
    function Slot(key: string): Entry<T>
      reads this
    {
      if key in entries then entries[key] else EmptyEntry()
    }

    /** The initial object literal: every key with `data` and `timestamp` null. */
    constructor (keys: set<string>, maxAge: int)
      ensures this.maxAge == maxAge
      ensures entries == map k | k in keys :: EmptyEntry()
    {
      this.maxAge := maxAge;
      entries := map k | k in keys :: EmptyEntry();
    }

    /** `fetchWithCache(key, url, { forceRefresh })` begun at `now`, whose
        response arrives at `storedAt`. Only the entry under `key` can
        change, and only when a request succeeded. */
    method FetchWithCache(key: string, now: int, forceRefresh: bool, response: Response<T>, storedAt: int)
      returns (answer: Answer<T>, requested: bool)
      modifies this
      ensures var l := ReadThrough(old(Slot(key)), now, maxAge, forceRefresh, response, storedAt);
        && answer == l.answer && requested == l.requested
        && entries == if l.stored then old(entries)[key := l.entry] else old(entries)
    {
      var e := Slot(key);
      if Servable(e, now, maxAge, forceRefresh) {
        return Value(e.data.value), false;
      }
      requested := true;
      match response
      case Fetched(body) =>
        entries := entries[key := Entry(Some(body), Some(storedAt))];
        answer := Value(body);
      case Failed(m) =>
        answer := Throws(m);
      case Cancelled =>
        answer := Undefined;
    }

    /** The unmount cleanup: `data` and `timestamp` of every entry become
        null; the keys and `maxAge` stay. */
    method ClearAll()
      modifies this
      ensures entries.Keys == old(entries.Keys)
      ensures forall k :: k in entries ==> entries[k] == EmptyEntry()
    {
      entries := map k | k in entries :: EmptyEntry();
    }
  }

  /** After the cleanup, every read of any key makes a request. */
  lemma ClearedAlwaysRequests<T>(now: int, maxAge: int, forceRefresh: bool, response: Response<T>, storedAt: int)
    ensures ReadThrough(EmptyEntry<T>(), now, maxAge, forceRefresh, response, storedAt).requested
  {
  }
}
