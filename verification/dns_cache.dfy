/** The DNS cache of the tunnel's resolver: as a value over whole runs, and as the code's map of shared buffers. */
module DnsCache {
  import opened Bytes

  const TTL := 60 // seconds
  const ID_SIZE := 2

  type Key = seq<byte> // the query behind its transaction ID

  datatype Stored = Stored(response: seq<byte>, expiresAt: int)

  type Cache = map<Key, Stored>

  /** Get: an entry counts up to and including its expiry time. */
  function Lookup(c: Cache, key: Key, now: int): Option<seq<byte>> {
    if key in c && now <= c[key].expiresAt then Some(c[key].response) else None
  }

  function Expired(c: Cache, now: int): set<Key> {
    set k | k in c && now > c[k].expiresAt
  }

  // ---- whole runs ----

  datatype Event = Set(key: Key, response: seq<byte>, now: int) | Cleanup(now: int)

  function Step(c: Cache, e: Event): Cache {
    match e
    case Set(key, response, now) => c[key := Stored(response, now + TTL)]
    case Cleanup(now) => c - Expired(c, now)
  }

  function Run(events: seq<Event>): Cache {
    if events == [] then map[] else Step(Run(events[..|events| - 1]), events[|events| - 1])
  }

  /** The latest answer stored for a key. */
  function Latest(events: seq<Event>, key: Key): Option<Event> {
    if events == [] then None
    else
      var last := events[|events| - 1];
      if last.Set? && last.key == key then Some(last) else Latest(events[..|events| - 1], key)
  }

  predicate Monotone(events: seq<Event>, now: int) {
    && (forall i :: 0 <= i < |events| ==> events[i].now <= now)
    && (forall i, j :: 0 <= i < j < |events| ==> events[i].now <= events[j].now)
  }

  function Fresh(stored: Option<Event>, now: int): Option<seq<byte>> {
    match stored
    case Some(Set(_, response, at)) => if now - at <= 60 then Some(response) else None
    case _ => None
  }

  lemma {:induction false} LatestIsSet(events: seq<Event>, key: Key)
    ensures Latest(events, key).Some? ==> Latest(events, key).value.Set? && Latest(events, key).value in events
  {
    if events != [] {
      LatestIsSet(events[..|events| - 1], key);
    }
  }

  /**
   In every run with a monotone clock, a lookup gives exactly the latest answer stored for the key if that is at
   most 60 seconds old, wherever cleanups happen in between.
   */
  lemma {:induction false} LookupIsLatest(events: seq<Event>, key: Key, now: int)
    requires Monotone(events, now)
    ensures Lookup(Run(events), key, now) == Fresh(Latest(events, key), now)
  {
    if events != [] {
      var front, last := events[..|events| - 1], events[|events| - 1];
      LookupIsLatest(front, key, last.now);
      LookupIsLatest(front, key, now);
      LatestIsSet(front, key);
    }
  }

  function WithoutCleanups(events: seq<Event>): seq<Event> {
    if events == [] then []
    else
      var front, last := events[..|events| - 1], events[|events| - 1];
      if last.Cleanup? then WithoutCleanups(front) else WithoutCleanups(front) + [last]
  }

  lemma {:induction false} LatestWithoutCleanups(events: seq<Event>, key: Key)
    ensures Latest(WithoutCleanups(events), key) == Latest(events, key)
  {
    if events != [] {
      var front, last := events[..|events| - 1], events[|events| - 1];
      LatestWithoutCleanups(front, key);
      if !last.Cleanup? {
        var kept := WithoutCleanups(events);
        assert kept == WithoutCleanups(front) + [last];
        assert kept[..|kept| - 1] == WithoutCleanups(front) && kept[|kept| - 1] == last;
      }
    }
  }

  lemma {:induction false} MonotoneWithoutCleanups(events: seq<Event>, now: int)
    requires Monotone(events, now)
    ensures Monotone(WithoutCleanups(events), now)
  {
    if events != [] {
      var front, last := events[..|events| - 1], events[|events| - 1];
      MonotoneWithoutCleanups(front, last.now);
    }
  }

  /** Erasing every cleanup from a run changes no lookup. */
  lemma {:induction false} CleanupInvisible(events: seq<Event>, key: Key, now: int)
    requires Monotone(events, now)
    ensures Lookup(Run(events), key, now) == Lookup(Run(WithoutCleanups(events)), key, now)
  {
    LookupIsLatest(events, key, now);
    MonotoneWithoutCleanups(events, now);
    LookupIsLatest(WithoutCleanups(events), key, now);
    LatestWithoutCleanups(events, key);
  }

  /**
   The hypothesis of a monotone clock is needed: on a clock that goes back, which Go's monotonic readings exclude, a
   cleanup shows.
   */
  lemma CleanupVisibleIfClockGoesBack(key: Key, response: seq<byte>)
    ensures Lookup(Run([Set(key, response, 0), Cleanup(100)]), key, 10) == None
    ensures Lookup(Run([Set(key, response, 0)]), key, 10) == Some(response)
  {
    var events := [Set(key, response, 0), Cleanup(100)];
    assert events[..1] == [Set(key, response, 0)];
    assert Run([]) == map[];
    assert Run(events[..1]) == map[key := Stored(response, 60)];
  }

  // ---- the code's cache ----

  datatype Entry = Entry(response: array<byte>, expiresAt: int)

  /** What a query handler does. */
  datatype Outcome = Reply(bytes: seq<byte>) | NoReply | Panic

  ghost predicate Represents(entries: map<Key, Entry>, c: Cache)
    reads set k | k in entries :: entries[k].response
  {
    && entries.Keys == c.Keys
    && forall k :: k in entries ==> entries[k].response[..] == c[k].response && entries[k].expiresAt == c[k].expiresAt
  }

  /** The entries left when only the keys in `todo` are still to be visited. */
  ghost function Pruned(entries: map<Key, Entry>, todo: set<Key>, now: int): map<Key, Entry> {
    map k | k in entries && (k in todo || now <= entries[k].expiresAt) :: entries[k]
  }

  class DnsProxyCache {
    var entries: map<Key, Entry>
    ghost var cache: Cache

    ghost predicate Valid()
      reads this, set k | k in entries :: entries[k].response
    {
      Represents(entries, cache)
    }

    constructor ()
      ensures Valid() && cache == map[]
    {
      entries, cache := map[], map[];
    }

    /** The stored buffer itself is returned, not a copy. */
    method Get(key: Key, now: int) returns (res: Option<array<byte>>)
      requires Valid()
      ensures match Lookup(cache, key, now)
              case None => res == None
              case Some(response) => res.Some? && res.value[..] == response
    {
      res := None;
      if key in entries && !(now > entries[key].expiresAt) {
        res := Some(entries[key].response);
      }
    }

    method Store(key: Key, response: array<byte>, now: int)
      requires Valid()
      modifies this
      ensures Valid() && cache == Step(old(cache), Set(key, response[..], now))
    {
      entries := entries[key := Entry(response, now + TTL)];
      cache := cache[key := Stored(response[..], now + TTL)];
    }

    /** Deletes while it visits the map, in any order. */
    method CleanupTick(now: int)
      requires Valid()
      modifies this
      ensures Valid() && cache == Step(old(cache), Cleanup(now))
    {
      ghost var before, all := cache, entries;
      var todo := entries.Keys;
      while todo != {}
        invariant todo <= all.Keys && entries == Pruned(all, todo, now)
        decreases todo
      {
        var k :| k in todo;
        todo := todo - {k};
        if k in entries && now > entries[k].expiresAt {
          entries := entries - {k};
        }
      }
      cache := before - Expired(before, now);
    }

    /**
     handleQuery at time `now`. A hit answers with a private copy of the stored answer under the asker's
     transaction ID (section 4.1.1 of RFC 1035) and changes no stored buffer; on a miss the upstream answer, if
     one arrives (at time `later`), is stored and passed on. Only packets shorter than an ID panic.
     */
    method HandleQuery(query: seq<byte>, now: int, upstream: Option<seq<byte>>, later: int) returns (out: Outcome)
      requires Valid()
      modifies this
      ensures Valid()
      ensures |query| < 2 ==> out == Panic && cache == old(cache)
      ensures |query| >= 2 ==>
                match Lookup(old(cache), query[2..], now)
                case Some(response) =>
                  && cache == old(cache)
                  && out == if |response| < 2 then Panic else Reply(query[..2] + response[2..])
                case None =>
                  if upstream.None? || upstream.value == [] then out == NoReply && cache == old(cache)
                  else
                    && out == Reply(upstream.value)
                    && cache == Step(old(cache), Set(query[2..], upstream.value, later))
    {
      if |query| < ID_SIZE {
        return Panic;
      }
      var key := query[ID_SIZE..];
      var hit := Get(key, now);
      if hit.Some? {
        var resp := hit.value;
        var reply := new byte[resp.Length](i requires 0 <= i < resp.Length reads resp => resp[i]);
        if reply.Length < ID_SIZE {
          return Panic;
        }
        reply[0], reply[1] := query[0], query[1];
        assert reply[..] == query[..ID_SIZE] + resp[ID_SIZE..];
        assert resp[..][ID_SIZE..] == resp[ID_SIZE..];
        return Reply(reply[..]);
      }
      if upstream.None? || |upstream.value| == 0 {
        return NoReply;
      }
      var answer := upstream.value;
      var resp := new byte[|answer|](i requires 0 <= i < |answer| => answer[i]);
      assert resp[..] == answer;
      Store(key, resp, later);
      out := Reply(resp[..]);
    }
  }

  // ---- answers to clients ----

  predicate AllIdentified(events: seq<Event>) {
    forall i :: 0 <= i < |events| && events[i].Set? ==> |events[i].response| >= 2
  }

  /** If every stored answer carries an ID, no hit panics, in any run. */
  lemma {:induction false} HitsNeverPanic(events: seq<Event>, key: Key, now: int)
    requires Monotone(events, now) && AllIdentified(events)
    ensures Lookup(Run(events), key, now).Some? ==> |Lookup(Run(events), key, now).value| >= 2
  {
    LookupIsLatest(events, key, now);
    LatestIsSet(events, key);
  }
}
