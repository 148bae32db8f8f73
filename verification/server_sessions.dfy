/**
 The server's session maps as the code keeps them: replacement, clear, cleanup tick, stream selection.
 Sessions are identities; what the server can ask of one (closed, stream count, whether opening a stream
 succeeds) is kept beside the maps, because other goroutines share it.
 */
module ServerSessions {
  import opened Bytes

  const MAX_STREAMS := 200
  const ZOMBIE_AGE := 180 // seconds

  type Sid = nat

  /** No session has two keys: `keyOf` finds the key of each. */
  ghost predicate Indexed<Key>(m: map<Key, Sid>, keyOf: map<Sid, Key>) {
    forall k :: k in m ==> m[k] in keyOf && keyOf[m[k]] == k
  }

  lemma SizeOfUpdate<Key>(m: map<Key, Sid>, key: Key, v: Sid)
    ensures |m[key := v]| == if key in m then |m| else |m| + 1
  {
    assert m[key := v].Keys == m.Keys + {key};
    assert |m[key := v]| == |m[key := v].Keys| && |m| == |m.Keys|;
  }

  lemma SizeOfMinus<Key>(m: map<Key, Sid>, gone: set<Key>)
    requires gone <= m.Keys
    ensures |m - gone| == |m| - |gone|
  {
    assert (m - gone).Keys == m.Keys - gone;
    assert |m - gone| == |(m - gone).Keys| && |m| == |m.Keys|;
  }

  ghost function SessionsOf<Key>(m: map<Key, Sid>, keys: set<Key>): set<Sid> {
    set k | k in keys && k in m :: m[k]
  }

  /** In the middle of a tick only visited sessions have been closed, so the check of the next one is unaffected. */
  lemma NotYetClosed<Key>(m: map<Key, Sid>, keyOf: map<Sid, Key>, gone: set<Key>, key: Key)
    requires Indexed(m, keyOf) && key in m && key !in gone
    ensures m[key] !in SessionsOf(m, gone)
  {
  }

  /** In the middle of a tick: the maps `m` and `c` have lost the keys `gone`, whose sessions have been closed. */
  ghost predicate Swept<Key>(before: map<Key, Sid>, was: map<Key, int>, open: set<Sid>,
                        m: map<Key, Sid>, c: map<Key, int>, closed: set<Sid>, gone: set<Key>)
  {
    m == before - gone && c == was - gone && closed == open + SessionsOf(before, gone)
  }

  lemma SweptNone<Key>(before: map<Key, Sid>, was: map<Key, int>, open: set<Sid>)
    ensures Swept(before, was, open, before, was, open, {})
  {
    assert before - {} == before && was - {} == was;
  }

  lemma SweptOneMore<Key>(before: map<Key, Sid>, was: map<Key, int>, open: set<Sid>,
                     m: map<Key, Sid>, c: map<Key, int>, closed: set<Sid>, gone: set<Key>, key: Key)
    requires Swept(before, was, open, m, c, closed, gone) && key in before && key !in gone
    ensures Swept(before, was, open, m - {key}, c - {key}, closed + {before[key]}, gone + {key})
  {
    assert before - gone - {key} == before - (gone + {key});
    assert was - gone - {key} == was - (gone + {key});
    assert SessionsOf(before, gone + {key}) == SessionsOf(before, gone) + {before[key]};
  }

  /** What has been swept so far does not change the verdict on a key still to be visited. */
  lemma SweptElsewhere<Key>(before: map<Key, Sid>, was: map<Key, int>, open: set<Sid>,
                       m: map<Key, Sid>, c: map<Key, int>, closed: set<Sid>, gone: set<Key>, key: Key,
                       keyOf: map<Sid, Key>)
    requires Swept(before, was, open, m, c, closed, gone) && Indexed(before, keyOf)
    requires key in before && key in was && key !in gone
    ensures key in m && key in c && m[key] == before[key] && c[key] == was[key]
    ensures m[key] in closed <==> before[key] in open
  {
    NotYetClosed(before, keyOf, gone, key);
  }

  lemma TodoShrinks<Key>(doomed: set<Key>, todo: set<Key>, key: Key)
    requires key in todo
    ensures doomed - (todo - {key}) == if key in doomed then doomed - todo + {key} else doomed - todo
    ensures key in doomed ==> |doomed - (todo - {key})| == |doomed - todo| + 1
  {
    assert key in doomed ==> doomed - (todo - {key}) == doomed - todo + {key};
  }

  /** One key of a tick, visited in any order: swept if it is doomed, else left alone. */
  lemma SweptStep<Key>(before: map<Key, Sid>, was: map<Key, int>, open: set<Sid>,
                       m: map<Key, Sid>, c: map<Key, int>, closed: set<Sid>,
                       doomed: set<Key>, todo: set<Key>, key: Key, keyOf: map<Sid, Key>)
    requires Swept(before, was, open, m, c, closed, doomed - todo) && Indexed(before, keyOf)
    requires key in before && key in was && key in todo
    ensures key in m && key in c && m[key] == before[key] && c[key] == was[key]
    ensures m[key] in closed <==> before[key] in open
    ensures if key in doomed
            then Swept(before, was, open, m - {key}, c - {key}, closed + {before[key]}, doomed - (todo - {key}))
            else Swept(before, was, open, m, c, closed, doomed - (todo - {key}))
    ensures |doomed - (todo - {key})| == |doomed - todo| + if key in doomed then 1 else 0
  {
    SweptElsewhere(before, was, open, m, c, closed, doomed - todo, key, keyOf);
    SweptOneMore(before, was, open, m, c, closed, doomed - todo, key);
    TodoShrinks(doomed, todo, key);
  }

  lemma IndexedAfterSet<Key>(m: map<Key, Sid>, keyOf: map<Sid, Key>, key: Key, sess: Sid)
    requires Indexed(m, keyOf) && forall k :: k in m ==> m[k] != sess
    ensures Indexed(m[key := sess], keyOf[sess := key])
  {
  }

  function NumStreams(streams: map<Sid, nat>, s: Sid): nat {
    if s in streams then streams[s] else 0
  }

  /** What a cleanup tick at time `now` removes: closed sessions, and idle ones older than three minutes. */
  predicate Doomed(streams: map<Sid, nat>, closed: set<Sid>, sess: Sid, createdAt: int, now: int) {
    sess in closed || ((sess in streams ==> streams[sess] == 0) && now - createdAt > 180)
  }

  ghost function DoomedKeys<Key>(m: map<Key, Sid>, c: map<Key, int>, streams: map<Sid, nat>, closed: set<Sid>,
                                 now: int): set<Key>
  {
    set k | k in m && k in c && Doomed(streams, closed, m[k], c[k], now)
  }

  /** Key is the remote address a session came from. */
  class SessionMap<Key(==)> {
    var sessions: map<Key, Sid>
    var created: map<Key, int>
    ghost var keyOf: map<Sid, Key>
    var activeSessions: int    // GlobalStats.ActiveSessions, as far as this server changes it
    var closed: set<Sid>
    var streams: map<Sid, nat> // open streams; absent means none
    var accepting: set<Sid>    // sessions whose OpenStream would succeed

    /** Both maps have the same keys and no session has two. */
    ghost predicate Valid()
      reads this
    {
      sessions.Keys == created.Keys && Indexed(sessions, keyOf)
    }

    constructor ()
      ensures Valid() && sessions == map[] && activeSessions == 0 && closed == {}
    {
      keyOf := map[];
      sessions, created, activeSessions, closed, streams, accepting := map[], map[], 0, {}, map[], {};
    }

    /** setSession, run without interruption: a replaced session is closed and un-counted. */
    method SetSession(key: Key, sess: Sid, now: int)
      requires Valid() && forall k :: k in sessions ==> sessions[k] != sess
      modifies this`keyOf, this`sessions, this`created, this`activeSessions, this`closed
      ensures Valid() && sessions == old(sessions)[key := sess] && created == old(created)[key := now]
      ensures activeSessions - |sessions| == old(activeSessions - |sessions|)
      ensures closed == old(closed) + if key in old(sessions) then {old(sessions)[key]} else {}
    {
      SizeOfUpdate(sessions, key, sess);
      var replaced := if key in sessions then Some(sessions[key]) else None;
      Register(key, sess, now);
      activeSessions := activeSessions + 1;
      if replaced.Some? {
        activeSessions := activeSessions - 1;
        closed := closed + {replaced.value};
      }
    }

    method Register(key: Key, sess: Sid, now: int)
      requires Valid() && forall k :: k in sessions ==> sessions[k] != sess
      modifies this`keyOf, this`sessions, this`created
      ensures Valid() && sessions == old(sessions)[key := sess] && created == old(created)[key := now]
    {
      IndexedAfterSet(sessions, keyOf, key, sess);
      sessions, created, keyOf := sessions[key := sess], created[key := now], keyOf[sess := key];
    }

    /** clearSession: only the session itself is unregistered, not a newer one under the same key. */
    method ClearSession(key: Key, sess: Sid)
      requires Valid()
      modifies this`sessions, this`created, this`activeSessions
      ensures Valid()
      ensures sessions == if key in old(sessions) && old(sessions)[key] == sess
                          then old(sessions) - {key} else old(sessions)
      ensures activeSessions - |sessions| == old(activeSessions - |sessions|)
    {
      if key in sessions && sessions[key] == sess {
        SizeOfMinus(sessions, {key});
        sessions, created := sessions - {key}, created - {key};
        activeSessions := activeSessions - 1;
      }
    }

    method CloseAndDrop(key: Key, sess: Sid)
      modifies this`sessions, this`created, this`activeSessions, this`closed
      ensures sessions == old(sessions) - {key} && created == old(created) - {key}
      ensures closed == old(closed) + {sess} && activeSessions == old(activeSessions) - 1
    {
      closed := closed + {sess};
      sessions, created := sessions - {key}, created - {key};
      activeSessions := activeSessions - 1;
    }

    /** One cleanup tick, for every order in which the map is visited. */
    method CleanupTick(now: int)
      requires Valid()
      modifies this`sessions, this`created, this`activeSessions, this`closed
      ensures Valid() && keyOf == old(keyOf)
      ensures var gone := DoomedKeys(old(sessions), old(created), streams, old(closed), now);
              && sessions == old(sessions) - gone && created == old(created) - gone
              && closed == old(closed) + SessionsOf(old(sessions), gone)
      ensures activeSessions - |sessions| == old(activeSessions - |sessions|)
    {
      ghost var before, was, open := sessions, created, closed;
      ghost var doomed := DoomedKeys(sessions, created, streams, closed, now);
      SweptNone(before, was, open);
      var todo := sessions.Keys;
      assert doomed - todo == {};
      while todo != {}
        invariant todo <= before.Keys
        invariant Swept(before, was, open, sessions, created, closed, doomed - todo)
        invariant activeSessions == old(activeSessions) - |doomed - todo|
        decreases todo
      {
        var key :| key in todo;
        SweptStep(before, was, open, sessions, created, closed, doomed, todo, key, keyOf);
        todo := todo - {key};
        var sess := sessions[key];
        var zombie := NumStreams(streams, sess) == 0 && now - created[key] > ZOMBIE_AGE;
        assert key in doomed <==> sess in closed || zombie;
        if sess in closed || zombie {
          CloseAndDrop(key, sess);
        }
      }
      assert doomed - todo == doomed;
      SizeOfMinus(before, doomed);
    }

    /** A session that openStream may use. */
    predicate Candidate(s: Sid)
      reads this
    {
      s !in closed && (s in streams ==> streams[s] <= 200)
    }

    /**
     openStream, for every order in which the map is visited: the stream comes from a session found open with at
     most 200 streams; without one, every registered session was closed, overloaded, or was tried, failed and is
     closed now. Only sessions whose OpenStream failed are closed, and the maps do not change.
     */
    method OpenStream() returns (res: Option<Sid>, failed: bool)
      modifies this`closed, this`streams
      ensures res.Some? ==> res.value in sessions.Values && old(Candidate(res.value)) && res.value in accepting
      ensures streams == if res.None? then old(streams)
                         else old(streams)[res.value := NumStreams(old(streams), res.value) + 1]
      ensures res.None? ==> forall k :: k in sessions ==> !Candidate(sessions[k])
      ensures old(closed) <= closed && (failed <==> closed != old(closed))
      ensures forall s :: s in closed && s !in old(closed) ==>
                s in sessions.Values && old(Candidate(s)) && s !in accepting
    {
      res, failed := None, false;
      var todo := sessions.Keys;
      while todo != {}
        invariant todo <= sessions.Keys && streams == old(streams)
        invariant old(closed) <= closed && (failed <==> closed != old(closed))
        invariant forall s :: s in closed && s !in old(closed) ==>
                    s in sessions.Values && old(Candidate(s)) && s !in accepting
        invariant forall k :: k in sessions && k !in todo ==> !Candidate(sessions[k])
        decreases todo
      {
        var key :| key in todo;
        todo := todo - {key};
        var sess := sessions[key];
        if sess !in closed && NumStreams(streams, sess) <= MAX_STREAMS {
          if sess in accepting {
            streams := streams[sess := NumStreams(streams, sess) + 1];
            return Some(sess), failed;
          }
          failed := true;
          closed := closed + {sess};
        }
      }
    }
  }
}
