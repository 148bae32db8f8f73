/** Client.sessions as the code keeps it, a slice over a backing array, and the operations on it. */
module ClientSessions {
  import opened Bytes
  import opened SessionPool
  import opened RoundRobin
  import opened Smux

  const SESSION_MAX_AGE := 20 * 60 // seconds

  type Entry = Pooled<Session>

  datatype OpenResult = Opened(session: Session) | NoSessions | Exhausted | IndexPanic

  ghost function Dead(pool: seq<Entry>): set<Session>
    reads set i | 0 <= i < |pool| :: pool[i].session
  {
    set i | 0 <= i < |pool| && pool[i].session.closed :: pool[i].session
  }

  predicate Expired(e: Entry, now: int)
    reads e.session
  {
    !e.session.closed && now - e.createdAt > 1200
  }

  lemma {:induction false} RemoveAt<S>(pool: seq<Pooled<S>>, s: S, i: nat)
    requires i <= |pool|
    requires forall j :: 0 <= j < i ==> pool[j].session != s
    requires i < |pool| ==> pool[i].session == s
    ensures Remove(pool, s) == if i < |pool| then pool[..i] + pool[i + 1..] else pool
  {
    if pool != [] && i > 0 {
      var rest := pool[1..];
      RemoveAt(rest, s, i - 1);
      if i < |pool| {
        assert pool[..i] == [pool[0]] + rest[..i - 1];
        assert pool[i + 1..] == rest[i..];
      }
    }
  }

  lemma KeepOpenOne<S>(pool: seq<Pooled<S>>, dead: set<S>, i: nat)
    requires i < |pool|
    ensures KeepOpen(pool[..i + 1], dead)
         == KeepOpen(pool[..i], dead) + if pool[i].session in dead then [] else [pool[i]]
  {
    assert pool[..i + 1][..i] == pool[..i];
  }

  /** In place, `before` has been filtered up to i into the first `alive` elements. */
  ghost predicate Compacted<S>(now: seq<Pooled<S>>, before: seq<Pooled<S>>, dead: set<S>, alive: nat, i: nat) {
    && alive <= i <= |before| <= |now|
    && now[..alive] == KeepOpen(before[..i], dead)
    && now[i..|before|] == before[i..]
  }

  lemma CompactOne<S>(now: seq<Pooled<S>>, before: seq<Pooled<S>>, dead: set<S>, alive: nat, i: nat)
    requires Compacted(now, before, dead, alive, i) && i < |before|
    ensures now[i] == before[i]
    ensures if before[i].session in dead then Compacted(now, before, dead, alive, i + 1)
            else Compacted(now[alive := now[i]], before, dead, alive + 1, i + 1)
  {
    assert now[i] == now[i..|before|][0] == before[i];
    KeepOpenOne(before, dead, i);
    var next := now[alive := now[i]];
    assert next[..alive + 1] == now[..alive] + [now[i]];
    assert next[i + 1..|before|] == now[i..|before|][1..] == before[i + 1..];
  }

  class SessionList {
    var backing: array<Entry>
    var len: nat
    var sessIdx: nat // uint64
    ghost var snapshots: set<array<Entry>> // the copies that calls of OpenStream hold

    ghost predicate Valid()
      reads this
    {
      len <= backing.Length && sessIdx < TWO64 && backing !in snapshots
    }

    ghost function Contents(): (s: seq<Entry>)
      reads this, backing
      requires Valid()
      ensures |s| == len
    {
      backing[..len]
    }

    constructor ()
      ensures Valid() && Contents() == [] && sessIdx == 0 && fresh(backing)
    {
      backing, len, sessIdx, snapshots := new Entry[0], 0, 0, {};
    }

    /** append: in place while there is room, else into a larger array. */
    method AddSession(s: Session, now: int)
      requires Valid()
      modifies this`backing, this`len, backing
      ensures Valid() && (backing == old(backing) || fresh(backing))
      ensures Contents() == old(Contents()) + [Pooled(s, now)]
      ensures forall p :: p in old(snapshots) ==> p[..] == old(p[..])
    {
      ghost var before := Contents();
      var entry := Pooled(s, now);
      if len == backing.Length {
        var old_, n := backing, len;
        backing := new Entry[2 * len + 1](i requires 0 <= i reads old_ => if i < old_.Length then old_[i] else entry);
        assert backing[..n] == before;
      }
      backing[len] := entry;
      len := len + 1;
      assert backing[..len] == backing[..len - 1] + [entry];
    }

    /** Shift the tail down over the first entry of that session. */
    method RemoveSession(s: Session)
      requires Valid()
      modifies this`len, backing
      ensures Valid() && Contents() == Remove(old(Contents()), s)
      ensures forall p :: p in old(snapshots) ==> p[..] == old(p[..])
    {
      ghost var before := Contents();
      var i := 0;
      while i < len && backing[i].session != s
        invariant 0 <= i <= len
        invariant forall j :: 0 <= j < i ==> before[j].session != s
      {
        i := i + 1;
      }
      RemoveAt(before, s, i);
      if i < len {
        ShiftDown(i);
        len := len - 1;
      }
    }

    /** append(s[:i], s[i+1:]...) copies the tail inside the backing array. */
    method ShiftDown(i: nat)
      requires Valid() && i < len
      modifies backing
      ensures backing[..len - 1] == old(Contents()[..i] + Contents()[i + 1..])
    {
      var j := i;
      while j + 1 < len
        invariant i <= j < len
        invariant forall k :: 0 <= k < i ==> backing[k] == old(backing[k])
        invariant forall k :: i <= k < j ==> backing[k] == old(backing[k + 1])
        invariant forall k :: j < k < len ==> backing[k] == old(backing[k])
      {
        backing[j] := backing[j + 1];
        j := j + 1;
      }
    }

    /** The cleanup tick compacts over its own backing array: a write index never passes the read index. */
    method CleanupTick() returns (removed: nat)
      requires Valid()
      modifies this`len, backing
      ensures Valid() && Contents() == KeepOpen(old(Contents()), Dead(old(Contents())))
      ensures removed == |old(Contents())| - |Contents()|
      ensures forall p :: p in old(snapshots) ==> p[..] == old(p[..])
    {
      ghost var before := Contents();
      ghost var dead := Dead(before);
      var alive, i := 0, 0;
      removed := 0;
      while i < len
        invariant i <= len == |before| && removed == i - alive
        invariant Dead(before) == dead
        invariant Compacted(backing[..], before, dead, alive, i)
      {
        ghost var now := backing[..];
        var entry := backing[i];
        CompactOne(now, before, dead, alive, i);
        if entry.session.closed {
          removed := removed + 1;
        } else {
          backing[alive] := entry;
          assert backing[..] == now[alive := entry];
          alive := alive + 1;
        }
        i := i + 1;
      }
      assert before[..i] == before;
      len := alive;
    }

    /** The oldest open session above the age limit, the first one on ties. */
    method PickExpired(now: int) returns (oldest: Option<Entry>)
      requires Valid()
      ensures oldest.None? ==> forall e :: e in Contents() ==> !Expired(e, now)
      ensures oldest.Some? ==> oldest.value in Contents() && Expired(oldest.value, now)
      ensures oldest.Some? ==> forall e :: e in Contents() && Expired(e, now) ==> oldest.value.createdAt <= e.createdAt
    {
      oldest := None;
      var i := 0;
      while i < len
        invariant 0 <= i <= len
        invariant oldest.None? ==> forall j :: 0 <= j < i ==> !Expired(backing[j], now)
        invariant oldest.Some? ==> oldest.value in backing[..i] && Expired(oldest.value, now)
        invariant oldest.Some? ==>
                    forall j :: 0 <= j < i && Expired(backing[j], now) ==>
                      oldest.value.createdAt <= backing[j].createdAt
      {
        var entry := backing[i];
        if !entry.session.closed && now - entry.createdAt > SESSION_MAX_AGE {
          if oldest.None? || entry.createdAt < oldest.value.createdAt {
            oldest := Some(entry);
          }
        }
        i := i + 1;
        assert backing[..i] == backing[..i - 1] + [entry];
      }
    }

    /** The recycle tick closes at most one session. */
    method RecycleTick(now: int) returns (oldest: Option<Entry>)
      requires Valid()
      modifies set i | 0 <= i < len :: backing[i].session
      ensures Valid() && Contents() == old(Contents())
      ensures oldest.None? ==> forall e :: e in Contents() ==> e.session.closed == old(e.session.closed)
      ensures oldest.Some? ==>
                oldest.value in Contents() && old(Expired(oldest.value, now)) && oldest.value.session.closed
      ensures oldest.Some? ==>
                forall e :: e in Contents() && old(Expired(e, now)) ==> oldest.value.createdAt <= e.createdAt
      ensures forall e :: e in Contents() && oldest != None && e.session != oldest.value.session ==>
                e.session.closed == old(e.session.closed)
    {
      oldest := PickExpired(now);
      if oldest.Some? {
        oldest.value.session.Close();
      }
    }

    /** atomic.AddUint64 and the reduction to an index, after `foreign` draws of other callers. */
    method NextIndex(n: nat, foreign: nat) returns (idx: int)
      requires Valid() && n > 0
      modifies this`sessIdx
      ensures Valid() && idx < n
      ensures old(sessIdx) + foreign + 1 < TWO63 ==>
                sessIdx == old(sessIdx) + foreign + 1 && idx == Slot(old(sessIdx), foreign + 1, n)
    {
      sessIdx := (sessIdx + foreign) % TWO64;
      sessIdx := (sessIdx + 1) % TWO64;
      idx := Index(sessIdx, n);
      if sessIdx < TWO63 {
        IndexInRange(sessIdx, n);
      }
    }

    /** The copy of the list that OpenStream takes under the lock. */
    method Snapshot() returns (pool: array<Entry>)
      requires Valid()
      modifies this`snapshots
      ensures Valid() && fresh(pool) && pool[..] == Contents() && snapshots == old(snapshots) + {pool}
    {
      var n, source := len, backing;
      pool := new Entry[n](i requires 0 <= i < n && n <= source.Length reads source => source[i]);
      snapshots := snapshots + {pool};
    }

    /** What happens to the sessions before one probe. */
    method Elapse(pool: array<Entry>, change: Change)
      modifies (set i | 0 <= i < pool.Length :: pool[i].session)`closed
      modifies (set i | 0 <= i < pool.Length :: pool[i].session)`accepting
      ensures forall i :: 0 <= i < pool.Length ==> Changed(pool[i].session, old(pool[i].session.closed), change)
    {
      forall i | 0 <= i < pool.Length {
        pool[i].session.closed := pool[i].session.closed || pool[i].session in change.died;
      }
      forall i | 0 <= i < pool.Length {
        pool[i].session.accepting := pool[i].session !in change.refusing;
      }
    }

    /** Turn k of the probing loop, behind what others do before it; a negative index panics. */
    method ProbeOnce(pool: array<Entry>, foreign: nat, change: Change, ghost call: Call, ghost k: nat)
        returns (idx: int, ok: bool)
      requires Valid() && pool.Length > 0 && k < |call.changes| && change == call.changes[k]
      requires forall i :: 0 <= i < pool.Length ==> Stands(call, k, pool[i].session)
      modifies this`sessIdx, set i | 0 <= i < pool.Length :: pool[i].session
      ensures Valid() && idx < pool.Length
      ensures old(sessIdx) + foreign + 1 < TWO63 ==>
                sessIdx == old(sessIdx) + foreign + 1 && idx == Slot(old(sessIdx), foreign + 1, pool.Length)
      ensures ok <==> idx >= 0 && UsableAt(call, k + 1, pool[idx].session)
      ensures forall i :: 0 <= i < pool.Length ==> Stands(call, k + 1, pool[i].session)
      ensures var res := if ok then Opened(pool[idx].session) else Exhausted;
              forall i :: 0 <= i < pool.Length ==> Served(pool[i].session, old(pool[i].session.streams), res)
    {
      Elapse(pool, change);
      assert forall i :: 0 <= i < pool.Length ==> Stands(call, k + 1, pool[i].session);
      idx := NextIndex(pool.Length, foreign);
      ok := false;
      if idx >= 0 && !pool[idx].session.closed {
        ok := pool[idx].session.OpenStream();
      }
    }

    /**
     The probing loop of OpenStream over the copy. Right before probe k+1 other callers draw foreign[k] counter
     values, and changes[k] happens to the sessions.
     */
    method Probe(pool: array<Entry>, foreign: seq<nat>, changes: seq<Change>)
        returns (res: OpenResult, ghost attempts: nat)
      requires Valid() && pool.Length > 0 && |foreign| == |changes| == pool.Length
      modifies this`sessIdx, set i | 0 <= i < pool.Length :: pool[i].session
      ensures Valid()
      ensures var call := Call(pool[..], old(Dead(pool[..])), old(sessIdx), foreign, changes);
              && Probed(call, res, attempts, sessIdx)
              && forall i :: 0 <= i < pool.Length ==> Stands(call, attempts, pool[i].session)
      ensures forall i :: 0 <= i < pool.Length ==> Served(pool[i].session, old(pool[i].session.streams), res)
    {
      ghost var call := Call(pool[..], Dead(pool[..]), sessIdx, foreign, changes);
      var tries := 0;
      attempts := 0;
      while tries < pool.Length
        invariant 0 <= tries <= pool.Length && attempts == tries && Valid()
        invariant InProgress(call, tries, sessIdx)
        invariant forall i :: 0 <= i < pool.Length ==> Stands(call, tries, pool[i].session)
        invariant forall i :: 0 <= i < pool.Length ==> pool[i].session.streams == old(pool[i].session.streams)
      {
        ghost var drawn := sessIdx;
        var idx, ok := ProbeOnce(pool, foreign[tries], changes[tries], call, tries);
        ProgressOne(call, tries, drawn, sessIdx, idx, ok);
        tries, attempts := tries + 1, attempts + 1;
        if idx < 0 {
          return IndexPanic, attempts;
        }
        if ok {
          return Opened(pool[idx].session), attempts;
        }
      }
      ProgressEnds(call, sessIdx);
      res := Exhausted;
    }

    /** What other goroutines do to the list between the copy and the probes. */
    method ApplyUpdates(updates: seq<Update>)
      requires Valid()
      modifies this`backing, this`len, backing
      ensures Valid() && (backing == old(backing) || fresh(backing))
      ensures forall p :: p in old(snapshots) ==> p[..] == old(p[..])
      ensures updates == [] ==> backing == old(backing) && len == old(len) && backing[..] == old(backing[..])
    {
      var k := 0;
      while k < |updates|
        invariant 0 <= k <= |updates| && Valid() && (backing == old(backing) || fresh(backing))
        invariant forall p :: p in old(snapshots) ==> p[..] == old(p[..])
        invariant k == 0 ==> backing == old(backing) && len == old(len) && backing[..] == old(backing[..])
      {
        match updates[k] {
          case Adds(s, now) => AddSession(s, now);
          case Removes(s) => RemoveSession(s);
          case Cleans => var _ := CleanupTick();
        }
        k := k + 1;
      }
    }

    /**
     OpenStream, with whatever others do to the list, the counter and the sessions meanwhile. It behaves as on the
     list it copied: the outcome is that of probing this copy, each session as it is at the moment of its probe.
     */
    method OpenStream(updates: seq<Update>, foreign: seq<nat>, changes: seq<Change>)
        returns (res: OpenResult, ghost attempts: nat)
      requires Valid() && |foreign| == |changes| == len
      modifies this`backing, this`len, this`snapshots, this`sessIdx, backing
      modifies set i | 0 <= i < len :: backing[i].session
      ensures Valid() && (backing == old(backing) || fresh(backing))
      ensures updates == [] ==> backing == old(backing) && Contents() == old(Contents())
      ensures res == NoSessions <==> old(Contents()) == []
      ensures var call := Call(old(Contents()), old(Dead(Contents())), old(sessIdx), foreign, changes);
              call.pool != [] ==>
                && Probed(call, res, attempts, sessIdx)
                && (forall i :: 0 <= i < |call.pool| ==> Stands(call, attempts, call.pool[i].session))
      ensures var pool := old(Contents());
              forall i :: 0 <= i < |pool| ==> Served(pool[i].session, old(pool[i].session.streams), res)
    {
      ghost var listed, dead := Contents(), Dead(Contents());
      var pool := Snapshot();
      assert forall i :: 0 <= i < pool.Length ==> pool[i] == listed[i];
      ApplyUpdates(updates);
      assert pool[..] == listed && Dead(listed) == dead;
      if pool.Length == 0 {
        return NoSessions, 0;
      }
      res, attempts := Probe(pool, foreign, changes);
      assert pool[..] == listed;
    }
  }

  datatype Update = Adds(session: Session, now: int) | Removes(session: Session) | Cleans

  /** Some sessions have died; to open a stream on one of `refusing`, or send the target on it, would fail now. */
  datatype Change = Change(died: set<Session>, refusing: set<Session>)

  predicate Changed(s: Session, wasClosed: bool, change: Change)
    reads s
  {
    (s.closed <==> wasClosed || s in change.died) && (s.accepting <==> s !in change.refusing)
  }

  predicate Served(s: Session, streams: nat, res: OpenResult)
    reads s
  {
    s.streams == streams + if res == Opened(s) then 1 else 0
  }

  // ---- one call ----

  /** What a call works on: its copy, which of these sessions are closed by then, the counter, and what others do. */
  datatype Call =
    Call(pool: seq<Entry>, closed: set<Session>, start: nat, foreign: seq<nat>, changes: seq<Change>)
  {
    predicate Valid() {
      |foreign| == |changes| == |pool| > 0
    }
  }

  function DiedBy(changes: seq<Change>, a: nat): set<Session>
    requires a <= |changes|
  {
    if a == 0 then {} else DiedBy(changes, a - 1) + changes[a - 1].died
  }

  /** Whether probe a, were it made on session s, would open a stream. */
  predicate UsableAt(call: Call, a: nat, s: Session)
    requires 1 <= a <= |call.changes|
  {
    s !in call.closed + DiedBy(call.changes, a) && s !in call.changes[a - 1].refusing
  }

  /** The session as own probe a finds it. */
  predicate Stands(call: Call, a: nat, s: Session)
    requires a <= |call.changes|
    reads s
  {
    && (s.closed <==> s in call.closed + DiedBy(call.changes, a))
    && (a > 0 ==> (s.accepting <==> s !in call.changes[a - 1].refusing))
  }

  /** The counter is still below 2^63 at own probe a of a call that starts at u. */
  predicate Below(u: nat, foreign: seq<nat>, a: nat)
    requires a <= |foreign|
  {
    u + a + Before(foreign, a) < TWO63
  }

  /** The session that own probe a falls on. */
  function ProbedAt(call: Call, a: nat): Session
    requires call.Valid() && a <= |call.pool|
  {
    call.pool[OwnSlot(call.start, call.foreign, a, |call.pool|)].session
  }

  /** The first `tries` own probes fall on sessions that do not open a stream at that moment. */
  predicate AllRefuse(call: Call, tries: nat)
    requires call.Valid() && tries <= |call.pool|
  {
    forall a :: 1 <= a <= tries && Below(call.start, call.foreign, a) ==> !UsableAt(call, a, ProbedAt(call, a))
  }

  /** The outcome of a call: own probes in slot order up to the first that opens a stream. */
  predicate Probed(call: Call, res: OpenResult, attempts: nat, idx: nat)
    requires call.Valid()
  {
    && 1 <= attempts <= |call.pool| && res != NoSessions
    && (Below(call.start, call.foreign, attempts) ==>
          res != IndexPanic && idx == call.start + attempts + Before(call.foreign, attempts))
    && (res == Exhausted ==> attempts == |call.pool|)
    && AllRefuse(call, if res.Opened? then attempts - 1 else attempts)
    && (res.Opened? && Below(call.start, call.foreign, attempts) ==>
          res.session == ProbedAt(call, attempts) && UsableAt(call, attempts, res.session))
  }

  /** In the middle of a call: the first `tries` own probes were refused, and the counter stands at idx. */
  predicate InProgress(call: Call, tries: nat, idx: nat)
    requires call.Valid() && tries <= |call.pool|
  {
    && (Below(call.start, call.foreign, tries) ==> idx == call.start + tries + Before(call.foreign, tries))
    && AllRefuse(call, tries)
  }

  lemma NextOwn(u: nat, foreign: seq<nat>, a: nat, n: nat, drawn: nat)
    requires a < |foreign| && n > 0 && Below(u, foreign, a + 1)
    requires Below(u, foreign, a) ==> drawn == u + a + Before(foreign, a)
    ensures Below(u, foreign, a)
    ensures drawn + foreign[a] + 1 == u + (a + 1) + Before(foreign, a + 1)
    ensures Slot(drawn, foreign[a] + 1, n) == OwnSlot(u, foreign, a + 1, n)
  {
  }

  lemma ProgressOne(call: Call, tries: nat, drawn: nat, idx: nat, slot: int, ok: bool)
    requires call.Valid() && tries < |call.pool| && InProgress(call, tries, drawn) && slot < |call.pool|
    requires drawn + call.foreign[tries] + 1 < TWO63 ==>
               idx == drawn + call.foreign[tries] + 1 && slot == Slot(drawn, call.foreign[tries] + 1, |call.pool|)
    requires ok <==> slot >= 0 && UsableAt(call, tries + 1, call.pool[slot].session)
    ensures if slot < 0 then Probed(call, IndexPanic, tries + 1, idx)
            else if ok then Probed(call, Opened(call.pool[slot].session), tries + 1, idx)
            else InProgress(call, tries + 1, idx)
  {
    if Below(call.start, call.foreign, tries + 1) {
      NextOwn(call.start, call.foreign, tries, |call.pool|, drawn);
    }
  }

  lemma ProgressEnds(call: Call, idx: nat)
    requires call.Valid() && InProgress(call, |call.pool|, idx)
    ensures Probed(call, Exhausted, |call.pool|, idx)
  {
  }

  lemma {:induction false} BelowEarlier(u: nat, foreign: seq<nat>, a: nat, b: nat)
    requires a <= b <= |foreign| && Below(u, foreign, b)
    ensures Below(u, foreign, a)
    decreases b
  {
    if a < b {
      BelowEarlier(u, foreign, a, b - 1);
    }
  }

  /**
   While the counter stays below 2^63, a call succeeds if and only if one of its own probes falls on a session that
   opens a stream at that moment.
   */
  lemma OpensExactly(call: Call, res: OpenResult, attempts: nat, idx: nat)
    requires call.Valid() && Below(call.start, call.foreign, |call.pool|) && Probed(call, res, attempts, idx)
    ensures res.Opened? || res == Exhausted
    ensures res.Opened? <==> exists a :: 1 <= a <= |call.pool| && UsableAt(call, a, ProbedAt(call, a))
  {
    BelowEarlier(call.start, call.foreign, attempts, |call.pool|);
    if res == Exhausted {
      forall a | 1 <= a <= |call.pool| ensures !UsableAt(call, a, ProbedAt(call, a)) {
        BelowEarlier(call.start, call.foreign, a, |call.pool|);
      }
    }
  }

  /** Without draws of other callers: if and only if some session opens a stream when its turn comes. */
  lemma AloneFindsAny(call: Call, res: OpenResult, attempts: nat, idx: nat)
    requires call.Valid() && call.foreign == Alone(|call.pool|) && call.start + |call.pool| < TWO63
    requires Probed(call, res, attempts, idx)
    ensures var n := |call.pool|;
            res.Opened? <==>
            exists i :: 0 <= i < n && UsableAt(call, Turn(call.start, n, i), call.pool[i].session)
  {
    var n, u := |call.pool|, call.start;
    BeforeAlone(n, n);
    OpensExactly(call, res, attempts, idx);
    forall a | 1 <= a <= n ensures ProbedAt(call, a) == call.pool[Slot(u, a, n)].session {
      BeforeAlone(n, a);
    }
    if i :| 0 <= i < n && UsableAt(call, Turn(u, n, i), call.pool[i].session) {
      CoversOnce(u, n, i, Turn(u, n, i));
      assert UsableAt(call, Turn(u, n, i), ProbedAt(call, Turn(u, n, i)));
    }
    if a :| 1 <= a <= n && UsableAt(call, a, ProbedAt(call, a)) {
      CoversOnce(u, n, Slot(u, a, n), a);
      assert UsableAt(call, Turn(u, n, Slot(u, a, n)), call.pool[Slot(u, a, n)].session);
    }
  }

  /**
   One draw of another caller amid a call makes it return "all sessions exhausted" although a session accepts all
   the time, whenever that session stands alone at the index the other caller drew.
   */
  lemma OneDrawExhausts(call: Call, j: nat, res: OpenResult, attempts: nat, idx: nat)
    requires call.Valid() && 1 <= j < |call.pool| && call.foreign == OneAmid(|call.pool|, 1, j)
    requires call.start + |call.pool| + 1 < TWO63 && Probed(call, res, attempts, idx)
    requires OthersRefuse(call, Slot(call.start, 1 + j, |call.pool|))
    ensures res == Exhausted
  {
    var n, u := |call.pool|, call.start;
    BeforeAmid(n, 1, j, n);
    OpensExactly(call, res, attempts, idx);
    OneDrawMisses(u, n, 1, j);
    forall a | 1 <= a <= n ensures !UsableAt(call, a, ProbedAt(call, a)) {
      assert !Hits(u, call.foreign, n, Slot(u, 1 + j, n));
    }
  }

  predicate OthersRefuse(call: Call, m: nat)
    requires call.Valid()
  {
    forall i, a :: 0 <= i < |call.pool| && i != m && 1 <= a <= |call.pool| ==> !UsableAt(call, a, call.pool[i].session)
  }

  /** Such a call: the session at that index is open and accepts when the call returns, and did before. */
  method MissAccepting(list: SessionList, j: nat, changes: seq<Change>) returns (res: OpenResult)
    requires list.Valid() && 1 <= j < list.len == |changes| && list.sessIdx + list.len + 1 < TWO63
    requires var call := Call(list.Contents(), Dead(list.Contents()), list.sessIdx, OneAmid(list.len, 1, j), changes);
             var m := Slot(list.sessIdx, 1 + j, list.len);
             OthersRefuse(call, m) && forall a :: 1 <= a <= list.len ==> UsableAt(call, a, list.Contents()[m].session)
    modifies list, list.backing, set i | 0 <= i < list.len :: list.backing[i].session
    ensures res == Exhausted && list.Valid() && list.Contents() == old(list.Contents())
    ensures exists e :: e in list.Contents() && e.session.Usable()
  {
    ghost var foreign := OneAmid(list.len, 1, j);
    ghost var call := Call(list.Contents(), Dead(list.Contents()), list.sessIdx, foreign, changes);
    ghost var m := Slot(list.sessIdx, 1 + j, list.len);
    ghost var attempts;
    res, attempts := list.OpenStream([], OneAmid(list.len, 1, j), changes);
    OneDrawExhausts(call, j, res, attempts, list.sessIdx);
    assert call.pool[m] in list.Contents() && Stands(call, attempts, call.pool[m].session);
    assert UsableAt(call, attempts, call.pool[m].session);
  }

  /** Nothing happens to the sessions during a call; all accept. */
  function Calm(n: nat): (changes: seq<Change>)
    ensures |changes| == n
  {
    seq(n, _ => Change({}, {}))
  }

  lemma {:induction false} CalmKillsNone(n: nat, a: nat)
    requires a <= n
    ensures DiedBy(Calm(n), a) == {}
  {
    if a > 0 {
      CalmKillsNone(n, a - 1);
    }
  }

  /** One call on a pool of distinct sessions that are open and accept opens a stream on the one whose turn it is. */
  method OpenHealthy(list: SessionList)
    requires list.Valid() && list.len > 0 && list.sessIdx + 1 < TWO63 && Distinct(list.Contents())
    requires forall i :: 0 <= i < list.len ==> !list.backing[i].session.closed
    modifies list, list.backing, set i | 0 <= i < list.len :: list.backing[i].session
    ensures list.Valid() && list.backing == old(list.backing) && list.Contents() == old(list.Contents())
    ensures list.sessIdx == old(list.sessIdx) + 1
    ensures forall i :: 0 <= i < list.len ==>
              && !list.backing[i].session.closed
              && list.backing[i].session.streams
                 == old(list.backing[i].session.streams) + if i == Slot(old(list.sessIdx), 1, list.len) then 1 else 0
  {
    ghost var pool, u, n := list.Contents(), list.sessIdx, list.len;
    ghost var call := Call(pool, Dead(pool), u, Alone(n), Calm(n));
    assert call.closed == {};
    ghost var attempts;
    var res;
    res, attempts := list.OpenStream([], Alone(list.len), Calm(list.len));
    HealthyFirst(call, res, attempts, list.sessIdx);
    CalmKillsNone(n, attempts);
    forall i | 0 <= i < n
      ensures list.backing[i] == pool[i] && Stands(call, attempts, pool[i].session)
      ensures res == Opened(pool[i].session) <==> i == Slot(u, 1, n)
    {
      assert list.Contents()[i] == pool[i];
    }
  }

  lemma HealthyFirst(call: Call, res: OpenResult, attempts: nat, idx: nat)
    requires call.Valid() && call.foreign == Alone(|call.pool|)
    requires call.changes == Calm(|call.pool|) && call.closed == {}
    requires call.start + 1 < TWO63 && Probed(call, res, attempts, idx)
    ensures attempts == 1 && idx == call.start + 1
    ensures res == Opened(call.pool[Slot(call.start, 1, |call.pool|)].session)
  {
    var n := |call.pool|;
    BeforeAlone(n, 1);
    CalmKillsNone(n, 1);
    assert Below(call.start, call.foreign, 1) && UsableAt(call, 1, ProbedAt(call, 1));
  }

  /**
   m calls in a row on a pool of distinct sessions that are open and accept, below the 2^63 limit: each session
   serves between m/n and m/n rounded up of the streams.
   */
  method OpenMany(list: SessionList, m: nat)
    requires list.Valid() && list.len > 0 && list.sessIdx + m < TWO63 && Distinct(list.Contents())
    requires forall i :: 0 <= i < list.len ==> !list.backing[i].session.closed
    modifies list, list.backing, set i | 0 <= i < list.len :: list.backing[i].session
    ensures list.Valid() && list.Contents() == old(list.Contents()) && list.sessIdx == old(list.sessIdx) + m
    ensures var pool := old(list.Contents());
            forall i :: 0 <= i < |pool| ==>
              m / |pool| <= pool[i].session.streams - old(pool[i].session.streams) <= (m + |pool| - 1) / |pool|
  {
    ghost var pool, u := list.Contents(), list.sessIdx;
    var n, k := list.len, 0;
    while k < m
      invariant k <= m && list.Valid() && list.backing == old(list.backing) && list.Contents() == pool
      invariant list.sessIdx == u + k
      invariant forall i :: 0 <= i < n ==> pool[i] == list.backing[i] && !pool[i].session.closed
      invariant forall i :: 0 <= i < n ==> pool[i].session.streams == old(pool[i].session.streams) + Chosen(u, k, n, i)
    {
      OpenHealthy(list);
      assert Slot(u + k, 1, n) == Slot(u, k + 1, n);
      k := k + 1;
    }
    forall i | 0 <= i < n ensures m / n <= Chosen(u, m, n, i) <= (m + n - 1) / n {
      Balanced(u, m, n, i);
    }
  }
}
