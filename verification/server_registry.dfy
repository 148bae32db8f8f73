/**
 The server's session registry with concurrent upgrades. setSession changes the maps under the lock and adjusts
 the ActiveSessions counter only afterwards, so calls in flight carry deltas that are still to be applied.
 */
module ServerRegistry {
  import opened Bytes

  type Key = string
  type Sid = nat

  /** Where a setSession call stands after its locked part. */
  datatype Setting =
    | Counting(sess: Sid, replaced: Option<Sid>) // about to add 1
    | Uncounting(old_: Sid)                      // about to subtract 1 for the session it replaced
    | ClosingOld(old_: Sid)
    | Finished

  datatype State = State(
    sessions: map<Key, Sid>, created: map<Key, int>, counter: int, closed: set<Sid>,
    setting: seq<Setting>,
    registered: set<Sid>,                          // every session ever passed to setSession
    counted: multiset<Sid>, uncounted: multiset<Sid>) // for which sessions 1 was added or subtracted

  datatype Event =
    | Register(key: Key, sess: Sid, now: int)  // setSession, locked part
    | CountNew(i: nat) | CountOld(i: nat) | CloseOld(i: nat)
    | Clear(key: Key, sess: Sid)               // clearSession
    | CleanupKey(key: Key, zombie: bool)       // one entry of a cleanup tick
    | Die(sess: Sid)

  const EMPTY := State(map[], map[], 0, {}, [], {}, multiset{}, multiset{})

  predicate Enabled(s: State, e: Event) {
    match e
    case Register(_, sess, _) => sess !in s.registered // each upgrade makes its own session
    case CountNew(i) => i < |s.setting| && s.setting[i].Counting?
    case CountOld(i) => i < |s.setting| && s.setting[i].Uncounting?
    case CloseOld(i) => i < |s.setting| && s.setting[i].ClosingOld?
    case Clear(_, _) => true
    case CleanupKey(key, zombie) => key in s.sessions && (zombie || s.sessions[key] in s.closed)
    case Die(_) => true
  }

  function Lookup(m: map<Key, Sid>, key: Key): Option<Sid> {
    if key in m then Some(m[key]) else None
  }

  function Unregister(s: State, key: Key): State
    requires key in s.sessions
  {
    s.(sessions := s.sessions - {key}, created := s.created - {key},
       counter := s.counter - 1, uncounted := s.uncounted + multiset{s.sessions[key]})
  }

  function Step(s: State, e: Event): State
    requires Enabled(s, e)
  {
    match e
    case Register(key, sess, now) =>
      s.(sessions := s.sessions[key := sess], created := s.created[key := now], registered := s.registered + {sess},
         setting := s.setting + [Counting(sess, Lookup(s.sessions, key))])
    case CountNew(i) =>
      var call := s.setting[i];
      s.(counter := s.counter + 1, counted := s.counted + multiset{call.sess},
         setting := s.setting[i := if call.replaced.Some? then Uncounting(call.replaced.value) else Finished])
    case CountOld(i) =>
      var old_ := s.setting[i].old_;
      s.(counter := s.counter - 1, uncounted := s.uncounted + multiset{old_},
         setting := s.setting[i := ClosingOld(old_)])
    case CloseOld(i) => s.(closed := s.closed + {s.setting[i].old_}, setting := s.setting[i := Finished])
    case Clear(key, sess) => if Lookup(s.sessions, key) == Some(sess) then Unregister(s, key) else s
    case CleanupKey(key, zombie) => Unregister(s, key).(closed := s.closed + {s.sessions[key]})
    case Die(sess) => s.(closed := s.closed + {sess})
  }

  ghost predicate IsRun(states: seq<State>, events: seq<Event>) {
    && |states| == |events| + 1 && states[0] == EMPTY
    && (forall i :: 0 <= i < |events| ==> Enabled(states[i], events[i]) && states[i + 1] == Step(states[i], events[i]))
  }

  // ---- pending deltas ----

  function ToCount(c: Setting): multiset<Sid> {
    if c.Counting? then multiset{c.sess} else multiset{}
  }

  function ToUncount(c: Setting): multiset<Sid> {
    if c.Counting? && c.replaced.Some? then multiset{c.replaced.value}
    else if c.Uncounting? then multiset{c.old_}
    else multiset{}
  }

  function All(pending: Setting -> multiset<Sid>, calls: seq<Setting>): multiset<Sid> {
    if calls == [] then multiset{} else All(pending, calls[..|calls| - 1]) + pending(calls[|calls| - 1])
  }

  function AllToCount(calls: seq<Setting>): multiset<Sid> {
    All(ToCount, calls)
  }

  function AllToUncount(calls: seq<Setting>): multiset<Sid> {
    All(ToUncount, calls)
  }

  lemma SumsMove(a: multiset<Sid>, b: multiset<Sid>, x: multiset<Sid>, y: multiset<Sid>, last: multiset<Sid>)
    requires a + x == b + y
    ensures a + last + x == b + last + y
  {
    assert a + last + x == a + x + last;
    assert b + last + y == b + y + last;
  }

  lemma {:induction false} CallMoves(pending: Setting -> multiset<Sid>, calls: seq<Setting>, i: nat, next: Setting)
    requires i < |calls|
    ensures All(pending, calls[i := next]) + pending(calls[i]) == All(pending, calls) + pending(next)
  {
    var n := |calls| - 1;
    var front, moved := calls[..n], calls[i := next];
    if i == n {
      assert moved[..n] == front;
    } else {
      CallMoves(pending, front, i, next);
      assert moved[..n] == front[i := next] && moved[n] == calls[n];
      SumsMove(All(pending, moved[..n]), All(pending, front), pending(calls[i]), pending(next), pending(calls[n]));
    }
  }

  lemma CallStarts(pending: Setting -> multiset<Sid>, calls: seq<Setting>, call: Setting)
    ensures All(pending, calls + [call]) == All(pending, calls) + pending(call)
  {
    assert (calls + [call])[..|calls|] == calls;
  }

  // ---- the invariant ----

  ghost predicate Injective(m: map<Key, Sid>) {
    forall k, l :: k in m && l in m && m[k] == m[l] ==> k == l
  }

  /** Each session is counted once, and un-counted once it is no longer registered; what is not done yet is pending. */
  ghost predicate Ledger(s: State) {
    && s.counted + AllToCount(s.setting) == multiset(s.registered)
    && s.uncounted + AllToUncount(s.setting) == multiset(s.registered - s.sessions.Values)
    && s.counter == |s.counted| - |s.uncounted|
  }

  ghost predicate Inv(s: State) {
    && s.sessions.Keys == s.created.Keys
    && Injective(s.sessions) && s.sessions.Values <= s.registered
    && Ledger(s)
  }

  lemma UnregisterPreserves(s: State, key: Key)
    requires Inv(s) && key in s.sessions
    ensures Inv(Unregister(s, key))
  {
    var t, x := Unregister(s, key), s.sessions[key];
    assert t.sessions.Values == s.sessions.Values - {x} by {
      forall y | y in s.sessions.Values && y != x ensures y in t.sessions.Values {
        var k :| k in s.sessions && s.sessions[k] == y;
        assert k in t.sessions && t.sessions[k] == y;
      }
    }
    assert s.registered - t.sessions.Values == (s.registered - s.sessions.Values) + {x};
    assert multiset(s.registered - t.sessions.Values) == multiset(s.registered - s.sessions.Values) + multiset{x};
  }

  lemma ReplacedValues(m: map<Key, Sid>, key: Key, sess: Sid)
    requires Injective(m) && sess !in m.Values
    ensures var left: set<Sid> := if key in m then {m[key]} else {};
            m[key := sess].Values == m.Values - left + {sess} && Injective(m[key := sess])
  {
    var n := m[key := sess];
    assert key in n && n[key] == sess;
    forall y | y in m.Values && (key in m ==> y != m[key]) ensures y in n.Values {
      var k :| k in m && m[k] == y;
      assert k in n && n[k] == y;
    }
  }

  lemma RegisterUncounts(s: State, key: Key, sess: Sid)
    requires Inv(s) && sess !in s.registered
    ensures multiset(s.registered + {sess} - s.sessions[key := sess].Values)
         == multiset(s.registered - s.sessions.Values) + ToUncount(Counting(sess, Lookup(s.sessions, key)))
    ensures multiset(s.registered + {sess}) == multiset(s.registered) + multiset{sess}
    ensures s.sessions[key := sess].Values <= s.registered + {sess} && Injective(s.sessions[key := sess])
  {
    ReplacedValues(s.sessions, key, sess);
    var left: set<Sid> := if key in s.sessions then {s.sessions[key]} else {};
    var before := s.registered - s.sessions.Values;
    assert s.registered + {sess} - s.sessions[key := sess].Values == before + left;
    assert multiset(before + left) == multiset(before) + multiset(left);
  }

  lemma RegisterPreserves(s: State, key: Key, sess: Sid, now: int)
    requires Inv(s) && Enabled(s, Register(key, sess, now))
    ensures Inv(Step(s, Register(key, sess, now)))
  {
    var call := Counting(sess, Lookup(s.sessions, key));
    CallStarts(ToCount, s.setting, call);
    CallStarts(ToUncount, s.setting, call);
    RegisterUncounts(s, key, sess);
    var t := Step(s, Register(key, sess, now));
    LedgerGrows(s.counted, AllToCount(s.setting), AllToCount(t.setting), ToCount(call),
                multiset(s.registered), multiset(t.registered));
    LedgerGrows(s.uncounted, AllToUncount(s.setting), AllToUncount(t.setting), ToUncount(call),
                multiset(s.registered - s.sessions.Values), multiset(t.registered - t.sessions.Values));
  }

  /** What is pending more is owed more. */
  lemma LedgerGrows(done: multiset<Sid>, pending: multiset<Sid>, pending_: multiset<Sid>, more: multiset<Sid>,
                    all: multiset<Sid>, all_: multiset<Sid>)
    requires done + pending == all && pending_ == pending + more && all_ == all + more
    ensures done + pending_ == all_
  {
  }

  lemma CallPreserves(s: State, i: nat, next: Setting, t: State)
    requires Inv(s) && i < |s.setting|
    requires t.setting == s.setting[i := next]
    requires t.sessions == s.sessions && t.created == s.created && t.registered == s.registered
    requires t.counted + ToCount(next) == s.counted + ToCount(s.setting[i])
    requires t.uncounted + ToUncount(next) == s.uncounted + ToUncount(s.setting[i])
    requires t.counter == |t.counted| - |t.uncounted|
    ensures Inv(t)
  {
    var call := s.setting[i];
    CallMoves(ToCount, s.setting, i, next);
    CallMoves(ToUncount, s.setting, i, next);
    LedgerMoves(s.counted, AllToCount(s.setting), t.counted, AllToCount(t.setting), ToCount(call), ToCount(next));
    LedgerMoves(s.uncounted, AllToUncount(s.setting), t.uncounted, AllToUncount(t.setting),
                ToUncount(call), ToUncount(next));
  }

  lemma CountNewPreserves(s: State, i: nat)
    requires Inv(s) && Enabled(s, CountNew(i))
    ensures Inv(Step(s, CountNew(i)))
  {
    var call, t := s.setting[i], Step(s, CountNew(i));
    var next := if call.replaced.Some? then Uncounting(call.replaced.value) else Finished;
    assert ToCount(next) == multiset{} && ToCount(call) == multiset{call.sess};
    assert ToUncount(next) == ToUncount(call);
    CallPreserves(s, i, next, t);
  }

  lemma CountOldPreserves(s: State, i: nat)
    requires Inv(s) && Enabled(s, CountOld(i))
    ensures Inv(Step(s, CountOld(i)))
  {
    var call, t := s.setting[i], Step(s, CountOld(i));
    var next := ClosingOld(call.old_);
    assert ToUncount(next) == multiset{} && ToUncount(call) == multiset{call.old_};
    assert ToCount(next) == ToCount(call) == multiset{};
    CallPreserves(s, i, next, t);
  }

  lemma CloseOldPreserves(s: State, i: nat)
    requires Inv(s) && Enabled(s, CloseOld(i))
    ensures Inv(Step(s, CloseOld(i)))
  {
    assert ToCount(s.setting[i]) == ToUncount(s.setting[i]) == multiset{} == ToCount(Finished) == ToUncount(Finished);
    CallPreserves(s, i, Finished, Step(s, CloseOld(i)));
  }

  /** What leaves the pending side enters the done side. */
  lemma LedgerMoves(done: multiset<Sid>, pending: multiset<Sid>, done_: multiset<Sid>, pending_: multiset<Sid>,
                    before: multiset<Sid>, after: multiset<Sid>)
    requires pending_ + before == pending + after
    requires done_ + after == done + before
    ensures done_ + pending_ == done + pending
  {
    forall x ensures (done_ + pending_)[x] == (done + pending)[x] {
      assert (pending_ + before)[x] == (pending + after)[x];
      assert (done_ + after)[x] == (done + before)[x];
    }
  }

  lemma StepPreserves(s: State, e: Event)
    requires Inv(s) && Enabled(s, e)
    ensures Inv(Step(s, e))
  {
    match e
    case Register(key, sess, now) => RegisterPreserves(s, key, sess, now);
    case Clear(key, sess) => if key in s.sessions { UnregisterPreserves(s, key); }
    case CleanupKey(key, _) => UnregisterPreserves(s, key);
    case Die(_) =>
    case CountNew(i) => CountNewPreserves(s, i);
    case CountOld(i) => CountOldPreserves(s, i);
    case CloseOld(i) => CloseOldPreserves(s, i);
  }

  lemma {:induction false} RunInv(states: seq<State>, events: seq<Event>, i: nat)
    requires IsRun(states, events) && i < |states|
    ensures Inv(states[i])
  {
    if i > 0 {
      RunInv(states, events, i - 1);
      StepPreserves(states[i - 1], events[i - 1]);
    }
  }

  /**
   A registration goes only by its own session's clear, or by a cleanup that found it closed or called it a zombie;
   so a late clear of a replaced session leaves the newer one alone. Replacing keeps the key.
   */
  lemma OnlyOwnGoes(s: State, e: Event, key: Key)
    requires Enabled(s, e) && key in s.sessions
    requires key !in Step(s, e).sessions || Step(s, e).sessions[key] != s.sessions[key]
    ensures match e
            case Clear(k, sess) => k == key && sess == s.sessions[key]
            case CleanupKey(k, zombie) => k == key && (zombie || s.sessions[key] in s.closed)
            case Register(k, sess, _) => k == key && Step(s, e).sessions[key] == sess
            case _ => false
    ensures e.CleanupKey? ==> s.sessions[key] in Step(s, e).closed
  {
  }

  /** Every setSession call that replaces a session counts the new one, un-counts the old one and then closes it. */
  lemma ReplacingRunsOn(s: State, i: nat, x: Sid)
    requires i < |s.setting| && s.setting[i].Counting? && s.setting[i].replaced == Some(x)
    ensures var t := Step(s, CountNew(i));
            var u := Step(t, CountOld(i));
            var v := Step(u, CloseOld(i));
            && t.counter == s.counter + 1 && u.counter == v.counter == s.counter
            && x in v.closed && v.setting[i].Finished? && v.sessions == s.sessions
  {
  }

  lemma {:induction false} ValuesCount(m: map<Key, Sid>)
    requires Injective(m)
    ensures |m.Values| == |m|
    decreases |m|
  {
    if m != map[] {
      var k :| k in m;
      var rest := m - {k};
      ValuesCount(rest);
      assert m.Values == rest.Values + {m[k]} by {
        forall y | y in m.Values && y != m[k] ensures y in rest.Values {
          var l :| l in m && m[l] == y;
          assert l in rest && rest[l] == y;
        }
      }
      assert m.Keys == rest.Keys + {k};
    }
  }

  function Pending(s: State): int {
    |AllToCount(s.setting)| - |AllToUncount(s.setting)|
  }

  /**
   In every interleaving of upgrades, replacements, clears and cleanup ticks: both maps have the same keys, and
   ActiveSessions plus the deltas still pending in setSession calls is the number of registered sessions.
   */
  lemma CounterConserved(states: seq<State>, events: seq<Event>, i: nat)
    requires IsRun(states, events) && i < |states|
    ensures states[i].sessions.Keys == states[i].created.Keys
    ensures states[i].counter + Pending(states[i]) == |states[i].sessions|
  {
    RunInv(states, events, i);
    var s := states[i];
    ValuesCount(s.sessions);
    assert |multiset(s.registered)| == |s.registered|;
    assert |multiset(s.registered - s.sessions.Values)| == |s.registered - s.sessions.Values|;
    assert |s.registered - s.sessions.Values| == |s.registered| - |s.sessions.Values|;
  }

  /** Every session is counted at most once and un-counted at most once, and never while it is registered. */
  lemma CountedOnce(states: seq<State>, events: seq<Event>, i: nat, x: Sid)
    requires IsRun(states, events) && i < |states|
    ensures states[i].counted[x] <= 1 && states[i].uncounted[x] <= 1
    ensures x in states[i].sessions.Values ==> states[i].uncounted[x] == 0
    ensures (forall c :: c in states[i].setting ==> c.Finished?) && x in states[i].registered ==>
              states[i].counted[x] == 1 && states[i].uncounted[x] == if x in states[i].sessions.Values then 0 else 1
  {
    RunInv(states, events, i);
    var s := states[i];
    assert (s.counted + AllToCount(s.setting))[x] <= 1;
    assert (s.uncounted + AllToUncount(s.setting))[x] <= 1;
    if forall c :: c in s.setting ==> c.Finished? {
      AllFinished(s.setting);
    }
  }

  lemma {:induction false} AllFinished(calls: seq<Setting>)
    requires forall c :: c in calls ==> c.Finished?
    ensures AllToCount(calls) == multiset{} && AllToUncount(calls) == multiset{}
  {
    if calls != [] {
      assert calls[|calls| - 1] in calls;
      AllFinished(calls[..|calls| - 1]);
    }
  }

  /** Between the map update and the counter update the counter can even be negative: a session dies that early. */
  lemma CounterCanBeNegative(key: Key)
    ensures exists states: seq<State>, events :: IsRun(states, events) && states[|events|].counter == -1
  {
    var e1, e2, e3 := Register(key, 0, 0), Die(0), CleanupKey(key, false);
    var s1 := Step(EMPTY, e1);
    var s2 := Step(s1, e2);
    var s3 := Step(s2, e3);
    var states, events := [EMPTY, s1, s2, s3], [e1, e2, e3];
    assert IsRun(states, events);
    assert states[|events|].counter == -1;
  }

  /** With no setSession call in flight the counter is exact. */
  lemma QuietCounterExact(states: seq<State>, events: seq<Event>, i: nat)
    requires IsRun(states, events) && i < |states|
    requires forall c :: c in states[i].setting ==> c.Finished?
    ensures states[i].counter == |states[i].sessions|
  {
    CounterConserved(states, events, i);
    AllFinished(states[i].setting);
  }
}
