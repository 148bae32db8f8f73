/** The client's session list as a value: what addSession, removeSession and the cleanup tick do to it. */
module SessionPool {
  import opened Bytes

  datatype Pooled<S> = Pooled(session: S, createdAt: int)

  /** removeSession: the first entry of that session goes, the order of the others stays. */
  function Remove<S(==)>(pool: seq<Pooled<S>>, s: S): seq<Pooled<S>> {
    if pool == [] then []
    else if pool[0].session == s then pool[1..]
    else [pool[0]] + Remove(pool[1..], s)
  }

  /** The cleanup tick: entries of sessions found closed go, the order of the others stays. */
  function KeepOpen<S(==)>(pool: seq<Pooled<S>>, dead: set<S>): seq<Pooled<S>> {
    if pool == [] then []
    else
      var front, last := pool[..|pool| - 1], pool[|pool| - 1];
      KeepOpen(front, dead) + if last.session in dead then [] else [last]
  }

  ghost predicate Distinct<S>(pool: seq<Pooled<S>>) {
    forall i, j :: 0 <= i < j < |pool| ==> pool[i].session != pool[j].session
  }

  ghost predicate Holds<S>(pool: seq<Pooled<S>>, s: S) {
    exists i :: 0 <= i < |pool| && pool[i].session == s
  }

  lemma {:induction false} RemoveKeeps<S>(pool: seq<Pooled<S>>, s: S)
    requires Distinct(pool)
    ensures Distinct(Remove(pool, s)) && !Holds(Remove(pool, s), s)
    ensures forall x :: x in Remove(pool, s) <==> x in pool && x.session != s
  {
    if pool != [] {
      var rest := pool[1..];
      assert pool == [pool[0]] + rest;
      RemoveKeeps(rest, s);
      forall x | x in rest ensures x.session != pool[0].session {
      }
    }
  }

  lemma {:induction false} KeepOpenKeeps<S>(pool: seq<Pooled<S>>, dead: set<S>)
    ensures forall x :: x in KeepOpen(pool, dead) <==> x in pool && x.session !in dead
    ensures |KeepOpen(pool, dead)| <= |pool|
    ensures Distinct(pool) ==> Distinct(KeepOpen(pool, dead))
  {
    if pool != [] {
      var front, last := pool[..|pool| - 1], pool[|pool| - 1];
      assert pool == front + [last];
      KeepOpenKeeps(front, dead);
      if Distinct(pool) {
        forall x | x in front ensures x.session != last.session {
        }
      }
    }
  }

  lemma HoldsIn<S>(pool: seq<Pooled<S>>, s: S)
    ensures Holds(pool, s) <==> exists x :: x in pool && x.session == s
  {
  }

  ghost function Sessions<S>(pool: seq<Pooled<S>>): set<S> {
    set i | 0 <= i < |pool| :: pool[i].session
  }

  lemma {:induction false} DistinctCount<S>(pool: seq<Pooled<S>>)
    requires Distinct(pool)
    ensures |Sessions(pool)| == |pool|
  {
    if pool != [] {
      var front, last := pool[..|pool| - 1], pool[|pool| - 1];
      DistinctCount(front);
      assert Sessions(pool) == Sessions(front) + {last.session};
      assert last.session !in Sessions(front);
    }
  }
}
