/** The round-robin index of Client.OpenStream: a 64-bit counter, converted to int and reduced modulo the pool size. */
module RoundRobin {
  const TWO63 := 0x8000_0000_0000_0000
  const TWO64 := 0x1_0000_0000_0000_0000

  /** int(u): a counter above 2^63 becomes negative. */
  function ToInt(u: nat): int
    requires u < TWO64
  {
    if u < TWO63 then u else u - TWO64
  }

  /** Go's %: the result has the sign of the dividend. */
  function GoMod(x: int, n: nat): (r: int)
    requires n > 0
    ensures -(n as int) < r < n
  {
    if x >= 0 then x % n else -((-x) % n)
  }

  /** The index of the probe made at counter value u; negative means the slice access panics. */
  function Index(u: nat, n: nat): int
    requires u < TWO64 && n > 0
  {
    GoMod(ToInt(u), n)
  }

  // ---- division by a variable pool size ----

  lemma Gap(n: nat, q: int, p: int)
    requires q > p
    ensures q * n >= p * n + n
  {
    assert q * n == p * n + (q - p) * n;
    assert (q - p - 1) * n >= 0;
  }

  lemma DivUnique(x: nat, n: nat, q: nat, r: nat)
    requires n > 0 && r < n && x == q * n + r
    ensures x / n == q && x % n == r
  {
    if q > x / n {
      Gap(n, q, x / n);
    }
    if x / n > q {
      Gap(n, x / n, q);
    }
  }

  /** The index of the a-th probe of a call that starts at counter value u, below the 2^63 limit. */
  function Slot(u: nat, a: nat, n: nat): (i: nat)
    requires n > 0
    ensures i < n
  {
    (u + a) % n
  }

  /** Within one cycle the index walks up from u % n and wraps once. */
  lemma CycleIndex(u: nat, a: nat, n: nat)
    requires n > 0 && a <= n
    ensures Slot(u, a, n) == if u % n + a < n then u % n + a else u % n + a - n
  {
    var q, r := u / n, u % n;
    assert u == q * n + r;
    if r + a < n {
      DivUnique(u + a, n, q, r + a);
    } else {
      NextMultiple(q, n);
      DivUnique(u + a, n, q + 1, r + a - n);
    }
  }

  lemma NextMultiple(q: nat, n: nat)
    ensures (q + 1) * n == q * n + n
  {
  }

  /** Which of the probes u+1 .. u+n hits index i. */
  function Turn(u: nat, n: nat, i: nat): (a: nat)
    requires i < n
    ensures 1 <= a <= n
  {
    if i > u % n then i - u % n else i - u % n + n
  }

  /** n consecutive probes hit every index exactly once. */
  lemma CoversOnce(u: nat, n: nat, i: nat, a: nat)
    requires i < n && 1 <= a <= n
    ensures Slot(u, a, n) == i <==> a == Turn(u, n, i)
  {
    CycleIndex(u, a, n);
  }

  // ---- balance ----

  /** How often index i is chosen by the m probes after counter value u. */
  function Chosen(u: nat, m: nat, n: nat, i: nat): nat
    requires n > 0
  {
    if m == 0 then 0 else Chosen(u, m - 1, n, i) + if Slot(u, m, n) == i then 1 else 0
  }

  lemma {:induction false} ChosenInCycle(u: nat, m: nat, n: nat, i: nat)
    requires i < n && m <= n
    ensures Chosen(u, m, n, i) == if Turn(u, n, i) <= m then 1 else 0
  {
    if m > 0 {
      ChosenInCycle(u, m - 1, n, i);
      CoversOnce(u, n, i, m);
    }
  }

  lemma {:induction false} ChosenSplit(u: nat, a: nat, b: nat, n: nat, i: nat)
    requires n > 0
    ensures Chosen(u, a + b, n, i) == Chosen(u, a, n, i) + Chosen(u + a, b, n, i)
  {
    if b > 0 {
      ChosenSplit(u, a, b - 1, n, i);
      assert u + (a + b) == u + a + b;
    }
  }

  /** Over any m successful calls on a fixed healthy pool, every session is chosen floor(m/n) or ceil(m/n) times. */
  lemma {:induction false} Balanced(u: nat, m: nat, n: nat, i: nat)
    requires i < n
    ensures m / n <= Chosen(u, m, n, i) <= (m + n - 1) / n
    decreases m
  {
    if m < n {
      ChosenInCycle(u, m, n, i);
      DivUnique(m, n, 0, m);
      if m > 0 {
        DivUnique(m + n - 1, n, 1, m - 1);
      } else {
        DivUnique(n - 1, n, 0, n - 1);
      }
    } else {
      Balanced(u + n, m - n, n, i);
      ChosenSplit(u, n, m - n, n, i);
      ChosenInCycle(u, n, n, i);
      OneMoreCycle(m - n, n);
      OneMoreCycle(m - n + n - 1, n);
    }
  }

  lemma OneMoreCycle(x: nat, n: nat)
    requires n > 0
    ensures (x + n) / n == x / n + 1 && (x + n) % n == x % n
  {
    assert x == x / n * n + x % n;
    NextMultiple(x / n, n);
    DivUnique(x + n, n, x / n + 1, x % n);
  }

  // ---- the limits of the claim ----

  /** Below 2^63 the index is always in range. */
  lemma IndexInRange(u: nat, n: nat)
    requires u < 0x8000_0000_0000_0000 && n > 0
    ensures Index(u, n) == Slot(u, 0, n) == u % n
  {
  }

  /** A pool can meet a counter value that panics if and only if it holds at least two sessions. */
  lemma CounterPanics(n: nat)
    requires n > 0
    ensures (exists u :: 0 <= u < TWO64 && Index(u, n) < 0) <==> n >= 2
  {
    if n >= 2 {
      DivUnique(1, n, 0, 1);
      assert Index(TWO64 - 1, n) == -1;
    }
  }

  /** The values that panic: those from 2^63 on, unless what is missing to 2^64 is a multiple of the pool size. */
  lemma PanicsExactly(u: nat, n: nat)
    requires u < TWO64 && n > 0
    ensures Index(u, n) < 0 <==> u >= 0x8000_0000_0000_0000 && (0x1_0000_0000_0000_0000 - u) % n != 0
  {
  }

  // ---- other callers ----

  /** Draws of other callers before own probe a, when foreign[k] of them fall right before own probe k+1. */
  function Before(foreign: seq<nat>, a: nat): nat
    requires a <= |foreign|
  {
    if a == 0 then 0 else Before(foreign, a - 1) + foreign[a - 1]
  }

  function Total(foreign: seq<nat>): nat {
    Before(foreign, |foreign|)
  }

  /** The index of own probe a of a call that starts at counter value u. */
  function OwnSlot(u: nat, foreign: seq<nat>, a: nat, n: nat): (i: nat)
    requires a <= |foreign| && n > 0
    ensures i < n
  {
    Slot(u, a + Before(foreign, a), n)
  }

  ghost predicate Hits(u: nat, foreign: seq<nat>, n: nat, i: nat)
    requires |foreign| == n && n > 0
  {
    exists a :: 1 <= a <= n && OwnSlot(u, foreign, a, n) == i
  }

  /** The n own probes of one call reach all n sessions. */
  ghost predicate CoversPool(u: nat, foreign: seq<nat>, n: nat)
    requires |foreign| == n && n > 0
  {
    forall i :: 0 <= i < n ==> Hits(u, foreign, n, i)
  }

  /** All but one of g foreign draws come before the call's first probe, one right behind its probe j. */
  function OneAmid(n: nat, g: nat, j: nat): (foreign: seq<nat>)
    requires 1 <= j < n && g > 0
    ensures |foreign| == n
  {
    seq(n, k => if k == 0 then g - 1 else if k == j then 1 else 0)
  }

  lemma {:induction false} BeforeAmid(n: nat, g: nat, j: nat, a: nat)
    requires 1 <= j < n && g > 0 && 1 <= a <= n
    ensures Before(OneAmid(n, g, j), a) == if a <= j then g - 1 else g
  {
    if a > 1 {
      BeforeAmid(n, g, j, a - 1);
    } else {
      assert Before(OneAmid(n, g, j), 0) == 0;
    }
  }

  /** No draws of other callers. */
  function Alone(n: nat): (foreign: seq<nat>)
    ensures |foreign| == n
  {
    seq(n, _ => 0)
  }

  lemma {:induction false} BeforeAlone(n: nat, a: nat)
    requires a <= n
    ensures Before(Alone(n), a) == 0
  {
    if a > 0 {
      BeforeAlone(n, a - 1);
    }
  }

  lemma {:induction false} BeforeNone(foreign: seq<nat>, a: nat)
    requires a <= |foreign| && Total(foreign) == 0
    ensures Before(foreign, a) == 0
    decreases |foreign| - a
  {
    if a < |foreign| {
      BeforeNone(foreign, a + 1);
    }
  }

  /** One foreign draw amid a call, behind any own probe j but the last, makes all own probes miss the slot it took. */
  lemma OneDrawMisses(u: nat, n: nat, g: nat, j: nat)
    requires 1 <= j < n && g > 0
    ensures !Hits(u, OneAmid(n, g, j), n, Slot(u, g + j, n))
  {
    var start, i := u + (g - 1), Slot(u, g + j, n);
    assert u + (g + j) == start + (j + 1);
    CoversOnce(start, n, i, j + 1);
    forall a | 1 <= a <= n ensures OwnSlot(u, OneAmid(n, g, j), a, n) != i {
      BeforeAmid(n, g, j, a);
      if a <= j {
        assert u + (a + (g - 1)) == start + a;
        CoversOnce(start, n, i, a);
      } else {
        assert u + (a + g) == start + (a + 1);
        if a < n {
          CoversOnce(start, n, i, a + 1);
        } else {
          OneMoreCycle(start + 1, n);
          CoversOnce(start, n, i, 1);
        }
      }
    }
  }

  /**
   When a call is sure to probe the whole pool: however the g draws of other callers fall, its n probes reach all
   n sessions if and only if there are no such draws or there is only one session.
   */
  lemma CoversPoolIff(u: nat, n: nat, g: nat)
    requires n > 0
    ensures (forall foreign: seq<nat> :: |foreign| == n && Total(foreign) == g ==> CoversPool(u, foreign, n))
       <==> g == 0 || n == 1
  {
    if g > 0 && n > 1 {
      var foreign := OneAmid(n, g, 1);
      BeforeAmid(n, g, 1, n);
      OneDrawMisses(u, n, g, 1);
      assert |foreign| == n && Total(foreign) == g && !CoversPool(u, foreign, n);
    } else {
      forall foreign: seq<nat> | |foreign| == n && Total(foreign) == g ensures CoversPool(u, foreign, n) {
        forall i | 0 <= i < n ensures Hits(u, foreign, n, i) {
          var a := Turn(u, n, i);
          CoversOnce(u, n, i, a);
          if g == 0 {
            BeforeNone(foreign, a);
          } else {
            assert OwnSlot(u, foreign, 1, n) == 0;
          }
          assert OwnSlot(u, foreign, a, n) == i;
        }
      }
    }
  }
}
