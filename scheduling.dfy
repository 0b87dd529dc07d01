/**
 * The bookkeeping of `evaluate_fitness` and `solvers_required`
 * (`GAProtection.cpp`): which members of a pool need a remote solver, the
 * per-slot status, polling delay and countdown of the scheduling loop, and
 * the polling back-off.
 */
module Scheduling {
  import opened Common
  import opened Evaluations

  // ---------------------------------------------------------------------
  // Polling back-off (`increase_polling_delay`)
  // ---------------------------------------------------------------------

  /** The largest polling delay, in sleep quanta. */
  const MaxDelay: int := 128

  /** `increase_polling_delay`: 0 becomes 1, 128 stays, anything else doubles. */
  function NextDelay(d: int): (r: int)
    ensures d == 0 ==> r == 1
    ensures d == MaxDelay ==> r == MaxDelay
    ensures d != 0 && d != MaxDelay ==> r == 2 * d
  {
    if d == 0 then 1 else if d == MaxDelay then d else 2 * d
  }

  function Pow2(k: nat): (r: nat)
    ensures r >= 1
  {
    if k == 0 then 1 else 2 * Pow2(k - 1)
  }

  /** The delay after k raises starting from 0. */
  function DelayAfter(k: nat): int
  {
    if k == 0 then 0 else NextDelay(DelayAfter(k - 1))
  }

  /** From 0 the delay runs 1, 2, 4, ..., 128 and then stays at 128. */
  lemma {:induction false} DelaySchedule(k: nat)
    ensures DelayAfter(k) == if k == 0 then 0 else if k <= 8 then Pow2(k - 1) else MaxDelay
  {
    if k > 0 {
      DelaySchedule(k - 1);
      if 1 < k <= 8 {
        assert Pow2(k - 1) == 2 * Pow2(k - 2);
        PowersBelow128(k - 2);
      }
      if k == 9 {
        assert Pow2(7) == 128;
      }
    }
  }

  lemma PowersBelow128(k: nat)
    requires k < 7
    ensures 0 < Pow2(k) < MaxDelay
  {
    assert Pow2(0) == 1 && Pow2(1) == 2 && Pow2(2) == 4 && Pow2(3) == 8;
    assert Pow2(4) == 16 && Pow2(5) == 32 && Pow2(6) == 64;
  }

  /** Every delay reachable from 0 is at most 128. */
  lemma DelayBounded(k: nat)
    ensures 0 <= DelayAfter(k) <= MaxDelay
  {
    DelaySchedule(k);
    if 0 < k <= 8 {
      if k < 8 {
        PowersBelow128(k - 1);
      } else {
        assert Pow2(7) == 128;
      }
    }
  }

  // ---------------------------------------------------------------------
  // Which individuals need a solver (`solvers_required`)
  // ---------------------------------------------------------------------

  /**
   * Individual i needs a solver: its key is not cached and no earlier
   * individual has the same key (an earlier equal one is evaluated instead).
   */
  predicate NeedsSolver(keys: seq<Key>, cached: set<Key>, i: int)
    requires 0 <= i < |keys|
  {
    keys[i] !in cached && keys[i] !in keys[..i]
  }

  /** `solvers_required`: the number of individuals that need a solver. */
  function Required(keys: seq<Key>, cached: set<Key>): (r: nat)
    ensures r <= |keys|
  {
    if keys == [] then 0
    else Required(keys[..|keys| - 1], cached) + if NeedsSolver(keys, cached, |keys| - 1) then 1 else 0
  }

  /** The keys among `keys` that the cache does not hold. */
  function Missing(keys: seq<Key>, cached: set<Key>): set<Key>
  {
    set k | k in keys && k !in cached
  }

  /** The solvers required are exactly the distinct keys the cache does not hold. */
  lemma {:induction false} RequiredCountsDistinctMisses(keys: seq<Key>, cached: set<Key>)
    ensures Required(keys, cached) == |Missing(keys, cached)|
  {
    if keys != [] {
      var h := keys[..|keys| - 1];
      var x := keys[|keys| - 1];
      assert keys == h + [x];
      RequiredCountsDistinctMisses(h, cached);
      if NeedsSolver(keys, cached, |keys| - 1) {
        assert Missing(keys, cached) == Missing(h, cached) + {x};
        assert x !in Missing(h, cached);
      } else {
        assert Missing(keys, cached) == Missing(h, cached);
      }
    }
  }

  /** One more individual needs no solver or exactly one more. */
  lemma RequiredGrowsByAtMostOne(keys: seq<Key>, x: Key, cached: set<Key>)
    ensures Required(keys + [x], cached) == Required(keys, cached) ||
            Required(keys + [x], cached) == Required(keys, cached) + 1
  {
    assert (keys + [x])[..|keys|] == keys;
  }

  /** Changing the last individual leaves the count for those before it alone. */
  lemma RequiredOfPrefix(keys: seq<Key>, cached: set<Key>, n: nat)
    requires 0 < n <= |keys|
    ensures Required(keys[..n], cached) ==
            Required(keys[..n - 1], cached) + if NeedsSolver(keys, cached, n - 1) then 1 else 0
  {
    assert keys[..n][..n - 1] == keys[..n - 1];
  }

  /** How many of the keys the cache holds: the hits `cached` records for them. */
  function Hits(keys: seq<Key>, cached: set<Key>): (h: nat)
    ensures h <= |keys|
  {
    if keys == [] then 0
    else Hits(keys[..|keys| - 1], cached) + if keys[|keys| - 1] in cached then 1 else 0
  }

  lemma HitsOfPrefix(keys: seq<Key>, cached: set<Key>, n: nat)
    requires 0 < n <= |keys|
    ensures Hits(keys[..n], cached) == Hits(keys[..n - 1], cached) + if keys[n - 1] in cached then 1 else 0
  {
    assert keys[..n][..n - 1] == keys[..n - 1];
  }

  /** A solver is needed only for a miss: never more solvers than misses. */
  lemma {:induction false} RequiredAtMostMisses(keys: seq<Key>, cached: set<Key>)
    ensures Required(keys, cached) + Hits(keys, cached) <= |keys|
  {
    if keys != [] {
      RequiredAtMostMisses(keys[..|keys| - 1], cached);
    }
  }

  /**
   * When every one of the keys needs a solver, they are pairwise distinct
   * and none is cached.
   */
  lemma {:induction false} RequiredAllNeed(keys: seq<Key>, cached: set<Key>)
    requires Required(keys, cached) == |keys|
    ensures forall i :: 0 <= i < |keys| ==> keys[i] !in cached
    ensures forall i, j :: 0 <= i < j < |keys| ==> keys[i] != keys[j]
  {
    if keys != [] {
      var h := keys[..|keys| - 1];
      assert Required(h, cached) <= |h|;
      RequiredAllNeed(h, cached);
      assert NeedsSolver(keys, cached, |keys| - 1);
      forall i, j | 0 <= i < j < |keys|
        ensures keys[i] != keys[j]
      {
        if j < |keys| - 1 {
          assert keys[i] == h[i] && keys[j] == h[j];
        } else {
          assert keys[i] in keys[..|keys| - 1];
        }
      }
      forall i | 0 <= i < |keys|
        ensures keys[i] !in cached
      {
        if i < |keys| - 1 {
          assert keys[i] == h[i];
        }
      }
    }
  }

  // ---------------------------------------------------------------------
  // The scheduling loop of `evaluate_fitness`
  // ---------------------------------------------------------------------

  const Duplicate: int := -4      // an equal individual earlier in the pool is evaluated instead
  const Unallocated: int := -3    // waiting for a solver session
  const NotStarted: int := -2     // session obtained, solver not started
  const Running: int := -1
  const Completed: int := 0

  /** The first position holding key k; -1 when there is none. */
  function FirstIndex(keys: seq<Key>, k: Key): (r: int)
    ensures -1 <= r < |keys|
    ensures r >= 0 ==> keys[r] == k && k !in keys[..r]
    ensures r < 0 <==> k !in keys
  {
    if keys == [] then -1
    else if keys[0] == k then 0
    else
      var r := FirstIndex(keys[1..], k);
      assert r >= 0 ==> keys[..r + 1] == [keys[0]] + keys[1..][..r];
      if r < 0 then -1 else r + 1
  }

  /**
   * The status of slot i once cache hits and duplicates are marked: cached
   * individuals are complete, the first individual with a given uncached key
   * waits for a solver, later equal ones are duplicates.
   */
  function InitialStatus(keys: seq<Key>, cached: set<Key>, i: int): (s: int)
    requires 0 <= i < |keys|
    ensures s == Completed <==> keys[i] in cached
    ensures s == Unallocated <==> NeedsSolver(keys, cached, i)
    ensures s == Duplicate <==> keys[i] !in cached && FirstIndex(keys, keys[i]) < i
  {
    FirstIndexBefore(keys, i);
    if keys[i] in cached then Completed
    else if keys[i] in keys[..i] then Duplicate
    else Unallocated
  }

  lemma FirstIndexBefore(keys: seq<Key>, i: int)
    requires 0 <= i < |keys|
    ensures FirstIndex(keys, keys[i]) <= i
    ensures FirstIndex(keys, keys[i]) < i <==> keys[i] in keys[..i]
  {
    FirstIndexAtMost(keys, keys[i], i);
    if keys[i] in keys[..i] {
      var q :| 0 <= q < i && keys[..i][q] == keys[i];
      FirstIndexAtMost(keys, keys[i], q);
    }
  }

  lemma {:induction false} FirstIndexAtMost(keys: seq<Key>, k: Key, q: int)
    requires 0 <= q < |keys| && keys[q] == k
    ensures 0 <= FirstIndex(keys, k) <= q
  {
    if keys[0] != k {
      FirstIndexAtMost(keys[1..], k, q - 1);
    }
  }

  /** The slots among the first n that need a solver. */
  function NeedingSolvers(keys: seq<Key>, cached: set<Key>, n: nat): set<int>
    requires n <= |keys|
  {
    set i | 0 <= i < n && NeedsSolver(keys, cached, i)
  }

  /** No member among the first m (and before position q) has the key at q. */
  predicate FreshUpTo(keys: seq<Key>, q: int, m: int)
    requires 0 <= q < |keys|
  {
    forall p :: 0 <= p < m && p < q ==> keys[p] != keys[q]
  }

  /** The number of slots needing a solver equals `solvers_required` for the same pool. */
  lemma {:induction false} UnallocatedCount(keys: seq<Key>, cached: set<Key>, n: nat)
    requires n <= |keys|
    ensures |NeedingSolvers(keys, cached, n)| == Required(keys[..n], cached)
  {
    if n > 0 {
      UnallocatedCount(keys, cached, n - 1);
      RequiredOfPrefix(keys, cached, n);
      var s := NeedingSolvers(keys, cached, n - 1);
      if NeedsSolver(keys, cached, n - 1) {
        assert NeedingSolvers(keys, cached, n) == s + {n - 1};
      } else {
        assert NeedingSolvers(keys, cached, n) == s;
      }
    }
  }

  /** The status, polling delay and countdown of every slot of the loop. */
  datatype Slots = Slots(status: seq<int>, delay: seq<int>, counter: seq<int>)

  predicate Sized(s: Slots, n: int)
  {
    |s.status| == n && |s.delay| == n && |s.counter| == n
  }

  /** The slots at the start of the loop: the initial statuses, every delay and counter 0. */
  function StartSlots(keys: seq<Key>, cached: set<Key>): (s: Slots)
    ensures Sized(s, |keys|)
    ensures forall i :: 0 <= i < |keys| ==> s.status[i] == InitialStatus(keys, cached, i)
  {
    Slots(seq(|keys|, i requires 0 <= i < |keys| => InitialStatus(keys, cached, i)),
          seq(|keys|, _ => 0), seq(|keys|, _ => 0))
  }

  /**
   * No session was available for slot i: its delay is raised, and every
   * slot still waiting for a session (slot i among them) takes that delay
   * as its delay and its countdown.
   */
  function OnBusy(s: Slots, i: int): (r: Slots)
    requires Sized(s, |s.status|) && 0 <= i < |s.status| && s.status[i] == Unallocated
    ensures Sized(r, |s.status|) && r.status == s.status
    ensures forall j :: 0 <= j < |s.status| && s.status[j] == Unallocated ==>
              r.delay[j] == NextDelay(s.delay[i]) && r.counter[j] == NextDelay(s.delay[i])
    ensures forall j :: 0 <= j < |s.status| && s.status[j] != Unallocated ==>
              r.delay[j] == s.delay[j] && r.counter[j] == s.counter[j]
  {
    var d := NextDelay(s.delay[i]);
    Slots(s.status,
          seq(|s.status|, j requires 0 <= j < |s.status| => if s.status[j] == Unallocated then d else s.delay[j]),
          seq(|s.status|, j requires 0 <= j < |s.status| => if s.status[j] == Unallocated then d else s.counter[j]))
  }

  /** A session was obtained for slot i and the solver started: not started, no delay. */
  function OnSession(s: Slots, i: int): (r: Slots)
    requires Sized(s, |s.status|) && 0 <= i < |s.status|
    ensures Sized(r, |s.status|) && r.status[i] == NotStarted && r.delay[i] == 0 && r.counter[i] == 0
    ensures forall j :: 0 <= j < |s.status| && j != i ==>
              r.status[j] == s.status[j] && r.delay[j] == s.delay[j] && r.counter[j] == s.counter[j]
  {
    Slots(s.status[i := NotStarted], s.delay[i := 0], s.counter[i := 0])
  }

  /** A poll found slot i's solver still running with the given status: back off. */
  function OnStillRunning(s: Slots, i: int, status: int): (r: Slots)
    requires Sized(s, |s.status|) && 0 <= i < |s.status|
    ensures Sized(r, |s.status|) && r.status[i] == status
    ensures r.delay[i] == r.counter[i] == NextDelay(s.delay[i])
    ensures forall j :: 0 <= j < |s.status| && j != i ==>
              r.status[j] == s.status[j] && r.delay[j] == s.delay[j] && r.counter[j] == s.counter[j]
  {
    var d := NextDelay(s.delay[i]);
    Slots(s.status[i := status], s.delay[i := d], s.counter[i := d])
  }

  /**
   * Slot i's solver completed: the slot is complete with no delay, and
   * every slot waiting for a session has its delay and countdown reset.
   */
  function OnCompleted(s: Slots, i: int): (r: Slots)
    requires Sized(s, |s.status|) && 0 <= i < |s.status| && s.status[i] != Unallocated
    ensures Sized(r, |s.status|) && r.status == s.status[i := Completed]
    ensures forall j :: 0 <= j < |s.status| && s.status[j] == Unallocated ==> r.delay[j] == 0 && r.counter[j] == 0
    ensures forall j :: 0 <= j < |s.status| && s.status[j] != Unallocated && j != i ==>
              r.delay[j] == s.delay[j] && r.counter[j] == s.counter[j]
    ensures r.delay[i] == 0 && r.counter[i] == 0
  {
    Slots(s.status[i := Completed],
          seq(|s.status|, j requires 0 <= j < |s.status| => if s.status[j] == Unallocated || j == i then 0 else s.delay[j]),
          seq(|s.status|, j requires 0 <= j < |s.status| => if s.status[j] == Unallocated || j == i then 0 else s.counter[j]))
  }

  /** A slot whose countdown is running only counts down. */
  function OnWait(s: Slots, i: int): (r: Slots)
    requires Sized(s, |s.status|) && 0 <= i < |s.status|
    ensures Sized(r, |s.status|) && r.status == s.status && r.delay == s.delay
    ensures r.counter[i] == s.counter[i] - 1
    ensures forall j :: 0 <= j < |s.status| && j != i ==> r.counter[j] == s.counter[j]
  {
    Slots(s.status, s.delay, s.counter[i := s.counter[i] - 1])
  }

  /** The loop is over when every slot is complete or a duplicate, with no countdown left. */
  predicate AllSettled(s: Slots)
    requires Sized(s, |s.status|)
  {
    forall j :: 0 <= j < |s.status| ==> s.counter[j] == 0 && (s.status[j] == Completed || s.status[j] == Duplicate)
  }

  /**
   * Within the loop, slots waiting for a session share one delay: a busy
   * reply gives them all the raised delay, a completion resets them all, and
   * nothing else changes the delay of a waiting slot.
   */
  ghost predicate WaitingShareDelay(s: Slots)
    requires Sized(s, |s.status|)
  {
    forall a, b ::
      0 <= a < |s.status| && 0 <= b < |s.status| && s.status[a] == Unallocated && s.status[b] == Unallocated ==>
        s.delay[a] == s.delay[b]
  }

  /** A busy reply leaves the waiting slots sharing the raised delay. */
  lemma OnBusyShares(s: Slots, i: int)
    requires Sized(s, |s.status|) && 0 <= i < |s.status| && s.status[i] == Unallocated
    ensures WaitingShareDelay(OnBusy(s, i))
  {
  }

  /** A completion leaves the waiting slots sharing the delay 0. */
  lemma OnCompletedShares(s: Slots, i: int)
    requires Sized(s, |s.status|) && 0 <= i < |s.status| && s.status[i] != Unallocated
    ensures WaitingShareDelay(OnCompleted(s, i))
  {
  }

  /** Starting a solver takes slot i out of the waiting slots and leaves the others as they were. */
  lemma OnSessionShares(s: Slots, i: int)
    requires Sized(s, |s.status|) && 0 <= i < |s.status| && WaitingShareDelay(s)
    ensures WaitingShareDelay(OnSession(s, i))
  {
  }

  /** A poll of a started slot that leaves it started does not touch the waiting slots. */
  lemma OnStillRunningShares(s: Slots, i: int, status: int)
    requires Sized(s, |s.status|) && 0 <= i < |s.status| && WaitingShareDelay(s)
    requires s.status[i] != Unallocated && status != Unallocated
    ensures WaitingShareDelay(OnStillRunning(s, i, status))
  {
  }

  /** Counting down changes no delay. */
  lemma OnWaitShares(s: Slots, i: int)
    requires Sized(s, |s.status|) && 0 <= i < |s.status| && WaitingShareDelay(s)
    ensures WaitingShareDelay(OnWait(s, i))
  {
  }
}
