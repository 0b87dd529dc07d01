/**
 * `evaluate_fitness` (`GAProtection.cpp`) as the source runs it: local
 * arrays of slot statuses, polling delays and countdowns, a cache lookup
 * per individual, the duplicate marking, the do-while loop over the slots
 * and the filling in of duplicates. Every step is proved to do what the
 * functions of `FitnessEvaluation` say, so what is proved there about a
 * whole call holds of these methods.
 *
 * The server is the `Oracle` of `FitnessEvaluation`; the `Ledger` counts
 * which of its replies have been used and records the runs requested.
 */
module FitnessLoops {
  import opened Common
  import opened Evaluations
  import opened EvaluationCaches
  import opened Scheduling
  import opened Individuals
  import opened Selections
  import opened FitnessEvaluation

  /**
   * `number_of_evals` and `number_of_counted_evals`, how many session
   * replies and polls have been used, and the runs requested so far.
   */
  datatype Ledger = Ledger(evals: int, counted: int, sessions: nat, polls: nat, issued: seq<SolverRun>)

  /** The slots as the three arrays hold them. */
  ghost function SlotsIn(status: array<int>, delay: array<int>, counter: array<int>): Slots
    reads status, delay, counter
  {
    Slots(status[..], delay[..], counter[..])
  }

  /** The state of a call as the arrays, the first n individuals, the cache and the ledger hold it. */
  ghost function Now(pool: array<Individual>, n: int, cache: EvaluationCache,
                     status: array<int>, delay: array<int>, counter: array<int>, l: Ledger): Run
    requires 0 <= n <= pool.Length
    reads pool, cache, status, delay, counter
  {
    Run(SlotsIn(status, delay, counter), pool[..n], cache.entries, cache.removedFiles,
        l.evals, l.counted, l.sessions, l.polls, l.issued)
  }

  /** The three slot arrays are distinct, and distinct from the cache's counters. */
  predicate Apart(cache: EvaluationCache, status: array<int>, delay: array<int>, counter: array<int>)
  {
    status != delay && status != counter && delay != counter &&
    status != cache.requests && status != cache.hits && status != cache.misses &&
    delay != cache.requests && delay != cache.hits && delay != cache.misses &&
    counter != cache.requests && counter != cache.hits && counter != cache.misses
  }

  /**
   * What every step needs and keeps: three distinct slot arrays of the
   * pool's length, apart from the cache's counters, a usable cache for the
   * genome length, and individuals and cached results of that length.
   */
  ghost predicate Ready(c: Call, pool: array<Individual>, n: int, cache: EvaluationCache,
                        status: array<int>, delay: array<int>, counter: array<int>)
    reads pool, cache, cache.requests, cache.hits, cache.misses, status, delay, counter
  {
    0 <= n <= pool.Length && status.Length == n && delay.Length == n && counter.Length == n &&
    Apart(cache, status, delay, counter) &&
    cache.Valid() && cache.genomeSize == c.genomeSize &&
    Shaped(pool[..], c.genomeSize) && Shaped(pool[..n], c.genomeSize) && CostsWithin(cache.entries, c.genomeSize)
  }

  // ---------------------------------------------------------------------
  // The back-off loops
  // ---------------------------------------------------------------------

  /**
   * No session was free for slot i: its delay is raised
   * (`increase_polling_delay`) and every slot waiting for a session takes
   * the new delay as its delay and its countdown.
   */
  method BackOff(status: array<int>, delay: array<int>, counter: array<int>, i: int)
    requires status.Length == delay.Length == counter.Length && delay != counter && status != delay && status != counter
    requires 0 <= i < status.Length && status[i] == Unallocated
    modifies delay, counter
    ensures SlotsIn(status, delay, counter) == OnBusy(old(SlotsIn(status, delay, counter)), i)
  {
    ghost var s := SlotsIn(status, delay, counter);
    var d := NextDelay(delay[i]);
    delay[i] := d;
    var j := 0;
    while j < status.Length
      invariant 0 <= j <= status.Length && delay[i] == d
      invariant forall k :: 0 <= k < status.Length ==>
                  delay[k] == (if k == i || (k < j && status[k] == Unallocated) then d else s.delay[k])
      invariant forall k :: 0 <= k < status.Length ==>
                  counter[k] == (if k < j && status[k] == Unallocated then d else s.counter[k])
    {
      if status[j] == Unallocated {
        delay[j] := delay[i];
        counter[j] := delay[i];
      }
      j := j + 1;
    }
    assert delay[..] == OnBusy(s, i).delay;
    assert counter[..] == OnBusy(s, i).counter;
  }

  /** A session was freed: every slot waiting for a session has its delay and countdown reset. */
  method ResetWaiting(status: array<int>, delay: array<int>, counter: array<int>)
    requires status.Length == delay.Length == counter.Length && delay != counter && status != delay && status != counter
    modifies delay, counter
    ensures forall k :: 0 <= k < status.Length ==>
              delay[k] == (if status[k] == Unallocated then 0 else old(delay[k])) &&
              counter[k] == (if status[k] == Unallocated then 0 else old(counter[k]))
  {
    var j := 0;
    while j < status.Length
      invariant 0 <= j <= status.Length
      invariant forall k :: 0 <= k < status.Length ==>
                  delay[k] == (if k < j && status[k] == Unallocated then 0 else old(delay[k])) &&
                  counter[k] == (if k < j && status[k] == Unallocated then 0 else old(counter[k]))
    {
      if status[j] == Unallocated {
        delay[j] := 0;
        counter[j] := 0;
      }
      j := j + 1;
    }
  }

  // ---------------------------------------------------------------------
  // One slot
  // ---------------------------------------------------------------------

  /**
   * Slot i waits for a session: the next reply either says none is free
   * (back off), or gives the protocol version; with version 4 and an input
   * JJ file the run is requested and the slot is not started.
   */
  method Allocate(o: Oracle, c: Call, pool: array<Individual>, n: int, cache: EvaluationCache,
                  status: array<int>, delay: array<int>, counter: array<int>, i: int, complete: bool, l: Ledger)
    returns (outcome: Outcome, complete': bool, l': Ledger)
    requires Ready(c, pool, n, cache, status, delay, counter) && Answers(o, c.genomeSize)
    requires 0 <= i < n && counter[i] == 0 && status[i] == Unallocated
    modifies status, delay, counter
    ensures Ready(c, pool, n, cache, status, delay, counter)
    ensures var p := Turn(o, c, old(Now(pool, n, cache, status, delay, counter, l)), i, complete);
            outcome == p.outcome &&
            (outcome.Finished? ==> Now(pool, n, cache, status, delay, counter, l') == p.run && complete' == p.complete)
  {
    complete' := false;
    var reply := o.session(l.sessions);
    if reply.None? {
      BackOff(status, delay, counter, i);
      return Finished, false, l.(sessions := l.sessions + 1);
    }
    if reply.value != ProtocolVersion {
      return Failed(1), false, l;
    }
    status[i] := NotStarted;
    delay[i] := 0;
    counter[i] := 0;
    var inJJFile: Option<string>;
    if c.model == YPlusModel {
      inJJFile := Some(c.inJJFile);
    } else {
      inJJFile := cache.JJFile(pool[i].genes, YPlusModel);
      if inJJFile.None? {
        return Failed(1), false, l;
      }
    }
    var request := SolverRun(inJJFile.value, pool[i].genes, c.protection, c.model, c.maxCost);
    outcome, l' := Finished, l.(sessions := l.sessions + 1, issued := l.issued + [request]);
  }

  /**
   * Slot i's solver completed with poll q: the individual takes the
   * fitness and the costs (`read_cost_file`), and the cache stores them with
   * the JJ file when it is kept.
   */
  method Store(c: Call, pool: array<Individual>, n: int, cache: EvaluationCache, i: int, q: Poll)
    requires cache.Valid() && cache.genomeSize == c.genomeSize && CostsWithin(cache.entries, c.genomeSize)
    requires 0 <= i < n <= pool.Length && Shaped(pool[..], c.genomeSize) && |q.costs| <= c.genomeSize
    modifies pool, cache
    ensures cache.Valid() && CostsWithin(cache.entries, c.genomeSize)
    ensures pool[..] == old(pool[..])[i := old(pool[i]).(costs := q.costs, fitness := q.fitness)]
    ensures Shaped(pool[..], c.genomeSize) && Shaped(pool[..n], c.genomeSize)
    ensures var key := SlotKey(c, old(pool[i]));
            cache.entries == old(cache.entries)[key := Entry(if c.keepJJFile then Some(q.jjFile) else None, q.costs, q.fitness)] &&
            cache.removedFiles == old(cache.removedFiles) + DeletedFile(old(cache.entries), key)
  {
    var costs := new real[|q.costs|](k requires 0 <= k < |q.costs| => q.costs[k]);
    assert costs[..] == costs[..costs.Length] == q.costs;
    pool[i] := pool[i].(fitness := q.fitness, costs := costs[..]);
    var outJJFile := if c.keepJJFile then Some(q.jjFile) else None;
    cache.Add(pool[i].genes, c.model, outJJFile, Some(costs), pool[i].fitness, costs.Length);
    assert forall k :: 0 <= k < n ==> pool[..n][k] == pool[..][k];
  }

  /**
   * The rest of a completion: the slot is complete, the evaluation is
   * counted and every slot waiting for a session may try again at once.
   */
  method Complete(c: Call, pool: array<Individual>, n: int, cache: EvaluationCache,
                  status: array<int>, delay: array<int>, counter: array<int>, i: int, q: Poll, l: Ledger)
    returns (l': Ledger)
    requires Ready(c, pool, n, cache, status, delay, counter)
    requires 0 <= i < n && status[i] != Unallocated && |q.costs| <= c.genomeSize
    modifies pool, cache, status, delay, counter
    ensures Ready(c, pool, n, cache, status, delay, counter) && pool[n..] == old(pool[n..])
    ensures var r := old(Now(pool, n, cache, status, delay, counter, l));
            Now(pool, n, cache, status, delay, counter, l') == Completion(c, r, i, q).(polls := r.polls)
    ensures l'.sessions == l.sessions && l'.polls == l.polls
  {
    ghost var s := SlotsIn(status, delay, counter);
    ghost var r := Now(pool, n, cache, status, delay, counter, l);
    Store(c, pool, n, cache, i, q);
    assert pool[..n] == r.pool[i := r.pool[i].(costs := q.costs, fitness := q.fitness)];
    status[i] := Completed;
    delay[i] := 0;
    counter[i] := 0;
    ResetWaiting(status, delay, counter);
    assert SlotsIn(status, delay, counter) == OnCompleted(s, i);
    l' := l.(evals := l.evals + 1, counted := if c.countEvals then l.counted + 1 else l.counted);
  }

  /**
   * Slot i's solver is polled with the next reply: still running (not
   * started or running) backs off, completed with a fitness that matches
   * the last cost completes the slot, and anything else is error 1.
   */
  method PollSolver(o: Oracle, c: Call, pool: array<Individual>, n: int, cache: EvaluationCache,
                    status: array<int>, delay: array<int>, counter: array<int>, i: int, complete: bool, l: Ledger)
    returns (outcome: Outcome, complete': bool, l': Ledger)
    requires Ready(c, pool, n, cache, status, delay, counter) && Answers(o, c.genomeSize)
    requires 0 <= i < n && counter[i] == 0 && (status[i] == NotStarted || status[i] == Running)
    modifies pool, cache, status, delay, counter
    ensures Ready(c, pool, n, cache, status, delay, counter) && pool[n..] == old(pool[n..])
    ensures var p := Turn(o, c, old(Now(pool, n, cache, status, delay, counter, l)), i, complete);
            outcome == p.outcome &&
            (outcome.Finished? ==> Now(pool, n, cache, status, delay, counter, l') == p.run && complete' == p.complete)
  {
    var q := o.poll(l.polls);
    if q.status == NotStarted || q.status == Running {
      status[i] := q.status;
      var d := NextDelay(delay[i]);
      delay[i] := d;
      counter[i] := d;
      return Finished, false, l.(polls := l.polls + 1);
    }
    if q.status != Completed || Abs(q.fitness - q.costs[|q.costs| - 1]) >= FloatPrecision {
      return Failed(1), false, l;
    }
    l' := Complete(c, pool, n, cache, status, delay, counter, i, q, l);
    outcome, complete', l' := Finished, complete, l'.(polls := l.polls + 1);
  }

  /**
   * The body of the do-while loop for slot i: a running countdown only
   * counts down, a slot waiting for a session tries to get one, a running
   * solver is polled, and a complete or duplicate slot is left alone.
   */
  method Visit(o: Oracle, c: Call, pool: array<Individual>, n: int, cache: EvaluationCache,
               status: array<int>, delay: array<int>, counter: array<int>, i: int, complete: bool, l: Ledger)
    returns (outcome: Outcome, complete': bool, l': Ledger)
    requires Ready(c, pool, n, cache, status, delay, counter) && Answers(o, c.genomeSize) && 0 <= i < n
    modifies pool, cache, status, delay, counter
    ensures Ready(c, pool, n, cache, status, delay, counter) && pool[n..] == old(pool[n..])
    ensures var p := Turn(o, c, old(Now(pool, n, cache, status, delay, counter, l)), i, complete);
            outcome == p.outcome &&
            (outcome.Finished? ==> Now(pool, n, cache, status, delay, counter, l') == p.run && complete' == p.complete)
  {
    if counter[i] != 0 {
      counter[i] := counter[i] - 1;
      outcome, complete', l' := Finished, false, l;
    } else if status[i] == Unallocated {
      outcome, complete', l' := Allocate(o, c, pool, n, cache, status, delay, counter, i, complete, l);
    } else if status[i] == NotStarted || status[i] == Running {
      outcome, complete', l' := PollSolver(o, c, pool, n, cache, status, delay, counter, i, complete, l);
    } else {
      outcome, complete', l' := Finished, complete, l;
    }
  }

  /** A pass that failed at slot k - 1 ends there. */
  lemma {:induction false} PassFails(o: Oracle, c: Call, r: Run, k: nat, m: nat)
    requires Answers(o, c.genomeSize) && Fits(c, r) && k <= m <= |r.pool|
    requires !PassTo(o, c, r, k).outcome.Finished?
    ensures PassTo(o, c, r, m) == PassTo(o, c, r, k)
  {
    if m > k {
      PassFails(o, c, r, k, m - 1);
    }
  }

  /** One pass of the do-while loop over every slot, `complete` starting true. */
  method Pass(o: Oracle, c: Call, pool: array<Individual>, n: int, cache: EvaluationCache,
              status: array<int>, delay: array<int>, counter: array<int>, l: Ledger)
    returns (outcome: Outcome, complete: bool, l': Ledger)
    requires Ready(c, pool, n, cache, status, delay, counter) && Answers(o, c.genomeSize)
    modifies pool, cache, status, delay, counter
    ensures Ready(c, pool, n, cache, status, delay, counter) && pool[n..] == old(pool[n..])
    ensures var p := PassTo(o, c, old(Now(pool, n, cache, status, delay, counter, l)), n);
            outcome == p.outcome &&
            (outcome.Finished? ==> Now(pool, n, cache, status, delay, counter, l') == p.run && complete == p.complete)
  {
    ghost var r0 := Now(pool, n, cache, status, delay, counter, l);
    outcome, complete, l' := Finished, true, l;
    var i := 0;
    while i < n
      invariant 0 <= i <= n && Ready(c, pool, n, cache, status, delay, counter) && pool[n..] == old(pool[n..])
      invariant PassTo(o, c, r0, i) == Progress(Now(pool, n, cache, status, delay, counter, l'), complete, Finished)
      invariant outcome == Finished
    {
      outcome, complete, l' := Visit(o, c, pool, n, cache, status, delay, counter, i, complete, l');
      if !outcome.Finished? {
        PassFails(o, c, r0, i + 1, n);
        return;
      }
      i := i + 1;
    }
  }

  /**
   * The do-while loop: passes until one finds every slot complete or a
   * duplicate with no countdown, at most `rounds` passes after the first.
   * The sleep between passes is not modelled.
   */
  method Schedule(o: Oracle, c: Call, pool: array<Individual>, n: int, cache: EvaluationCache,
                  status: array<int>, delay: array<int>, counter: array<int>, l: Ledger, rounds: nat)
    returns (outcome: Outcome, l': Ledger)
    requires Ready(c, pool, n, cache, status, delay, counter) && Answers(o, c.genomeSize)
    modifies pool, cache, status, delay, counter
    ensures Ready(c, pool, n, cache, status, delay, counter) && pool[n..] == old(pool[n..])
    ensures var p := Scheduled(o, c, old(Now(pool, n, cache, status, delay, counter, l)), rounds);
            outcome == p.outcome && (outcome.Finished? ==> Now(pool, n, cache, status, delay, counter, l') == p.run)
  {
    ghost var target := Scheduled(o, c, Now(pool, n, cache, status, delay, counter, l), rounds);
    var fuel := rounds;
    l' := l;
    while true
      invariant Ready(c, pool, n, cache, status, delay, counter) && pool[n..] == old(pool[n..])
      invariant Scheduled(o, c, Now(pool, n, cache, status, delay, counter, l'), fuel) == target
      decreases fuel
    {
      var stop;
      outcome, stop, l' := ScheduleRound(o, c, pool, n, cache, status, delay, counter, l', fuel);
      if stop {
        return;
      }
      fuel := fuel - 1;
    }
  }

  /** One pass of the do-while loop, and whether the loop ends after it. */
  method ScheduleRound(o: Oracle, c: Call, pool: array<Individual>, n: int, cache: EvaluationCache,
                       status: array<int>, delay: array<int>, counter: array<int>, l: Ledger, fuel: nat)
    returns (outcome: Outcome, stop: bool, l': Ledger)
    requires Ready(c, pool, n, cache, status, delay, counter) && Answers(o, c.genomeSize)
    modifies pool, cache, status, delay, counter
    ensures Ready(c, pool, n, cache, status, delay, counter) && pool[n..] == old(pool[n..])
    ensures var p := Scheduled(o, c, old(Now(pool, n, cache, status, delay, counter, l)), fuel);
            if stop then outcome == p.outcome && (outcome.Finished? ==> Now(pool, n, cache, status, delay, counter, l') == p.run)
            else fuel > 0 && Scheduled(o, c, Now(pool, n, cache, status, delay, counter, l'), fuel - 1) == p
  {
    var complete;
    outcome, complete, l' := Pass(o, c, pool, n, cache, status, delay, counter, l);
    stop := !outcome.Finished? || complete || fuel == 0;
    if outcome.Finished? && !complete && fuel == 0 {
      outcome := FuelExhausted;
    }
  }

  // ---------------------------------------------------------------------
  // Before and after the loop
  // ---------------------------------------------------------------------

  /**
   * Individual i is looked up in the cache (`cached`); a cached one takes
   * the cached costs (`costs`) and fitness (`fitness`).
   */
  method Lookup(c: Call, pool: array<Individual>, cache: EvaluationCache, i: int) returns (hit: bool)
    requires cache.Valid() && cache.genomeSize == c.genomeSize && CostsWithin(cache.entries, c.genomeSize)
    requires 0 <= c.model < NumberOfModels && 0 <= i < pool.Length && Shaped(pool[..], c.genomeSize)
    modifies pool, cache.requests, cache.hits, cache.misses
    ensures cache.Valid() && Shaped(pool[..], c.genomeSize)
    ensures var k := SlotKey(c, old(pool[i]));
            var e := cache.entries;
            (hit <==> k in e) &&
            pool[..] == old(pool[..])[i := if hit then old(pool[i]).(costs := e[k].costs, fitness := e[k].fitness) else old(pool[i])] &&
            cache.Counters() == Tallied(old(cache.Counters()), c.model, 1, if hit then 1 else 0)
  {
    hit := cache.Cached(pool[i].genes, c.model);
    if hit {
      var costs := new real[c.genomeSize];
      var m := cache.Costs(pool[i].genes, c.model, costs);
      var fitness := cache.Fitness(pool[i].genes, c.model);
      pool[i] := pool[i].(costs := costs[..m], fitness := fitness);
    }
  }

  /** What the first loop needs and keeps. */
  ghost predicate Loadable(c: Call, pool: array<Individual>, n: int, cache: EvaluationCache,
                           status: array<int>, delay: array<int>, counter: array<int>)
    reads pool, cache, cache.requests, cache.hits, cache.misses
  {
    cache.Valid() && cache.genomeSize == c.genomeSize && CostsWithin(cache.entries, c.genomeSize) &&
    0 <= c.model < NumberOfModels && 0 <= n <= pool.Length && Shaped(pool[..], c.genomeSize) &&
    status.Length == delay.Length == counter.Length == n && Apart(cache, status, delay, counter)
  }

  /**
   * Where the first loop stands after i individuals, from the pool p0, the
   * cache entries e and the counters t0 it started with.
   */
  ghost predicate LoadedTo(c: Call, pool: array<Individual>, n: int, cache: EvaluationCache,
                           status: array<int>, delay: array<int>, counter: array<int>,
                           p0: seq<Individual>, e: map<Key, Entry>, t0: Tally, i: int)
    reads pool, cache, cache.requests, cache.hits, cache.misses, status, delay, counter
  {
    Loadable(c, pool, n, cache, status, delay, counter) && cache.entries == e && 0 <= i <= n &&
    |p0| == pool.Length && Shaped(p0, c.genomeSize) &&
    |t0.requests| == |t0.hits| == |t0.misses| == NumberOfModels &&
    (forall j :: i <= j < pool.Length ==> pool[j] == p0[j]) &&
    (forall j :: 0 <= j < i ==> pool[j] == Loaded(p0[..n], e, c)[j]) &&
    (forall j :: 0 <= j < i ==>
       status[j] == (if SlotKey(c, p0[j]) in e then Completed else Unallocated) && delay[j] == 0 && counter[j] == 0) &&
    cache.Counters() == Tallied(t0, c.model, i, Hits(PoolKeys(p0[..n], c.model, c.genomeSize)[..i], e.Keys))
  }

  /** The body of the first loop for individual i: the lookup, and the slot's status, delay and countdown. */
  method LoadSlot(c: Call, pool: array<Individual>, n: int, cache: EvaluationCache,
                  status: array<int>, delay: array<int>, counter: array<int>,
                  i: int, ghost p0: seq<Individual>, ghost e: map<Key, Entry>, ghost t0: Tally)
    requires LoadedTo(c, pool, n, cache, status, delay, counter, p0, e, t0, i) && i < n
    modifies pool, status, delay, counter, cache.requests, cache.hits, cache.misses
    ensures LoadedTo(c, pool, n, cache, status, delay, counter, p0, e, t0, i + 1)
  {
    ghost var keys := PoolKeys(p0[..n], c.model, c.genomeSize);
    ghost var t := cache.Counters();
    var hit := Lookup(c, pool, cache, i);
    status[i] := if hit then Completed else Unallocated;
    delay[i] := 0;
    counter[i] := 0;
    LookedUp(t0, c.model, keys, e.Keys, i);
    assert cache.Counters() == Tallied(t, c.model, 1, if keys[i] in e then 1 else 0);
  }

  /**
   * The first loop of `evaluate_fitness`: every individual is looked up in
   * the cache, so the pool is `Loaded`, a cached individual is complete and
   * any other waits for a session, every delay and countdown is 0, and the
   * model's counters record one request per individual.
   */
  method LoadCached(c: Call, pool: array<Individual>, n: int, cache: EvaluationCache,
                    status: array<int>, delay: array<int>, counter: array<int>)
    requires Loadable(c, pool, n, cache, status, delay, counter)
    modifies pool, status, delay, counter, cache.requests, cache.hits, cache.misses
    ensures Loadable(c, pool, n, cache, status, delay, counter) && pool[n..] == old(pool[n..])
    ensures pool[..n] == Loaded(old(pool[..n]), cache.entries, c)
    ensures var keys := PoolKeys(old(pool[..n]), c.model, c.genomeSize);
            (forall j :: 0 <= j < n ==> status[j] == if keys[j] in cache.entries then Completed else Unallocated) &&
            (forall j :: 0 <= j < n ==> delay[j] == 0 && counter[j] == 0) &&
            cache.Counters() == Tallied(old(cache.Counters()), c.model, n, Hits(keys, cache.entries.Keys))
  {
    ghost var p0 := pool[..];
    ghost var e := cache.entries;
    ghost var t0 := cache.Counters();
    assert p0[..n] == pool[..n];
    var i := 0;
    while i < n
      invariant LoadedTo(c, pool, n, cache, status, delay, counter, p0, e, t0, i)
    {
      LoadSlot(c, pool, n, cache, status, delay, counter, i, p0, e, t0);
      i := i + 1;
    }
    ghost var keys := PoolKeys(p0[..n], c.model, c.genomeSize);
    assert keys[..n] == keys;
    assert pool[..n] == Loaded(p0[..n], e, c);
  }

  /** One more lookup extends the tally of the lookups before it. */
  lemma LookedUp(t0: Tally, model: int, keys: seq<Key>, cached: set<Key>, i: int)
    requires 0 <= model < |t0.requests| && model < |t0.hits| && model < |t0.misses| && 0 <= i < |keys|
    ensures Tallied(Tallied(t0, model, i, Hits(keys[..i], cached)), model, 1, if keys[i] in cached then 1 else 0) ==
            Tallied(t0, model, i + 1, Hits(keys[..i + 1], cached))
  {
    HitsOfPrefix(keys, cached, i + 1);
    TalliedTwice(t0, model, i, Hits(keys[..i], cached), 1, if keys[i] in cached then 1 else 0);
  }

  /**
   * The `Evaluation` objects of `evaluate_fitness`: the key of every
   * individual waiting for a session, none for the others.
   */
  method EvaluationsFor(c: Call, pool: array<Individual>, n: int, status: array<int>) returns (eval: seq<Option<Key>>)
    requires 0 <= n <= pool.Length && status.Length == n && Shaped(pool[..n], c.genomeSize)
    ensures |eval| == n
    ensures forall j :: 0 <= j < n ==> eval[j] == if status[j] == Unallocated then Some(SlotKey(c, pool[j])) else None
  {
    eval := [];
    var i := 0;
    while i < n
      invariant 0 <= i <= n && |eval| == i
      invariant forall j :: 0 <= j < i ==> eval[j] == if status[j] == Unallocated then Some(SlotKey(c, pool[j])) else None
    {
      assert pool[..n][i] == pool[i];
      var k := Key(c.model, pool[i].genes[..c.genomeSize]);
      eval := eval + [if status[i] == Unallocated then Some(k) else None];
      i := i + 1;
    }
  }

  /** Slot q once the marking has compared it with the first m individuals. */
  function Marked(keys: seq<Key>, cached: set<Key>, q: int, m: int): int
    requires 0 <= q < |keys|
  {
    if keys[q] in cached then Completed else if FreshUpTo(keys, q, m) then Unallocated else Duplicate
  }

  /**
   * The duplicate marking of `evaluate_fitness`: a slot waiting for a
   * session whose genome equals that of an earlier uncached individual
   * becomes a duplicate, so every slot takes its `InitialStatus`.
   */
  method MarkCopies(status: array<int>, eval: seq<Option<Key>>, ghost keys: seq<Key>, ghost cached: set<Key>)
    requires status.Length == |eval| == |keys|
    requires forall j :: 0 <= j < |keys| ==> status[j] == if keys[j] in cached then Completed else Unallocated
    requires forall j :: 0 <= j < |keys| ==> eval[j] == if keys[j] in cached then None else Some(keys[j])
    modifies status
    ensures forall j :: 0 <= j < |keys| ==> status[j] == InitialStatus(keys, cached, j)
  {
    var n := status.Length;
    var i := 0;
    while i < n
      invariant 0 <= i <= n
      invariant forall q :: 0 <= q < n ==> status[q] == Marked(keys, cached, q, i)
    {
      if eval[i].Some? {
        var j := i + 1;
        while j < n
          invariant i + 1 <= j <= n
          invariant forall q :: 0 <= q < n ==> status[q] == Marked(keys, cached, q, if q < j then i + 1 else i)
        {
          if eval[j].Some? && status[j] == Unallocated && eval[j].value == eval[i].value {
            status[j] := Duplicate;
          }
          j := j + 1;
        }
      }
      i := i + 1;
    }
    forall q | 0 <= q < n
      ensures status[q] == InitialStatus(keys, cached, q)
    {
      if keys[q] in keys[..q] {
        var p :| 0 <= p < q && keys[..q][p] == keys[q];
        assert !FreshUpTo(keys, q, n);
      }
    }
  }

  /**
   * Slot q is filled once the fill has taken individual i up to slot j: it
   * is a duplicate whose representative comes before i, or is i with q
   * before j.
   */
  ghost predicate FilledBy(keys: seq<Key>, s0: seq<int>, q: int, i: int, j: int)
    requires 0 <= q < |keys| == |s0|
  {
    s0[q] == Duplicate && (Representative(keys, q) < i || (Representative(keys, q) == i && q < j))
  }

  /** The fill so far: filled slots hold their `Filled` value and are complete, the others are as they were. */
  ghost predicate FillAt(pool: seq<Individual>, status: seq<int>, p0: seq<Individual>, keys: seq<Key>,
                         s0: seq<int>, i: int, j: int)
    requires |p0| == |pool| && |keys| == |s0| == |status| <= |pool|
  {
    var n := |keys|;
    (forall q :: n <= q < |pool| ==> pool[q] == p0[q]) &&
    forall q :: 0 <= q < n ==>
      if FilledBy(keys, s0, q, i, j) then pool[q] == Filled(p0[..n], keys, s0)[q] && status[q] == Completed
      else pool[q] == p0[q] && status[q] == s0[q]
  }

  ghost predicate FillState(pool: array<Individual>, status: array<int>, p0: seq<Individual>, keys: seq<Key>,
                            s0: seq<int>, i: int, j: int)
    requires |p0| == pool.Length && |keys| == |s0| == status.Length <= pool.Length
    reads pool, status
  {
    FillAt(pool[..], status[..], p0, keys, s0, i, j)
  }

  /** What the fill's comparisons rely on: the keys of the uncached individuals and the duplicates. */
  ghost predicate Fillable(eval: seq<Option<Key>>, keys: seq<Key>, cached: set<Key>, s0: seq<int>)
    requires |keys| == |s0| == |eval|
  {
    (forall q :: 0 <= q < |keys| ==> eval[q] == if keys[q] in cached then None else Some(keys[q])) &&
    (forall q :: 0 <= q < |keys| ==> (s0[q] == Duplicate <==> InitialStatus(keys, cached, q) == Duplicate))
  }

  /** Slots other than j are filled after the comparison with j exactly when they were before. */
  lemma FillOthers(pool: seq<Individual>, status: seq<int>, pool': seq<Individual>, status': seq<int>, i: int, j: int,
                   p0: seq<Individual>, keys: seq<Key>, s0: seq<int>)
    requires |p0| == |pool| == |pool'| && |keys| == |s0| == |status| == |status'| <= |pool|
    requires 0 <= i < j < |keys| && FillAt(pool, status, p0, keys, s0, i, j)
    requires forall q :: 0 <= q < |pool| && q != j ==> pool'[q] == pool[q]
    requires forall q :: 0 <= q < |keys| && q != j ==> status'[q] == status[q]
    requires if FilledBy(keys, s0, j, i, j + 1) then pool'[j] == Filled(p0[..|keys|], keys, s0)[j] && status'[j] == Completed
             else pool'[j] == p0[j] && status'[j] == s0[j]
    ensures FillAt(pool', status', p0, keys, s0, i, j + 1)
  {
    forall q | 0 <= q < |keys| && q != j
      ensures FilledBy(keys, s0, q, i, j + 1) == FilledBy(keys, s0, q, i, j)
    {
    }
  }

  /**
   * The comparison of individual i with slot j keeps the fill in step: the
   * slot is filled exactly when it is a duplicate whose representative is i.
   */
  lemma FillStep(pool: seq<Individual>, status: seq<int>, eval: seq<Option<Key>>, i: int, j: int,
                 p0: seq<Individual>, keys: seq<Key>, cached: set<Key>, s0: seq<int>)
    requires |p0| == |pool| && |keys| == |s0| == |eval| == |status| <= |pool|
    requires 0 <= i < j < |keys| && eval[i].Some? && Fillable(eval, keys, cached, s0)
    requires FillAt(pool, status, p0, keys, s0, i, j)
    ensures var fill := eval[j].Some? && status[j] == Duplicate && eval[j].value == eval[i].value;
            var pool' := if fill then pool[j := pool[j].(costs := pool[i].costs, fitness := pool[i].fitness)] else pool;
            var status' := if fill then status[j := Completed] else status;
            FillAt(pool', status', p0, keys, s0, i, j + 1)
  {
    var n := |keys|;
    var fill := eval[j].Some? && status[j] == Duplicate && eval[j].value == eval[i].value;
    if s0[j] == Duplicate {
      RepresentativeOf(keys, cached, j);
    }
    if s0[i] == Duplicate {
      RepresentativeOf(keys, cached, i);
    }
    if fill {
      FirstIndexAtMost(keys, keys[j], i);
      assert Representative(keys, j) == i;
      assert s0[i] != Duplicate && pool[i] == p0[i];
      var pool' := pool[j := pool[j].(costs := pool[i].costs, fitness := pool[i].fitness)];
      FillOthers(pool, status, pool', status[j := Completed], i, j, p0, keys, s0);
    } else {
      FillOthers(pool, status, pool, status, i, j, p0, keys, s0);
    }
  }

  /** The representative of a duplicate is an earlier uncached individual that is not a duplicate. */
  lemma RepresentativeOf(keys: seq<Key>, cached: set<Key>, q: int)
    requires 0 <= q < |keys| && InitialStatus(keys, cached, q) == Duplicate
    ensures var f := Representative(keys, q);
            f < q && keys[f] !in cached && InitialStatus(keys, cached, f) != Duplicate
  {
    var f := Representative(keys, q);
    FirstIndexBefore(keys, f);
  }

  /**
   * One comparison of the fill: a duplicate at j with the genome of
   * individual i takes i's costs and fitness and becomes complete.
   */
  method FillOne(pool: array<Individual>, status: array<int>, eval: seq<Option<Key>>, i: int, j: int,
                 ghost p0: seq<Individual>, ghost keys: seq<Key>, ghost cached: set<Key>, ghost s0: seq<int>)
    requires |p0| == pool.Length && |keys| == |s0| == |eval| == status.Length <= pool.Length
    requires 0 <= i < j < |keys| && eval[i].Some? && Fillable(eval, keys, cached, s0)
    requires FillState(pool, status, p0, keys, s0, i, j)
    modifies pool, status
    ensures FillState(pool, status, p0, keys, s0, i, j + 1)
  {
    FillStep(pool[..], status[..], eval, i, j, p0, keys, cached, s0);
    if eval[j].Some? && status[j] == Duplicate && eval[j].value == eval[i].value {
      pool[j] := pool[j].(costs := pool[i].costs, fitness := pool[i].fitness);
      status[j] := Completed;
    }
  }

  /**
   * The last loop of `evaluate_fitness`: every duplicate takes the costs
   * and fitness of the first individual with its genome.
   */
  method FillCopies(pool: array<Individual>, status: array<int>, eval: seq<Option<Key>>,
                    ghost keys: seq<Key>, ghost cached: set<Key>)
    requires |keys| == |eval| == status.Length <= pool.Length
    requires forall q :: 0 <= q < |keys| ==> eval[q] == if keys[q] in cached then None else Some(keys[q])
    requires forall q :: 0 <= q < |keys| ==> (status[q] == Duplicate <==> InitialStatus(keys, cached, q) == Duplicate)
    modifies pool, status
    ensures pool[..|keys|] == Filled(old(pool[..|keys|]), keys, old(status[..]))
    ensures pool[|keys|..] == old(pool[|keys|..])
  {
    ghost var p0 := pool[..];
    ghost var s0 := status[..];
    var n := status.Length;
    var i := 0;
    while i < n
      invariant 0 <= i <= n && FillState(pool, status, p0, keys, s0, i, 0)
    {
      if eval[i].Some? {
        var j := i + 1;
        FillFrom(keys, cached, s0, i);
        while j < n
          invariant i + 1 <= j <= n && FillState(pool, status, p0, keys, s0, i, j)
        {
          FillOne(pool, status, eval, i, j, p0, keys, cached, s0);
          j := j + 1;
        }
        FillTo(keys, cached, s0, i);
      } else {
        FillSkip(keys, cached, s0, i);
      }
      i := i + 1;
    }
    assert p0[..n] == old(pool[..|keys|]);
    assert pool[..n] == Filled(p0[..n], keys, s0);
  }

  lemma FillFrom(keys: seq<Key>, cached: set<Key>, s0: seq<int>, i: int)
    requires |keys| == |s0| && 0 <= i < |keys|
    requires forall q :: 0 <= q < |keys| ==> (s0[q] == Duplicate <==> InitialStatus(keys, cached, q) == Duplicate)
    ensures forall q :: 0 <= q < |keys| ==> (FilledBy(keys, s0, q, i, 0) <==> FilledBy(keys, s0, q, i, i + 1))
  {
    forall q | 0 <= q < |keys| && s0[q] == Duplicate
      ensures Representative(keys, q) < q
    {
      RepresentativeOf(keys, cached, q);
    }
  }

  lemma FillTo(keys: seq<Key>, cached: set<Key>, s0: seq<int>, i: int)
    requires |keys| == |s0| && 0 <= i < |keys|
    ensures forall q :: 0 <= q < |keys| ==> (FilledBy(keys, s0, q, i, |keys|) <==> FilledBy(keys, s0, q, i + 1, 0))
  {
  }

  lemma FillSkip(keys: seq<Key>, cached: set<Key>, s0: seq<int>, i: int)
    requires |keys| == |s0| && 0 <= i < |keys| && keys[i] in cached
    requires forall q :: 0 <= q < |keys| ==> (s0[q] == Duplicate <==> InitialStatus(keys, cached, q) == Duplicate)
    ensures forall q :: 0 <= q < |keys| ==> (FilledBy(keys, s0, q, i, 0) <==> FilledBy(keys, s0, q, i + 1, 0))
  {
    forall q | 0 <= q < |keys| && s0[q] == Duplicate
      ensures Representative(keys, q) != i
    {
      RepresentativeOf(keys, cached, q);
    }
  }

  // ---------------------------------------------------------------------
  // A whole call
  // ---------------------------------------------------------------------

  /** Filling copies costs between individuals of the same shape, so the pool keeps its shape. */
  lemma FilledShaped(pool: seq<Individual>, keys: seq<Key>, status: seq<int>, g: nat)
    requires |pool| == |keys| == |status| && Shaped(pool, g)
    ensures Shaped(Filled(pool, keys, status), g)
  {
  }

  /** The last loop on a pool of genomes of g genes, which keep their shape. */
  method FillPool(pool: array<Individual>, status: array<int>, eval: seq<Option<Key>>,
                  ghost keys: seq<Key>, ghost cached: set<Key>, ghost g: nat)
    requires |keys| == |eval| == status.Length <= pool.Length && Shaped(pool[..], g)
    requires forall q :: 0 <= q < |keys| ==> eval[q] == if keys[q] in cached then None else Some(keys[q])
    requires forall q :: 0 <= q < |keys| ==> (status[q] == Duplicate <==> InitialStatus(keys, cached, q) == Duplicate)
    modifies pool, status
    ensures pool[..|keys|] == Filled(old(pool[..|keys|]), keys, old(status[..]))
    ensures pool[|keys|..] == old(pool[|keys|..]) && Shaped(pool[..], g)
  {
    ghost var p1 := pool[..];
    ghost var s1 := status[..];
    var n := status.Length;
    FillCopies(pool, status, eval, keys, cached);
    FilledShaped(p1[..n], keys, s1, g);
    assert pool[..] == pool[..n] + p1[n..];
  }

  /** A loop that finishes leaves exactly the slots that started as duplicates marked as duplicates. */
  lemma DuplicatesStay(o: Oracle, c: Call, pool: seq<Individual>, entries: map<Key, Entry>, removed: seq<string>,
                       evals: int, counted: int, rounds: nat)
    requires Answers(o, c.genomeSize) && Shaped(pool, c.genomeSize) && CostsWithin(entries, c.genomeSize)
    ensures var keys := PoolKeys(pool, c.model, c.genomeSize);
            var p := Scheduled(o, c, Begin(c, pool, entries, removed, evals, counted), rounds);
            p.outcome.Finished? ==>
              |p.run.slots.status| == |pool| &&
              forall q :: 0 <= q < |pool| ==>
                (p.run.slots.status[q] == Duplicate <==> InitialStatus(keys, entries.Keys, q) == Duplicate)
  {
    var r0 := Begin(c, pool, entries, removed, evals, counted);
    BeginKeeps(c, pool, entries, removed, evals, counted);
    ScheduledKeeps(o, c, r0, r0, rounds);
    var p := Scheduled(o, c, r0, rounds);
    if p.outcome.Finished? {
      forall q | 0 <= q < |pool|
        ensures p.run.slots.status[q] == Duplicate <==> r0.slots.status[q] == Duplicate
      {
        assert Tracked(r0.slots, p.run.slots, q);
      }
    }
  }

  /** The requests for the waiting slots, and the later copies of each marked as duplicates. */
  method MarkAll(c: Call, pool: array<Individual>, n: int, status: array<int>, ghost keys: seq<Key>, ghost cached: set<Key>)
    returns (eval: seq<Option<Key>>)
    requires 0 <= n <= pool.Length && status.Length == n == |keys| && Shaped(pool[..n], c.genomeSize)
    requires forall q :: 0 <= q < n ==> SlotKey(c, pool[q]) == keys[q]
    requires forall q :: 0 <= q < n ==> status[q] == if keys[q] in cached then Completed else Unallocated
    modifies status
    ensures forall q :: 0 <= q < n ==> status[q] == InitialStatus(keys, cached, q)
    ensures |eval| == n && forall q :: 0 <= q < n ==> eval[q] == if keys[q] in cached then None else Some(keys[q])
  {
    eval := EvaluationsFor(c, pool, n, status);
    MarkCopies(status, eval, keys, cached);
  }

  /**
   * The slots once the cache is consulted and duplicates are marked are
   * those the loop starts from.
   */
  method Prepare(c: Call, pool: array<Individual>, n: int, cache: EvaluationCache,
                 status: array<int>, delay: array<int>, counter: array<int>)
    returns (eval: seq<Option<Key>>)
    requires Loadable(c, pool, n, cache, status, delay, counter)
    modifies pool, status, delay, counter, cache.requests, cache.hits, cache.misses
    ensures Loadable(c, pool, n, cache, status, delay, counter) && pool[n..] == old(pool[n..])
    ensures var keys := PoolKeys(old(pool[..n]), c.model, c.genomeSize);
            SlotsIn(status, delay, counter) == StartSlots(keys, cache.entries.Keys) &&
            pool[..n] == Loaded(old(pool[..n]), cache.entries, c) &&
            |eval| == n && forall q :: 0 <= q < n ==> eval[q] == if keys[q] in cache.entries then None else Some(keys[q])
    ensures cache.Counters() == Tallied(old(cache.Counters()), c.model, n, Hits(PoolKeys(old(pool[..n]), c.model, c.genomeSize), cache.entries.Keys))
  {
    ghost var keys := PoolKeys(pool[..n], c.model, c.genomeSize);
    LoadCached(c, pool, n, cache, status, delay, counter);
    eval := MarkAll(c, pool, n, status, keys, cache.entries.Keys);
    assert SlotsIn(status, delay, counter) == StartSlots(keys, cache.entries.Keys);
  }

  /**
   * `evaluate_fitness` on the first n individuals of `pool`, with the
   * evaluation counters at `evals` and `counted`: what it leaves in the
   * pool, the cache and the counters, and the runs it requests, are those
   * of `Evaluated`, and each individual is looked up in the cache once.
   */
  method EvaluatePool(o: Oracle, c: Call, pool: array<Individual>, n: int, cache: EvaluationCache,
                      evals: int, counted: int, rounds: nat)
    returns (outcome: Outcome, l: Ledger)
    requires cache.Valid() && cache.genomeSize == c.genomeSize && CostsWithin(cache.entries, c.genomeSize)
    requires 0 <= c.model < NumberOfModels && 0 <= n <= pool.Length && Shaped(pool[..], c.genomeSize)
    requires Answers(o, c.genomeSize)
    modifies pool, cache, cache.requests, cache.hits, cache.misses
    ensures cache.Valid() && CostsWithin(cache.entries, c.genomeSize) && Shaped(pool[..], c.genomeSize)
    ensures pool[n..] == old(pool[n..])
    ensures var keys := PoolKeys(old(pool[..n]), c.model, c.genomeSize);
            cache.Counters() == Tallied(old(cache.Counters()), c.model, n, Hits(keys, old(cache.entries).Keys))
    ensures var p := Evaluated(o, c, old(pool[..n]), old(cache.entries), old(cache.removedFiles), evals, counted, rounds);
            outcome == p.outcome &&
            (outcome.Finished? ==>
               pool[..n] == p.run.pool && cache.entries == p.run.entries && cache.removedFiles == p.run.removed &&
               l.evals == p.run.evals && l.counted == p.run.counted && l.issued == p.run.issued)
  {
    ghost var p0 := pool[..n];
    ghost var e0 := cache.entries;
    ghost var keys := PoolKeys(p0, c.model, c.genomeSize);
    var status := new int[n];
    var delay := new int[n];
    var counter := new int[n];
    var eval := Prepare(c, pool, n, cache, status, delay, counter);
    assert Shaped(pool[..n], c.genomeSize);
    l := Ledger(evals, counted, 0, 0, []);
    assert Now(pool, n, cache, status, delay, counter, l) == Begin(c, p0, e0, cache.removedFiles, evals, counted);
    ghost var t := cache.Counters();
    outcome, l := Schedule(o, c, pool, n, cache, status, delay, counter, l, rounds);
    if outcome.Finished? {
      DuplicatesStay(o, c, p0, e0, old(cache.removedFiles), evals, counted, rounds);
      FillPool(pool, status, eval, keys, e0.Keys, c.genomeSize);
    }
  }
}
