/**
 * The scheduling loop of `evaluate_fitness` (`GAProtection.cpp`) as a
 * function of what the remote solver service replies: cached individuals are
 * copied in from the cache, the first individual of every uncached genome is
 * evaluated remotely, later equal ones are filled in from it afterwards, and
 * slots waiting for a session back off together.
 *
 * The service is an oracle: the reply to the k-th attempt to open a session
 * and the k-th poll of a solver are fixed in advance, which covers every
 * behaviour of the server. The do-while loop of the source need not end (the
 * server may stay busy), so the model runs it with fuel.
 */
module FitnessEvaluation {
  import opened Common
  import opened Evaluations
  import opened EvaluationCaches
  import opened Scheduling
  import opened Individuals
  import opened Selections

  // ---------------------------------------------------------------------
  // The remote solver service and one call's parameters
  // ---------------------------------------------------------------------

  /**
   * What a poll of a solver reports (`getStatus`) and, once it has
   * completed, its result (`getResult`), the costs in the file it hands back
   * (`getCostFile`) and the local name of its JJ file (`getJJFile`).
   */
  datatype Poll = Poll(status: int, fitness: real, costs: seq<real>, jjFile: string)

  /**
   * The remote solver service as one call of `evaluate_fitness` sees it:
   * the reply to the k-th attempt to open a session (`new Solver`), None when
   * no session is free (the constructor throws) and otherwise the protocol
   * version the server reports, and the k-th poll.
   */
  datatype Oracle = Oracle(session: nat -> Option<int>, poll: nat -> Poll)

  /**
   * A completed solver hands back between 1 and n costs: `read_cost_file`
   * fills the individual's buffer of n costs, and the cross-check reads the
   * last of them.
   */
  ghost predicate Answers(o: Oracle, n: nat)
  {
    forall k: nat :: o.poll(k).status == Completed ==> 1 <= |o.poll(k).costs| <= n
  }

  /**
   * The parameters of one call: the genome length, `protection_type`,
   * `model_type`, `count_evals`, `max_cost`, whether the solver's JJ file is
   * kept in the cache (the model is YPLUS_MODEL or `run_elimination` is set)
   * and `injjfilename`.
   */
  datatype Call = Call(genomeSize: nat, protection: int, model: int, countEvals: bool, maxCost: real,
                       keepJJFile: bool, inJJFile: string)

  /** A `runProtection` request: input JJ file, the genome, protection type, model and cost ceiling. */
  datatype SolverRun = SolverRun(inJJFile: string, genes: seq<int>, protection: int, model: int, maxCost: real)

  /**
   * The state of a call: the slots, the individuals, the cache's entries
   * and deleted JJ files, `number_of_evals` and `number_of_counted_evals`,
   * how many session replies and polls have been used, and the requests
   * sent to the server so far.
   */
  datatype Run = Run(slots: Slots, pool: seq<Individual>, entries: map<Key, Entry>, removed: seq<string>,
                     evals: int, counted: int, sessions: nat, polls: nat, issued: seq<SolverRun>)

  /** Where a pass stands: the state, whether every slot so far was settled, and how it ended. */
  datatype Progress = Progress(run: Run, complete: bool, outcome: Outcome)

  predicate Fits(c: Call, r: Run)
  {
    Sized(r.slots, |r.pool|) && Shaped(r.pool, c.genomeSize)
  }

  /** The cache key of an individual for this call. */
  function SlotKey(c: Call, x: Individual): (k: Key)
    requires c.genomeSize <= |x.genes|
    ensures k.model == c.model && k.genes == x.genes[..c.genomeSize]
  {
    Key(c.model, x.genes[..c.genomeSize])
  }

  /** The JJ file `add` deletes when it replaces the entry for k. */
  function DeletedFile(entries: map<Key, Entry>, k: Key): (files: seq<string>)
    ensures |files| <= 1
    ensures files != [] <==> k in entries && entries[k].jjFile.Some?
  {
    if k in entries && entries[k].jjFile.Some? then [entries[k].jjFile.value] else []
  }

  // ---------------------------------------------------------------------
  // One slot, one pass, the loop
  // ---------------------------------------------------------------------

  /**
   * The body of the loop of `evaluate_fitness` for slot i. A slot whose
   * countdown runs only counts down. A slot waiting for a session tries to
   * open one: when none is free every waiting slot backs off; otherwise the
   * protocol is checked, the input JJ file is found (`injjfilename` for
   * YPLUS_MODEL, else the cached YPLUS_MODEL file of the genome) and the
   * run is requested. A running slot is polled: still running backs off,
   * completed stores the result in the individual and the cache, counts the
   * evaluation and lets every waiting slot try again at once. Every fatal
   * error is error 1: a protocol other than 4, a missing YPLUS_MODEL file, a
   * fitness that differs from the last cost by FLOAT_PRECISION or more, and
   * any other poll status. Complete and duplicate slots are left alone.
   */
  function Turn(o: Oracle, c: Call, r: Run, i: int, complete: bool): (p: Progress)
    requires Answers(o, c.genomeSize) && Fits(c, r) && 0 <= i < |r.pool|
    ensures p.outcome.Finished? ==> Fits(c, p.run) && |p.run.pool| == |r.pool|
    ensures p.complete ==> complete
  {
    var s := r.slots;
    var x := r.pool[i];
    if s.counter[i] != 0 then
      Progress(r.(slots := OnWait(s, i)), false, Finished)
    else if s.status[i] == Unallocated then
      match o.session(r.sessions)
      case None =>
        Progress(r.(slots := OnBusy(s, i), sessions := r.sessions + 1), false, Finished)
      case Some(protocol) =>
        var file := InputJJFile(c, r.entries, x);
        if protocol != ProtocolVersion || file.None? then Progress(r, false, Failed(1))
        else Progress(Started(c, r, i, file.value), false, Finished)
    else if s.status[i] == NotStarted || s.status[i] == Running then
      var q := o.poll(r.polls);
      if q.status == NotStarted || q.status == Running then
        Progress(r.(slots := OnStillRunning(s, i, q.status), polls := r.polls + 1), false, Finished)
      else if q.status != Completed then Progress(r, false, Failed(1))
      else if Abs(q.fitness - q.costs[|q.costs| - 1]) >= FloatPrecision then Progress(r, false, Failed(1))
      else Progress(Completion(c, r, i, q), complete, Finished)
    else
      Progress(r, complete, Finished)
  }

  /**
   * The input JJ file of a run: `injjfilename` under YPLUS_MODEL, otherwise
   * the cached YPLUS_MODEL file of the genome (`jjFile`), None when there is
   * none.
   */
  function InputJJFile(c: Call, entries: map<Key, Entry>, x: Individual): Option<string>
    requires c.genomeSize <= |x.genes|
  {
    var yplus := Key(YPlusModel, x.genes[..c.genomeSize]);
    if c.model == YPlusModel then Some(c.inJJFile)
    else if yplus in entries then entries[yplus].jjFile
    else None
  }

  /** A session was opened for slot i: the run is requested and the slot is not started. */
  function Started(c: Call, r: Run, i: int, inJJFile: string): (r': Run)
    requires Fits(c, r) && 0 <= i < |r.pool|
    ensures Fits(c, r') && r'.pool == r.pool
  {
    var request := SolverRun(inJJFile, r.pool[i].genes, c.protection, c.model, c.maxCost);
    r.(slots := OnSession(r.slots, i), sessions := r.sessions + 1, issued := r.issued + [request])
  }

  /**
   * Slot i's solver completed with poll q: the individual takes the costs
   * and fitness, the cache stores them (with the JJ file when it is kept),
   * the evaluation is counted, and the slot is complete.
   */
  function Completion(c: Call, r: Run, i: int, q: Poll): (r': Run)
    requires Fits(c, r) && 0 <= i < |r.pool| && r.slots.status[i] != Unallocated && |q.costs| <= c.genomeSize
    ensures Fits(c, r') && |r'.pool| == |r.pool|
  {
    var x := r.pool[i];
    var key := SlotKey(c, x);
    var file := if c.keepJJFile then Some(q.jjFile) else None;
    Run(OnCompleted(r.slots, i), r.pool[i := x.(costs := q.costs, fitness := q.fitness)],
        r.entries[key := Entry(file, q.costs, q.fitness)], r.removed + DeletedFile(r.entries, key),
        r.evals + 1, if c.countEvals then r.counted + 1 else r.counted,
        r.sessions, r.polls + 1, r.issued)
  }

  /** One pass of the do-while loop over the first k slots; `complete` starts true. */
  function PassTo(o: Oracle, c: Call, r: Run, k: nat): (p: Progress)
    requires Answers(o, c.genomeSize) && Fits(c, r) && k <= |r.pool|
    ensures p.outcome.Finished? ==> Fits(c, p.run) && |p.run.pool| == |r.pool|
    decreases k
  {
    if k == 0 then Progress(r, true, Finished)
    else
      var p := PassTo(o, c, r, k - 1);
      if !p.outcome.Finished? then p else Turn(o, c, p.run, k - 1, p.complete)
  }

  /** The do-while loop: passes until one finds every slot settled, at most `rounds` passes after the first. */
  function Scheduled(o: Oracle, c: Call, r: Run, rounds: nat): (p: Progress)
    requires Answers(o, c.genomeSize) && Fits(c, r)
    ensures p.outcome.Finished? ==> Fits(c, p.run) && |p.run.pool| == |r.pool| && p.complete
    decreases rounds
  {
    var p := PassTo(o, c, r, |r.pool|);
    if !p.outcome.Finished? || p.complete then p
    else if rounds == 0 then Progress(p.run, false, FuelExhausted)
    else Scheduled(o, c, p.run, rounds - 1)
  }

  // ---------------------------------------------------------------------
  // Before and after the loop
  // ---------------------------------------------------------------------

  /** The first loop of `evaluate_fitness`: cached individuals take the cached costs and fitness. */
  function Loaded(pool: seq<Individual>, entries: map<Key, Entry>, c: Call): (r: seq<Individual>)
    requires Shaped(pool, c.genomeSize) && CostsWithin(entries, c.genomeSize)
    ensures |r| == |pool| && Shaped(r, c.genomeSize)
  {
    seq(|pool|, i requires 0 <= i < |pool| =>
      var k := SlotKey(c, pool[i]);
      if k in entries then pool[i].(costs := entries[k].costs, fitness := entries[k].fitness) else pool[i])
  }

  /**
   * The state the loop starts from: the initial statuses (complete for a
   * cached individual, duplicate for a later copy of an uncached one,
   * waiting otherwise), every delay and countdown 0, nothing asked of the
   * server.
   */
  function Begin(c: Call, pool: seq<Individual>, entries: map<Key, Entry>, removed: seq<string>,
                 evals: int, counted: int): (r: Run)
    requires Shaped(pool, c.genomeSize) && CostsWithin(entries, c.genomeSize)
    ensures Fits(c, r) && |r.pool| == |pool|
  {
    Run(StartSlots(PoolKeys(pool, c.model, c.genomeSize), entries.Keys), Loaded(pool, entries, c),
        entries, removed, evals, counted, 0, 0, [])
  }

  /** The first position with the key at j: the individual a duplicate at j is filled from. */
  function Representative(keys: seq<Key>, j: int): (f: int)
    requires 0 <= j < |keys|
    ensures 0 <= f <= j && keys[f] == keys[j] && keys[j] !in keys[..f]
  {
    FirstIndexBefore(keys, j);
    FirstIndex(keys, keys[j])
  }

  /** The last loop: every duplicate takes the costs and fitness of the first individual with its genome. */
  function Filled(pool: seq<Individual>, keys: seq<Key>, status: seq<int>): (r: seq<Individual>)
    requires |pool| == |keys| == |status|
    ensures |r| == |pool|
  {
    seq(|pool|, j requires 0 <= j < |pool| =>
      if status[j] == Duplicate then
        var f := pool[Representative(keys, j)];
        pool[j].(costs := f.costs, fitness := f.fitness)
      else pool[j])
  }

  /** A whole call of `evaluate_fitness` on a pool, a cache and the evaluation counters. */
  function Evaluated(o: Oracle, c: Call, pool: seq<Individual>, entries: map<Key, Entry>, removed: seq<string>,
                     evals: int, counted: int, rounds: nat): (p: Progress)
    requires Answers(o, c.genomeSize) && Shaped(pool, c.genomeSize) && CostsWithin(entries, c.genomeSize)
    ensures p.outcome.Finished? ==> |p.run.pool| == |pool|
  {
    var keys := PoolKeys(pool, c.model, c.genomeSize);
    var p := Scheduled(o, c, Begin(c, pool, entries, removed, evals, counted), rounds);
    if !p.outcome.Finished? then p
    else p.(run := p.run.(pool := Filled(p.run.pool, keys, p.run.slots.status)))
  }

  // ---------------------------------------------------------------------
  // What the loop keeps
  // ---------------------------------------------------------------------

  /** The delays the back-off reaches from 0: 0 and the powers of two up to 128. */
  predicate IsDelay(d: int)
  {
    d == 0 || d == 1 || d == 2 || d == 4 || d == 8 || d == 16 || d == 32 || d == 64 || d == MaxDelay
  }

  /** Slot i needs nothing more: it is complete or a duplicate. */
  predicate Settles(s: Slots, i: int)
    requires 0 <= i < |s.status|
  {
    s.status[i] == Completed || s.status[i] == Duplicate
  }

  /**
   * What slot i keeps from the start s0: it is a duplicate exactly when it
   * started as one, a cached slot stays complete, the status is one of the
   * five of the loop, a settled slot has no delay or countdown, and the
   * countdown never exceeds the delay, which is one the back-off reaches.
   */
  predicate Tracked(s0: Slots, s: Slots, i: int)
    requires 0 <= i < |s0.status| && 0 <= i < |s.status| && |s.delay| == |s.counter| == |s.status|
  {
    (s.status[i] == Duplicate <==> s0.status[i] == Duplicate) &&
    (s0.status[i] == Completed ==> s.status[i] == Completed) &&
    (s.status[i] == Duplicate || Unallocated <= s.status[i] <= Completed) &&
    (Settles(s, i) ==> s.delay[i] == 0 && s.counter[i] == 0) &&
    IsDelay(s.delay[i]) && 0 <= s.counter[i] <= s.delay[i]
  }

  /** The keys evaluated so far: those of the slots that needed a solver and are complete. */
  ghost function Solved(keys: seq<Key>, cached: set<Key>, status: seq<int>): set<Key>
    requires |status| == |keys|
  {
    set i | 0 <= i < |keys| && NeedsSolver(keys, cached, i) && status[i] == Completed :: keys[i]
  }

  /** The cache holds the costs and fitness of x under key k. */
  predicate Holds(entries: map<Key, Entry>, k: Key, x: Individual)
  {
    k in entries && entries[k].costs == x.costs && entries[k].fitness == x.fitness
  }

  /**
   * What the slots keep from the start s0: every slot is tracked, and the
   * slots waiting for a session share their delay.
   */
  ghost predicate SlotsKept(s0: Slots, s: Slots)
  {
    Sized(s0, |s0.status|) && Sized(s, |s0.status|) &&
    (forall i :: 0 <= i < |s0.status| ==> Tracked(s0, s, i)) &&
    WaitingShareDelay(s)
  }

  /**
   * What the cache keeps from the start r0: every complete individual agrees
   * with the cache, the cached entries stay, the cache grows by exactly the
   * keys solved so far (so nothing is replaced and no file is deleted), and
   * each solved key was one evaluation, counted when the call counts.
   */
  ghost predicate CacheKept(c: Call, r0: Run, r: Run)
    requires Fits(c, r0) && Fits(c, r) && |r.pool| == |r0.pool|
  {
    CacheAgrees(PoolKeys(r0.pool, c.model, c.genomeSize), r0.entries, r.slots.status, r.pool, r.entries) &&
    r.removed == r0.removed &&
    r.evals == r0.evals + |r.entries| - |r0.entries| &&
    r.counted == r0.counted + (if c.countEvals then r.evals - r0.evals else 0)
  }

  /**
   * The individuals and the cache agree: every complete individual has the
   * cached result of its key, the entries cached at the start e0 stay, and
   * the cache holds exactly those and the keys solved so far.
   */
  ghost predicate CacheAgrees(keys: seq<Key>, e0: map<Key, Entry>, status: seq<int>, pool: seq<Individual>,
                              entries: map<Key, Entry>)
    requires |status| == |keys| == |pool|
  {
    (forall i :: 0 <= i < |keys| && status[i] == Completed ==> Holds(entries, keys[i], pool[i])) &&
    (forall k :: k in e0 ==> k in entries && entries[k] == e0[k]) &&
    entries.Keys == e0.Keys + Solved(keys, e0.Keys, status)
  }

  /** The genomes of a pool, in order. */
  function GenesOf(pool: seq<Individual>): (g: seq<seq<int>>)
    ensures |g| == |pool| && forall i :: 0 <= i < |pool| ==> g[i] == pool[i].genes
  {
    seq(|pool|, i requires 0 <= i < |pool| => pool[i].genes)
  }

  /** Every request is for one of the genomes and carries the call's protection, model and ceiling. */
  predicate Requests(c: Call, genomes: seq<seq<int>>, issued: seq<SolverRun>)
  {
    forall j :: 0 <= j < |issued| ==>
      issued[j].genes in genomes &&
      issued[j].protection == c.protection && issued[j].model == c.model && issued[j].maxCost == c.maxCost
  }

  /** What the loop keeps of a call that started at r0. */
  ghost predicate Inv(c: Call, r0: Run, r: Run)
    requires Fits(c, r0)
  {
    Fits(c, r) && |r.pool| == |r0.pool| &&
    (forall i :: 0 <= i < |r0.pool| ==> r.pool[i].genes == r0.pool[i].genes) &&
    SlotsKept(r0.slots, r.slots) && CacheKept(c, r0, r) && Requests(c, GenesOf(r0.pool), r.issued)
  }

  /** The start of a call as Begin sets it up: its statuses are the initial ones. */
  ghost predicate Started0(c: Call, r0: Run)
  {
    Fits(c, r0) && r0.issued == [] &&
    var keys := PoolKeys(r0.pool, c.model, c.genomeSize);
    forall i :: 0 <= i < |r0.pool| ==> r0.slots.status[i] == InitialStatus(keys, r0.entries.Keys, i)
  }

  /** Two slots that need a solver never share a key. */
  lemma NeedersDistinct(keys: seq<Key>, cached: set<Key>, i: int, j: int)
    requires 0 <= i < |keys| && 0 <= j < |keys| && keys[i] == keys[j]
    requires NeedsSolver(keys, cached, i) && NeedsSolver(keys, cached, j)
    ensures i == j
  {
  }

  /** A slot that is neither cached nor a duplicate at the start is one that needs a solver. */
  lemma NeedsSolverAt(c: Call, r0: Run, i: int)
    requires Started0(c, r0) && 0 <= i < |r0.pool|
    requires r0.slots.status[i] != Completed && r0.slots.status[i] != Duplicate
    ensures NeedsSolver(PoolKeys(r0.pool, c.model, c.genomeSize), r0.entries.Keys, i)
  {
    FirstIndexBefore(PoolKeys(r0.pool, c.model, c.genomeSize), i);
  }

  lemma SolvedSame(keys: seq<Key>, cached: set<Key>, st: seq<int>, st': seq<int>)
    requires |st| == |keys| && |st'| == |keys|
    requires forall i :: 0 <= i < |keys| ==> (st[i] == Completed <==> st'[i] == Completed)
    ensures Solved(keys, cached, st') == Solved(keys, cached, st)
  {
  }

  lemma SolvedGrows(keys: seq<Key>, cached: set<Key>, st: seq<int>, i: int)
    requires |st| == |keys| && 0 <= i < |keys| && NeedsSolver(keys, cached, i)
    ensures Solved(keys, cached, st[i := Completed]) == Solved(keys, cached, st) + {keys[i]}
  {
  }

  /** The state a call starts from meets the invariant, with the initial statuses. */
  lemma BeginKeeps(c: Call, pool: seq<Individual>, entries: map<Key, Entry>, removed: seq<string>,
                   evals: int, counted: int)
    requires Shaped(pool, c.genomeSize) && CostsWithin(entries, c.genomeSize)
    ensures var r0 := Begin(c, pool, entries, removed, evals, counted);
            Started0(c, r0) && Inv(c, r0, r0) &&
            PoolKeys(r0.pool, c.model, c.genomeSize) == PoolKeys(pool, c.model, c.genomeSize)
  {
    var r0 := Begin(c, pool, entries, removed, evals, counted);
    var keys := PoolKeys(pool, c.model, c.genomeSize);
    assert PoolKeys(r0.pool, c.model, c.genomeSize) == keys;
    assert Solved(keys, entries.Keys, r0.slots.status) == {};
  }

  // The slots, step by step

  lemma WaitSlots(s0: Slots, s: Slots, i: int)
    requires SlotsKept(s0, s) && 0 <= i < |s.status| && s.counter[i] != 0
    ensures SlotsKept(s0, OnWait(s, i))
  {
    forall j | 0 <= j < |s.status|
      ensures Tracked(s0, OnWait(s, i), j)
    {
      assert Tracked(s0, s, j);
    }
  }

  lemma BusySlots(s0: Slots, s: Slots, i: int)
    requires SlotsKept(s0, s) && 0 <= i < |s.status| && s.status[i] == Unallocated
    ensures SlotsKept(s0, OnBusy(s, i))
  {
    assert Tracked(s0, s, i);
    forall j | 0 <= j < |s.status|
      ensures Tracked(s0, OnBusy(s, i), j)
    {
      assert Tracked(s0, s, j);
    }
    OnBusyShares(s, i);
  }

  lemma SessionSlots(s0: Slots, s: Slots, i: int)
    requires SlotsKept(s0, s) && 0 <= i < |s.status| && s.status[i] == Unallocated
    ensures SlotsKept(s0, OnSession(s, i))
  {
    forall j | 0 <= j < |s.status|
      ensures Tracked(s0, OnSession(s, i), j)
    {
      assert Tracked(s0, s, j);
    }
    OnSessionShares(s, i);
  }

  lemma StillRunningSlots(s0: Slots, s: Slots, i: int, status: int)
    requires SlotsKept(s0, s) && 0 <= i < |s.status|
    requires s.status[i] == NotStarted || s.status[i] == Running
    requires status == NotStarted || status == Running
    ensures SlotsKept(s0, OnStillRunning(s, i, status))
  {
    var s' := OnStillRunning(s, i, status);
    forall j | 0 <= j < |s.status|
      ensures Tracked(s0, s', j)
    {
      assert Tracked(s0, s, j);
    }
    forall a, b | 0 <= a < |s.status| && 0 <= b < |s.status| && s'.status[a] == Unallocated && s'.status[b] == Unallocated
      ensures s'.delay[a] == s'.delay[b]
    {
      assert s.status[a] == Unallocated && s.status[b] == Unallocated;
    }
  }

  lemma CompletedSlots(s0: Slots, s: Slots, i: int)
    requires SlotsKept(s0, s) && 0 <= i < |s.status|
    requires s.status[i] == NotStarted || s.status[i] == Running
    ensures SlotsKept(s0, OnCompleted(s, i))
  {
    assert Tracked(s0, s, i);
    forall j | 0 <= j < |s.status|
      ensures Tracked(s0, OnCompleted(s, i), j)
    {
      assert Tracked(s0, s, j);
    }
    OnCompletedShares(s, i);
  }

  // The cache, step by step

  /** A step that completes nothing and leaves the individuals and the cache alone keeps the cache's part. */
  lemma CacheKeptIdle(c: Call, r0: Run, r: Run, r': Run)
    requires Fits(c, r0) && Fits(c, r) && Fits(c, r') && |r.pool| == |r0.pool| && |r'.pool| == |r0.pool|
    requires CacheKept(c, r0, r)
    requires r'.pool == r.pool && r'.entries == r.entries && r'.removed == r.removed
    requires r'.evals == r.evals && r'.counted == r.counted
    requires forall j :: 0 <= j < |r0.pool| ==> (r'.slots.status[j] == Completed <==> r.slots.status[j] == Completed)
    ensures CacheKept(c, r0, r')
  {
    var keys := PoolKeys(r0.pool, c.model, c.genomeSize);
    SolvedSame(keys, r0.entries.Keys, r.slots.status, r'.slots.status);
  }

  /** The start slots carry the initial statuses of the keys. */
  ghost predicate Initial(keys: seq<Key>, cached: set<Key>, s0: Slots)
  {
    |s0.status| == |keys| && forall j :: 0 <= j < |keys| ==> s0.status[j] == InitialStatus(keys, cached, j)
  }

  /** A running slot needs a solver, and its key is not in the cache yet. */
  lemma RunningFresh(keys: seq<Key>, cached: set<Key>, s0: Slots, s: Slots, entries: map<Key, Entry>, i: int)
    requires Initial(keys, cached, s0) && Sized(s, |keys|) && 0 <= i < |keys| && Tracked(s0, s, i)
    requires entries.Keys == cached + Solved(keys, cached, s.status)
    requires s.status[i] == NotStarted || s.status[i] == Running
    ensures NeedsSolver(keys, cached, i) && keys[i] !in entries
  {
    FirstIndexBefore(keys, i);
    if keys[i] in Solved(keys, cached, s.status) {
      var j :| 0 <= j < |keys| && NeedsSolver(keys, cached, j) && s.status[j] == Completed && keys[j] == keys[i];
      NeedersDistinct(keys, cached, i, j);
    }
  }

  /** No complete slot other than i has the key of a slot i that needs a solver. */
  lemma OnlyHolder(keys: seq<Key>, cached: set<Key>, s0: Slots, s: Slots, i: int, j: int)
    requires Initial(keys, cached, s0) && Sized(s, |keys|) && 0 <= i < |keys| && 0 <= j < |keys| && j != i
    requires Tracked(s0, s, j) && NeedsSolver(keys, cached, i) && s.status[j] == Completed
    ensures keys[j] != keys[i]
  {
    if s0.status[j] != Completed {
      FirstIndexBefore(keys, j);
      if keys[j] == keys[i] {
        NeedersDistinct(keys, cached, i, j);
      }
    }
  }

  /**
   * A running slot i completing with entry e, which its individual x
   * carries, keeps the individuals and the cache in agreement; its key was
   * not cached before.
   */
  lemma CompletedAgrees(keys: seq<Key>, e0: map<Key, Entry>, s0: Slots, s: Slots, pool: seq<Individual>,
                        entries: map<Key, Entry>, i: int, x: Individual, e: Entry)
    requires Initial(keys, e0.Keys, s0) && Sized(s, |keys|) && |pool| == |keys| && 0 <= i < |keys|
    requires forall j :: 0 <= j < |keys| ==> Tracked(s0, s, j)
    requires s.status[i] == NotStarted || s.status[i] == Running
    requires CacheAgrees(keys, e0, s.status, pool, entries)
    requires x.costs == e.costs && x.fitness == e.fitness
    ensures keys[i] !in entries
    ensures CacheAgrees(keys, e0, s.status[i := Completed], pool[i := x], entries[keys[i] := e])
  {
    var cached := e0.Keys;
    RunningFresh(keys, cached, s0, s, entries, i);
    SolvedGrows(keys, cached, s.status, i);
    forall j | 0 <= j < |keys| && s.status[i := Completed][j] == Completed
      ensures Holds(entries[keys[i] := e], keys[j], pool[i := x][j])
    {
      if j != i {
        OnlyHolder(keys, cached, s0, s, i, j);
      }
    }
  }

  lemma CompletedCache(c: Call, r0: Run, r: Run, i: int, q: Poll)
    requires Started0(c, r0) && Fits(c, r) && |r.pool| == |r0.pool| && 0 <= i < |r.pool|
    requires forall j :: 0 <= j < |r0.pool| ==> r.pool[j].genes == r0.pool[j].genes
    requires SlotsKept(r0.slots, r.slots) && CacheKept(c, r0, r)
    requires r.slots.status[i] == NotStarted || r.slots.status[i] == Running
    requires |q.costs| <= c.genomeSize
    ensures CacheKept(c, r0, Completion(c, r, i, q))
  {
    var keys := PoolKeys(r0.pool, c.model, c.genomeSize);
    var r' := Completion(c, r, i, q);
    var x := r.pool[i].(costs := q.costs, fitness := q.fitness);
    var e := Entry(if c.keepJJFile then Some(q.jjFile) else None, q.costs, q.fitness);
    assert Initial(keys, r0.entries.Keys, r0.slots);
    assert SlotKey(c, r.pool[i]) == keys[i];
    CompletedAgrees(keys, r0.entries, r0.slots, r.slots, r.pool, r.entries, i, x, e);
    assert r'.slots.status == r.slots.status[i := Completed];
    assert r'.pool == r.pool[i := x] && r'.entries == r.entries[keys[i] := e];
  }

  // ---------------------------------------------------------------------
  // The loop, pass by pass
  // ---------------------------------------------------------------------

  /** The facts a turn leaves behind: the invariant, the other slots' statuses, and a settled slot if still complete. */
  ghost predicate TurnLeaves(c: Call, r0: Run, r: Run, i: int, p: Progress)
    requires Fits(c, r0) && 0 <= i < |r.pool| == |r0.pool| && Sized(r.slots, |r.pool|)
  {
    p.outcome.Finished? ==>
      Inv(c, r0, p.run) &&
      (forall k :: 0 <= k < |r.pool| && k != i ==> p.run.slots.status[k] == r.slots.status[k]) &&
      (p.complete ==> Settles(p.run.slots, i))
  }

  lemma TurnWaitKeeps(o: Oracle, c: Call, r0: Run, r: Run, i: int, complete: bool)
    requires Answers(o, c.genomeSize) && Started0(c, r0) && Inv(c, r0, r) && 0 <= i < |r.pool|
    requires r.slots.counter[i] != 0
    ensures TurnLeaves(c, r0, r, i, Turn(o, c, r, i, complete))
  {
    WaitSlots(r0.slots, r.slots, i);
    CacheKeptIdle(c, r0, r, r.(slots := OnWait(r.slots, i)));
  }

  lemma TurnSessionKeeps(o: Oracle, c: Call, r0: Run, r: Run, i: int, complete: bool)
    requires Answers(o, c.genomeSize) && Started0(c, r0) && Inv(c, r0, r) && 0 <= i < |r.pool|
    requires r.slots.counter[i] == 0 && r.slots.status[i] == Unallocated
    ensures TurnLeaves(c, r0, r, i, Turn(o, c, r, i, complete))
  {
    var s := r.slots;
    match o.session(r.sessions)
    case None =>
      BusySlots(r0.slots, s, i);
      CacheKeptIdle(c, r0, r, r.(slots := OnBusy(s, i), sessions := r.sessions + 1));
    case Some(protocol) =>
      var file := InputJJFile(c, r.entries, r.pool[i]);
      if protocol == ProtocolVersion && file.Some? {
        SessionSlots(r0.slots, s, i);
        CacheKeptIdle(c, r0, r, Started(c, r, i, file.value));
      }
  }

  lemma TurnPollKeeps(o: Oracle, c: Call, r0: Run, r: Run, i: int, complete: bool)
    requires Answers(o, c.genomeSize) && Started0(c, r0) && Inv(c, r0, r) && 0 <= i < |r.pool|
    requires r.slots.counter[i] == 0 && (r.slots.status[i] == NotStarted || r.slots.status[i] == Running)
    ensures TurnLeaves(c, r0, r, i, Turn(o, c, r, i, complete))
  {
    var s := r.slots;
    var q := o.poll(r.polls);
    if q.status == NotStarted || q.status == Running {
      StillRunningSlots(r0.slots, s, i, q.status);
      CacheKeptIdle(c, r0, r, r.(slots := OnStillRunning(s, i, q.status), polls := r.polls + 1));
    } else if q.status == Completed && Abs(q.fitness - q.costs[|q.costs| - 1]) < FloatPrecision {
      CompletedSlots(r0.slots, s, i);
      CompletedCache(c, r0, r, i, q);
    }
  }

  /**
   * One turn keeps the invariant, changes no other slot's status, and
   * leaves `complete` true only when slot i is settled.
   */
  lemma TurnKeeps(o: Oracle, c: Call, r0: Run, r: Run, i: int, complete: bool)
    requires Answers(o, c.genomeSize) && Started0(c, r0) && Inv(c, r0, r) && 0 <= i < |r.pool|
    ensures TurnLeaves(c, r0, r, i, Turn(o, c, r, i, complete))
  {
    var s := r.slots;
    if s.counter[i] != 0 {
      TurnWaitKeeps(o, c, r0, r, i, complete);
    } else if s.status[i] == Unallocated {
      TurnSessionKeeps(o, c, r0, r, i, complete);
    } else if s.status[i] == NotStarted || s.status[i] == Running {
      TurnPollKeeps(o, c, r0, r, i, complete);
    } else {
      assert Tracked(r0.slots, s, i);
    }
  }

  /** Slots settled before a turn at i stay settled: the turn changes no other slot's status. */
  lemma SettledCarry(s: Slots, s': Slots, i: int)
    requires Sized(s, |s.status|) && Sized(s', |s.status|) && 0 <= i < |s.status|
    requires forall j :: 0 <= j < i ==> Settles(s, j)
    requires forall j :: 0 <= j < |s.status| && j != i ==> s'.status[j] == s.status[j]
    requires Settles(s', i)
    ensures forall j :: 0 <= j <= i ==> Settles(s', j)
  {
    forall j | 0 <= j < i
      ensures Settles(s', j)
    {
      assert Settles(s, j);
    }
  }

  /** A pass keeps the invariant; when it ends complete, every slot it visited is settled. */
  lemma {:induction false} PassKeeps(o: Oracle, c: Call, r0: Run, r: Run, k: nat)
    requires Answers(o, c.genomeSize) && Started0(c, r0) && Inv(c, r0, r) && k <= |r.pool|
    ensures var p := PassTo(o, c, r, k);
            p.outcome.Finished? ==>
              Inv(c, r0, p.run) && (p.complete ==> forall j :: 0 <= j < k ==> Settles(p.run.slots, j))
  {
    if k > 0 {
      PassKeeps(o, c, r0, r, k - 1);
      var p := PassTo(o, c, r, k - 1);
      if p.outcome.Finished? {
        var p' := Turn(o, c, p.run, k - 1, p.complete);
        assert PassTo(o, c, r, k) == p';
        TurnKeeps(o, c, r0, p.run, k - 1, p.complete);
        if p'.outcome.Finished? && p'.complete {
          SettledCarry(p.run.slots, p'.run.slots, k - 1);
        }
      }
    }
  }

  /** When the loop ends, the invariant holds and every slot is complete or a duplicate. */
  lemma {:induction false} ScheduledKeeps(o: Oracle, c: Call, r0: Run, r: Run, rounds: nat)
    requires Answers(o, c.genomeSize) && Started0(c, r0) && Inv(c, r0, r)
    ensures var p := Scheduled(o, c, r, rounds);
            p.outcome.Finished? ==> Inv(c, r0, p.run) && forall j :: 0 <= j < |r0.pool| ==> Settles(p.run.slots, j)
    decreases rounds
  {
    PassKeeps(o, c, r0, r, |r.pool|);
    var p := PassTo(o, c, r, |r.pool|);
    if p.outcome.Finished? && !p.complete && rounds > 0 {
      ScheduledKeeps(o, c, r0, p.run, rounds - 1);
    }
  }

  /**
   * Once every slot is settled, every slot that needed a solver is complete:
   * the solved keys are all the missing ones, and the first individual with
   * a duplicate's genome is complete.
   */
  lemma SettledSolvesAll(keys: seq<Key>, cached: set<Key>, s0: Slots, s: Slots)
    requires Initial(keys, cached, s0) && Sized(s, |keys|)
    requires forall j :: 0 <= j < |keys| ==> Tracked(s0, s, j) && Settles(s, j)
    ensures Solved(keys, cached, s.status) == Missing(keys, cached)
    ensures forall j :: 0 <= j < |keys| && s.status[j] == Duplicate ==> s.status[Representative(keys, j)] == Completed
  {
    forall j | 0 <= j < |keys| && keys[j] !in cached
      ensures keys[j] in Solved(keys, cached, s.status) && s.status[Representative(keys, j)] == Completed
    {
      var f := Representative(keys, j);
      FirstIndexBefore(keys, f);
      assert NeedsSolver(keys, cached, f);
      assert Tracked(s0, s, f) && Settles(s, f);
    }
    forall j | 0 <= j < |keys| && s.status[j] == Duplicate
      ensures keys[j] !in cached
    {
      assert Tracked(s0, s, j);
    }
  }

  /** After the last loop every individual carries the cached result of its key. */
  lemma FilledAgrees(keys: seq<Key>, cached: set<Key>, s0: Slots, s: Slots, pool: seq<Individual>,
                     entries: map<Key, Entry>)
    requires Initial(keys, cached, s0) && Sized(s, |keys|) && |pool| == |keys|
    requires forall j :: 0 <= j < |keys| ==> Tracked(s0, s, j) && Settles(s, j)
    requires forall j :: 0 <= j < |keys| && s.status[j] == Completed ==> Holds(entries, keys[j], pool[j])
    ensures var filled := Filled(pool, keys, s.status);
            forall i :: 0 <= i < |keys| ==> filled[i].genes == pool[i].genes && Holds(entries, keys[i], filled[i])
  {
    SettledSolvesAll(keys, cached, s0, s);
    var filled := Filled(pool, keys, s.status);
    forall i | 0 <= i < |keys|
      ensures filled[i].genes == pool[i].genes && Holds(entries, keys[i], filled[i])
    {
      if s.status[i] == Duplicate {
        var f := Representative(keys, i);
        assert s.status[f] == Completed && keys[f] == keys[i];
        assert Holds(entries, keys[f], pool[f]);
        assert filled[i] == pool[i].(costs := pool[f].costs, fitness := pool[f].fitness);
      } else {
        assert Settles(s, i) && filled[i] == pool[i];
      }
    }
  }

  /** The cache ends with the cached keys and the missing ones: `solvers_required` more. */
  lemma FinalCount(keys: seq<Key>, e0: map<Key, Entry>, entries: map<Key, Entry>)
    requires entries.Keys == e0.Keys + Missing(keys, e0.Keys)
    ensures |entries| == |e0| + Required(keys, e0.Keys)
  {
    RequiredCountsDistinctMisses(keys, e0.Keys);
    assert e0.Keys * Missing(keys, e0.Keys) == {};
    assert |entries| == |entries.Keys|;
  }

  /**
   * `evaluate_fitness` as promised: when it finishes, every individual keeps
   * its genome and carries the cached costs and fitness of its key (a cache
   * hit its cached result, a duplicate the result of the first equal
   * individual), the entries cached before stay as they were, the cache
   * gains exactly the missing keys, each of them evaluated once and counted
   * when the call counts, no JJ file is deleted, and every request carries
   * the call's protection, model and cost ceiling.
   */
  lemma EvaluatedSound(o: Oracle, c: Call, pool: seq<Individual>, entries: map<Key, Entry>, removed: seq<string>,
                       evals: int, counted: int, rounds: nat)
    requires Answers(o, c.genomeSize) && Shaped(pool, c.genomeSize) && CostsWithin(entries, c.genomeSize)
    ensures var p := Evaluated(o, c, pool, entries, removed, evals, counted, rounds);
            var keys := PoolKeys(pool, c.model, c.genomeSize);
            var required := Required(keys, entries.Keys);
            p.outcome.Finished? ==>
              (forall i :: 0 <= i < |pool| ==>
                 p.run.pool[i].genes == pool[i].genes && Holds(p.run.entries, keys[i], p.run.pool[i])) &&
              (forall i :: 0 <= i < |pool| && keys[i] in entries ==> Holds(entries, keys[i], p.run.pool[i])) &&
              (forall k :: k in entries ==> k in p.run.entries && p.run.entries[k] == entries[k]) &&
              p.run.entries.Keys == entries.Keys + Missing(keys, entries.Keys) &&
              p.run.removed == removed &&
              p.run.evals == evals + required &&
              p.run.counted == counted + (if c.countEvals then required else 0) &&
              Requests(c, GenesOf(pool), p.run.issued)
  {
    var keys := PoolKeys(pool, c.model, c.genomeSize);
    var cached := entries.Keys;
    var r0 := Begin(c, pool, entries, removed, evals, counted);
    BeginKeeps(c, pool, entries, removed, evals, counted);
    ScheduledKeeps(o, c, r0, r0, rounds);
    var p := Scheduled(o, c, r0, rounds);
    if p.outcome.Finished? {
      var r := p.run;
      assert Initial(keys, cached, r0.slots);
      assert CacheAgrees(keys, entries, r.slots.status, r.pool, r.entries);
      SettledSolvesAll(keys, cached, r0.slots, r.slots);
      FilledAgrees(keys, cached, r0.slots, r.slots, r.pool, r.entries);
      FinalCount(keys, entries, r.entries);
    }
  }

  /** A pass over settled slots with no countdown changes nothing and stays complete. */
  lemma {:induction false} PassIdle(o: Oracle, c: Call, r: Run, k: nat)
    requires Answers(o, c.genomeSize) && Fits(c, r) && k <= |r.pool|
    requires forall j :: 0 <= j < k ==> r.slots.counter[j] == 0 && Settles(r.slots, j)
    ensures PassTo(o, c, r, k) == Progress(r, true, Finished)
  {
    if k > 0 {
      PassIdle(o, c, r, k - 1);
      TurnIdle(o, c, r, k - 1);
    }
  }

  /** A settled slot with no countdown is skipped. */
  lemma TurnIdle(o: Oracle, c: Call, r: Run, i: int)
    requires Answers(o, c.genomeSize) && Fits(c, r) && 0 <= i < |r.pool|
    requires r.slots.counter[i] == 0 && Settles(r.slots, i)
    ensures Turn(o, c, r, i, true) == Progress(r, true, Finished)
  {
  }

  /**
   * When no individual needs a solver (all are cached, or copies of cached
   * ones), the call asks nothing of the server: no session is opened,
   * nothing is polled, no evaluation is counted and the cache is unchanged.
   */
  lemma NothingToSolve(o: Oracle, c: Call, pool: seq<Individual>, entries: map<Key, Entry>, removed: seq<string>,
                       evals: int, counted: int, rounds: nat)
    requires Answers(o, c.genomeSize) && Shaped(pool, c.genomeSize) && CostsWithin(entries, c.genomeSize)
    requires Required(PoolKeys(pool, c.model, c.genomeSize), entries.Keys) == 0
    ensures var p := Evaluated(o, c, pool, entries, removed, evals, counted, rounds);
            p.outcome.Finished? && p.run.sessions == 0 && p.run.polls == 0 && p.run.issued == [] &&
            p.run.entries == entries && p.run.removed == removed && p.run.evals == evals && p.run.counted == counted
  {
    var keys := PoolKeys(pool, c.model, c.genomeSize);
    var r0 := Begin(c, pool, entries, removed, evals, counted);
    UnallocatedCount(keys, entries.Keys, |keys|);
    assert keys[..|keys|] == keys;
    forall j | 0 <= j < |keys|
      ensures r0.slots.counter[j] == 0 && Settles(r0.slots, j)
    {
      assert j !in NeedingSolvers(keys, entries.Keys, |keys|);
    }
    PassIdle(o, c, r0, |r0.pool|);
  }
}
