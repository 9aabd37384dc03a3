/**
 * The body of the `POST /api/get-balance` handler of main.go: reject an empty wallet
 * list, resolve every listed address, and fan the outcomes in to a balances map, an
 * errors map and the batch-wide `X-Cache` indicator.
 *
 * Goroutines, the wait group, the field mutexes and the 50-slot semaphore are replaced
 * by a sequential loop over the units in the order in which they finished. That
 * completion order is an input (a permutation of the request positions), so every
 * property below holds for every order the scheduler may pick.
 */
module Handler {
  import opened Wrappers
  import opened Resolver

  const StatusBadRequest: int := 400
  const NoWalletsMessage: string := "No wallets provided"
  const CacheHitHeader: string := "HIT"
  const CacheMissHeader: string := "MISS"

  /** Outcome of a distributed-lock call (`Lock()`, or `Unlock()` reporting `ok` and `err`). */
  datatype LockStep = LockOk | LockFailed(message: string)

  /** Everything the outside world contributes to one unit: lock, cache, provider, clock. */
  datatype UnitEnv = UnitEnv(
    acquire: LockStep,
    cached: CacheLookup,
    provider: ProviderResult,
    now: int,
    release: LockStep)

  /** One goroutine of the fan-out: the address it resolves and what it meets. */
  datatype Task = Task(address: Address, env: UnitEnv)

  /** The lines the handler prints when the lock cannot be taken or given back. */
  datatype LogEntry = AcquireFailed(address: Address, message: string) | ReleaseFailed(address: Address, message: string)

  /** The shared state the units write: the two maps, the flag, and the side effects. */
  datatype FanIn = FanIn(
    balances: map<Address, Amount>,
    errors: map<Address, string>,
    allFromCache: bool,
    cacheWrites: seq<BalanceRecord>,
    log: seq<LogEntry>)

  /** The HTTP answer: a 400 with a message, or the two maps with the `X-Cache` header. */
  datatype Response =
    | BadRequest(status: int, message: string)
    | Served(balances: map<Address, Amount>, errors: map<Address, string>, xCache: string, cacheWrites: seq<BalanceRecord>)

  /** The resolver's answer for one unit. */
  function Resolve(t: Task): Resolution
  {
    GetSolBalance(t.address, t.env.cached, t.env.provider, t.env.now)
  }

  /** The balance a unit reports: zero when its resolution failed. */
  function Settled(r: Resolution): Amount
  {
    if r.err.Some? then ZeroAmount else r.amount
  }

  /** What the lock calls of one unit print. */
  function LockLog(t: Task): seq<LogEntry>
  {
    (if t.env.acquire.LockFailed? then [AcquireFailed(t.address, t.env.acquire.message)] else [])
    + (if t.env.release.LockFailed? then [ReleaseFailed(t.address, t.env.release.message)] else [])
  }

  /** The writes one finished unit makes to the shared state. */
  function Record(s: FanIn, t: Task): FanIn
  {
    var r := Resolve(t);
    FanIn(
      s.balances[t.address := Settled(r)],
      if r.err.Some? then s.errors[t.address := r.err.value] else s.errors,
      s.allFromCache && r.fromCache,
      s.cacheWrites + (if r.cacheWrite.Some? then [r.cacheWrite.value] else []),
      s.log + LockLog(t))
  }

  /** The shared state after the given units finished, in that order. */
  function FanInOf(tasks: seq<Task>): FanIn
    decreases |tasks|
  {
    if tasks == [] then FanIn(map[], map[], true, [], [])
    else Record(FanInOf(tasks[..|tasks| - 1]), tasks[|tasks| - 1])
  }

  function Addresses(tasks: seq<Task>): set<Address>
  {
    set t | t in tasks :: t.address
  }

  function FailedAddresses(tasks: seq<Task>): set<Address>
  {
    set t | t in tasks && Resolve(t).err.Some? :: t.address
  }

  /** `order` lists every request position exactly once: the order in which the units finished. */
  ghost predicate IsCompletionOrder(order: seq<nat>, n: nat)
  {
    && |order| == n
    && (forall k :: 0 <= k < |order| ==> order[k] < n)
    && (forall j, k :: 0 <= j < k < |order| ==> order[j] != order[k])
    && (forall i :: 0 <= i < n ==> i in order)
  }

  /** The units of a request, listed in completion order. */
  function Completion(wallets: seq<Address>, env: seq<UnitEnv>, order: seq<nat>): (tasks: seq<Task>)
    requires |env| == |wallets|
    requires forall k :: 0 <= k < |order| ==> order[k] < |wallets|
    ensures |tasks| == |order|
    ensures forall k :: 0 <= k < |order| ==> tasks[k] == Task(wallets[order[k]], env[order[k]])
  {
    seq(|order|, k requires 0 <= k < |order| => Task(wallets[order[k]], env[order[k]]))
  }

  /** The response the handler sends for `wallets`, given each unit's environment and the completion order. */
  function GetBalanceResponse(wallets: seq<Address>, env: seq<UnitEnv>, order: seq<nat>): Response
    requires |env| == |wallets| && IsCompletionOrder(order, |wallets|)
  {
    if |wallets| == 0 then BadRequest(StatusBadRequest, NoWalletsMessage)
    else
      var s := FanInOf(Completion(wallets, env, order));
      Served(s.balances, s.errors, if s.allFromCache then CacheHitHeader else CacheMissHeader, s.cacheWrites)
  }

  /** What the handler prints while serving the request. */
  function GetBalanceLog(wallets: seq<Address>, env: seq<UnitEnv>, order: seq<nat>): seq<LogEntry>
    requires |env| == |wallets| && IsCompletionOrder(order, |wallets|)
  {
    if |wallets| == 0 then [] else FanInOf(Completion(wallets, env, order)).log
  }

  /**
   * One unit's goroutine body, writing into the shared state: take the lock (failure is
   * only printed), resolve, zero the balance and record the error on failure, clear
   * `allFromCache` on a live fetch, release the lock (failure is only printed) and store
   * the balance. Entries of other addresses are left alone.
   *
   * `Record` states the same step as a value for the lemmas about `FanInOf`. This
   * method is its statement-by-statement counterpart, kept apart so that the handler's
   * loop body stays one call.
   */
  method RunUnit(shared: FanIn, t: Task) returns (updated: FanIn)
    ensures updated == Record(shared, t)
    ensures forall a :: a != t.address ==>
              (a in updated.balances <==> a in shared.balances) && (a in updated.errors <==> a in shared.errors)
    ensures forall a :: a != t.address && a in shared.balances ==> updated.balances[a] == shared.balances[a]
    ensures forall a :: a != t.address && a in shared.errors ==> updated.errors[a] == shared.errors[a]
    ensures updated.allFromCache ==> shared.allFromCache
  {
    updated := shared;
    if t.env.acquire.LockFailed? {
      updated := updated.(log := updated.log + [AcquireFailed(t.address, t.env.acquire.message)]);
    }
    var r := GetSolBalance(t.address, t.env.cached, t.env.provider, t.env.now);
    if r.cacheWrite.Some? {
      updated := updated.(cacheWrites := updated.cacheWrites + [r.cacheWrite.value]);
    }
    var balance := r.amount;
    if r.err.Some? {
      balance := ZeroAmount;
      updated := updated.(errors := updated.errors[t.address := r.err.value]);
    }
    if !r.fromCache {
      updated := updated.(allFromCache := false);
    }
    if t.env.release.LockFailed? {
      updated := updated.(log := updated.log + [ReleaseFailed(t.address, t.env.release.message)]);
    }
    updated := updated.(balances := updated.balances[t.address := balance]);
  }

  /**
   * The handler: reject an empty list, otherwise run every unit, in completion order,
   * against the shared maps and flag, and answer with them and the `X-Cache` header.
   */
  method HandleGetBalance(wallets: seq<Address>, env: seq<UnitEnv>, order: seq<nat>) returns (resp: Response, log: seq<LogEntry>)
    requires |env| == |wallets| && IsCompletionOrder(order, |wallets|)
    ensures resp == GetBalanceResponse(wallets, env, order)
    ensures log == GetBalanceLog(wallets, env, order)
    ensures resp.BadRequest? <==> |wallets| == 0
    ensures resp.Served? ==> forall a :: a in resp.balances <==> a in wallets
  {
    if |wallets| == 0 {
      return BadRequest(StatusBadRequest, NoWalletsMessage), [];
    }
    ghost var tasks := Completion(wallets, env, order);
    var shared := FanIn(map[], map[], true, [], []);
    var k := 0;
    while k < |order|
      invariant 0 <= k <= |order|
      invariant shared == FanInOf(tasks[..k])
    {
      var i := order[k];
      shared := RunUnit(shared, Task(wallets[i], env[i]));
      assert tasks[..k + 1][..k] == tasks[..k];
      k := k + 1;
    }
    assert tasks[..k] == tasks;
    resp := Served(shared.balances, shared.errors, if shared.allFromCache then CacheHitHeader else CacheMissHeader, shared.cacheWrites);
    log := shared.log;
    ResponseCoversWallets(wallets, env, order);
  }

  /**
   * Whatever the completion order: the balances map has exactly the addresses of the
   * finished units, the errors map exactly those whose resolution failed, and the flag
   * stays set exactly when every unit was served from the cache.
   */
  lemma {:induction false} FanInShape(tasks: seq<Task>)
    ensures FanInOf(tasks).balances.Keys == Addresses(tasks)
    ensures FanInOf(tasks).errors.Keys == FailedAddresses(tasks)
    ensures FanInOf(tasks).allFromCache <==> forall t :: t in tasks ==> Resolve(t).fromCache
    decreases |tasks|
  {
    if tasks != [] {
      var init, last := tasks[..|tasks| - 1], tasks[|tasks| - 1];
      FanInShape(init);
      assert tasks == init + [last];
      assert forall t :: t in tasks <==> t in init || t == last;
    }
  }

  /** For an address, the unit that finished last decides its balance (last writer wins). */
  lemma {:induction false} LastWriterWins(tasks: seq<Task>, j: nat)
    requires j < |tasks|
    requires forall k :: j < k < |tasks| ==> tasks[k].address != tasks[j].address
    ensures tasks[j].address in FanInOf(tasks).balances
    ensures FanInOf(tasks).balances[tasks[j].address] == Settled(Resolve(tasks[j]))
    decreases |tasks|
  {
    if j < |tasks| - 1 {
      LastWriterWins(tasks[..|tasks| - 1], j);
    }
  }

  /** For an address, the failing unit that finished last decides its error text. */
  lemma {:induction false} LastFailureWins(tasks: seq<Task>, j: nat)
    requires j < |tasks| && Resolve(tasks[j]).err.Some?
    requires forall k :: j < k < |tasks| && Resolve(tasks[k]).err.Some? ==> tasks[k].address != tasks[j].address
    ensures tasks[j].address in FanInOf(tasks).errors
    ensures FanInOf(tasks).errors[tasks[j].address] == Resolve(tasks[j]).err.value
    decreases |tasks|
  {
    if j < |tasks| - 1 {
      LastFailureWins(tasks[..|tasks| - 1], j);
    }
  }

  /** With pairwise distinct addresses each address's entries come from its own unit only. */
  lemma DistinctTaskOutcome(tasks: seq<Task>, j: nat)
    requires j < |tasks|
    requires forall k, l :: 0 <= k < l < |tasks| ==> tasks[k].address != tasks[l].address
    ensures tasks[j].address in FanInOf(tasks).balances
    ensures FanInOf(tasks).balances[tasks[j].address] == Settled(Resolve(tasks[j]))
    ensures tasks[j].address in FanInOf(tasks).errors <==> Resolve(tasks[j]).err.Some?
    ensures Resolve(tasks[j]).err.Some? ==> FanInOf(tasks).errors[tasks[j].address] == Resolve(tasks[j]).err.value
  {
    LastWriterWins(tasks, j);
    FanInShape(tasks);
    if Resolve(tasks[j]).err.Some? {
      LastFailureWins(tasks, j);
    }
  }

  /** The addresses of the completed units are exactly the requested addresses. */
  lemma CompletionAddresses(wallets: seq<Address>, env: seq<UnitEnv>, order: seq<nat>)
    requires |env| == |wallets| && IsCompletionOrder(order, |wallets|)
    ensures forall a :: a in Addresses(Completion(wallets, env, order)) <==> a in wallets
  {
    var tasks := Completion(wallets, env, order);
    forall a | a in wallets
      ensures a in Addresses(tasks)
    {
      var i :| 0 <= i < |wallets| && wallets[i] == a;
      assert i in order;
      var k :| 0 <= k < |order| && order[k] == i;
      assert tasks[k] in tasks;
    }
  }

  /**
   * A served response lists every requested address in the balances map and no other,
   * lists in the errors map only requested addresses whose resolution failed, and says
   * HIT exactly when every unit was served from the cache.
   */
  lemma ResponseCoversWallets(wallets: seq<Address>, env: seq<UnitEnv>, order: seq<nat>)
    requires |env| == |wallets| && IsCompletionOrder(order, |wallets|)
    requires |wallets| > 0
    ensures GetBalanceResponse(wallets, env, order).Served?
    ensures forall a :: a in GetBalanceResponse(wallets, env, order).balances <==> a in wallets
    ensures forall a :: a in GetBalanceResponse(wallets, env, order).errors ==> a in wallets
    ensures forall i :: 0 <= i < |wallets| && Resolve(Task(wallets[i], env[i])).err.Some? ==>
              wallets[i] in GetBalanceResponse(wallets, env, order).errors
    ensures GetBalanceResponse(wallets, env, order).xCache == CacheHitHeader <==>
              forall i :: 0 <= i < |wallets| ==> Resolve(Task(wallets[i], env[i])).fromCache
  {
    var tasks := Completion(wallets, env, order);
    FanInShape(tasks);
    CompletionAddresses(wallets, env, order);
    forall i | 0 <= i < |wallets|
      ensures Task(wallets[i], env[i]) in tasks
    {
      assert i in order;
      var k :| 0 <= k < |order| && order[k] == i;
      assert tasks[k] == Task(wallets[i], env[i]);
    }
  }

  /** Request positions hold pairwise distinct addresses. */
  ghost predicate DistinctWallets(wallets: seq<Address>)
  {
    forall j, k :: 0 <= j < k < |wallets| ==> wallets[j] != wallets[k]
  }

  /**
   * With distinct addresses, each address's balance and error entry are those of its
   * own unit: zero and the error text on failure, the resolved amount and no error
   * entry on success, whatever the completion order.
   */
  lemma DistinctWalletOutcome(wallets: seq<Address>, env: seq<UnitEnv>, order: seq<nat>, i: nat)
    requires |env| == |wallets| && IsCompletionOrder(order, |wallets|)
    requires DistinctWallets(wallets) && i < |wallets|
    ensures GetBalanceResponse(wallets, env, order).Served?
    ensures wallets[i] in GetBalanceResponse(wallets, env, order).balances
    ensures GetBalanceResponse(wallets, env, order).balances[wallets[i]] == Settled(Resolve(Task(wallets[i], env[i])))
    ensures wallets[i] in GetBalanceResponse(wallets, env, order).errors <==> Resolve(Task(wallets[i], env[i])).err.Some?
    ensures Resolve(Task(wallets[i], env[i])).err.Some? ==>
              GetBalanceResponse(wallets, env, order).errors[wallets[i]] == Resolve(Task(wallets[i], env[i])).err.value
  {
    var tasks := Completion(wallets, env, order);
    assert i in order;
    var k :| 0 <= k < |order| && order[k] == i;
    DistinctTaskOutcome(tasks, k);
  }

  /** With distinct addresses the completion order does not change the response's maps or header. */
  lemma CompletionOrderIrrelevant(wallets: seq<Address>, env: seq<UnitEnv>, order1: seq<nat>, order2: seq<nat>)
    requires |env| == |wallets| && IsCompletionOrder(order1, |wallets|) && IsCompletionOrder(order2, |wallets|)
    requires DistinctWallets(wallets) && |wallets| > 0
    ensures GetBalanceResponse(wallets, env, order1).balances == GetBalanceResponse(wallets, env, order2).balances
    ensures GetBalanceResponse(wallets, env, order1).errors == GetBalanceResponse(wallets, env, order2).errors
    ensures GetBalanceResponse(wallets, env, order1).xCache == GetBalanceResponse(wallets, env, order2).xCache
  {
    var r1, r2 := GetBalanceResponse(wallets, env, order1), GetBalanceResponse(wallets, env, order2);
    ResponseCoversWallets(wallets, env, order1);
    ResponseCoversWallets(wallets, env, order2);
    forall i | 0 <= i < |wallets|
      ensures r1.balances[wallets[i]] == r2.balances[wallets[i]]
      ensures wallets[i] in r1.errors <==> wallets[i] in r2.errors
      ensures wallets[i] in r1.errors ==> r1.errors[wallets[i]] == r2.errors[wallets[i]]
    {
      DistinctWalletOutcome(wallets, env, order1, i);
      DistinctWalletOutcome(wallets, env, order2, i);
    }
    assert r1.balances.Keys == r2.balances.Keys;
    assert r1.errors.Keys == r2.errors.Keys;
  }

  /** Two runs whose units meet the same cache, provider and clock and differ at most in their lock outcomes. */
  ghost predicate SameButLocks(tasks1: seq<Task>, tasks2: seq<Task>)
  {
    && |tasks1| == |tasks2|
    && forall k :: 0 <= k < |tasks1| ==>
         && tasks1[k].address == tasks2[k].address
         && tasks1[k].env.cached == tasks2[k].env.cached
         && tasks1[k].env.provider == tasks2[k].env.provider
         && tasks1[k].env.now == tasks2[k].env.now
  }

  /** Lock outcomes reach only the log: the maps, the flag and the cache writes do not depend on them. */
  lemma {:induction false} LocksOnlyLogged(tasks1: seq<Task>, tasks2: seq<Task>)
    requires SameButLocks(tasks1, tasks2)
    ensures FanInOf(tasks1).balances == FanInOf(tasks2).balances
    ensures FanInOf(tasks1).errors == FanInOf(tasks2).errors
    ensures FanInOf(tasks1).allFromCache == FanInOf(tasks2).allFromCache
    ensures FanInOf(tasks1).cacheWrites == FanInOf(tasks2).cacheWrites
    decreases |tasks1|
  {
    if tasks1 != [] {
      var n := |tasks1| - 1;
      LocksOnlyLogged(tasks1[..n], tasks2[..n]);
      assert Resolve(tasks1[n]) == Resolve(tasks2[n]);
    }
  }

  /** A failed lock acquisition does not stop resolution: the response is the one an acquired lock gives. */
  lemma LockFailureDoesNotStopResolution(wallets: seq<Address>, env1: seq<UnitEnv>, env2: seq<UnitEnv>, order: seq<nat>)
    requires |env1| == |wallets| && |env2| == |wallets| && IsCompletionOrder(order, |wallets|)
    requires forall i :: 0 <= i < |wallets| ==>
               env1[i].cached == env2[i].cached && env1[i].provider == env2[i].provider && env1[i].now == env2[i].now
    ensures GetBalanceResponse(wallets, env1, order) == GetBalanceResponse(wallets, env2, order)
  {
    LocksOnlyLogged(Completion(wallets, env1, order), Completion(wallets, env2, order));
  }

  /** Every failed lock call is printed, naming the address and the lock's error. */
  lemma {:induction false} LockFailuresLogged(tasks: seq<Task>)
    ensures forall t :: t in tasks && t.env.acquire.LockFailed? ==>
              AcquireFailed(t.address, t.env.acquire.message) in FanInOf(tasks).log
    ensures forall t :: t in tasks && t.env.release.LockFailed? ==>
              ReleaseFailed(t.address, t.env.release.message) in FanInOf(tasks).log
    decreases |tasks|
  {
    if tasks != [] {
      var init, last := tasks[..|tasks| - 1], tasks[|tasks| - 1];
      LockFailuresLogged(init);
      assert tasks == init + [last];
      assert forall t :: t in tasks <==> t in init || t == last;
    }
  }

  /** The queued cache writes are exactly the writes of the units whose live fetch succeeded. */
  lemma {:induction false} CacheWritesOfUnits(tasks: seq<Task>)
    ensures forall w :: w in FanInOf(tasks).cacheWrites <==>
              exists k :: 0 <= k < |tasks| && Resolve(tasks[k]).cacheWrite == Some(w)
    decreases |tasks|
  {
    if tasks != [] {
      var n := |tasks| - 1;
      CacheWritesOfUnits(tasks[..n]);
      forall w | w in FanInOf(tasks).cacheWrites
        ensures exists k :: 0 <= k < |tasks| && Resolve(tasks[k]).cacheWrite == Some(w)
      {
        if w in FanInOf(tasks[..n]).cacheWrites {
          var k :| 0 <= k < n && Resolve(tasks[..n][k]).cacheWrite == Some(w);
          assert tasks[..n][k] == tasks[k];
        } else {
          assert Resolve(tasks[n]).cacheWrite == Some(w);
        }
      }
      forall w, k | 0 <= k < |tasks| && Resolve(tasks[k]).cacheWrite == Some(w)
        ensures w in FanInOf(tasks).cacheWrites
      {
        if k < n {
          assert tasks[..n][k] == tasks[k];
        }
      }
    }
  }

  /**
   * With distinct addresses the cache receives the amounts the response reports: every
   * queued write is for a listed address and carries that address's reported balance.
   */
  lemma CacheAgreesWithResponse(wallets: seq<Address>, env: seq<UnitEnv>, order: seq<nat>)
    requires |env| == |wallets| && IsCompletionOrder(order, |wallets|)
    requires DistinctWallets(wallets) && |wallets| > 0
    ensures forall w :: w in GetBalanceResponse(wallets, env, order).cacheWrites ==>
              w.wallet in GetBalanceResponse(wallets, env, order).balances &&
              GetBalanceResponse(wallets, env, order).balances[w.wallet] == w.amount
  {
    var tasks := Completion(wallets, env, order);
    CacheWritesOfUnits(tasks);
    forall w | w in GetBalanceResponse(wallets, env, order).cacheWrites
      ensures w.wallet in GetBalanceResponse(wallets, env, order).balances
      ensures GetBalanceResponse(wallets, env, order).balances[w.wallet] == w.amount
    {
      var k :| 0 <= k < |tasks| && Resolve(tasks[k]).cacheWrite == Some(w);
      DistinctWalletOutcome(wallets, env, order, order[k]);
    }
  }

  /** An empty wallet list is answered with 400 "No wallets provided" and resolves nothing. */
  lemma EmptyListRejected(env: seq<UnitEnv>, order: seq<nat>)
    requires |env| == 0 && IsCompletionOrder(order, 0)
    ensures GetBalanceResponse([], env, order) == BadRequest(400, "No wallets provided")
    ensures GetBalanceLog([], env, order) == []
  {
  }

  /**
   * A cached address next to an uncached one: both balances are reported, nothing
   * fails, one cache write is queued and the header says MISS, in either completion order.
   */
  lemma MixedBatchExample(order: seq<nat>, a: UnitEnv, b: UnitEnv)
    requires IsCompletionOrder(order, 2)
    requires a.cached == Hit(5.0)
    requires b.cached == Miss && b.provider == Fetched(2.0)
    ensures GetBalanceResponse(["A", "B"], [a, b], order)
            == Served(map["A" := 5.0, "B" := 2.0], map[], "MISS", [BalanceRecord("B", 2.0, b.now)])
  {
    var wallets, env := ["A", "B"], [a, b];
    var tasks := Completion(wallets, env, order);
    var ta, tb := Task("A", a), Task("B", b);
    assert Resolve(ta) == Resolution(5.0, true, None, false, None);
    assert Resolve(tb) == Resolution(2.0, false, None, true, Some(BalanceRecord("B", 2.0, b.now)));
    assert tasks[..0] == [];
    if order[0] == 0 {
      assert order[1] == 1;
      assert tasks[..1] == [ta] && tasks == [ta, tb];
      assert tasks[..1][..0] == [];
      var s0 := FanInOf(tasks[..1]);
      assert s0 == Record(FanInOf([]), ta);
      assert s0.balances == map["A" := 5.0] && s0.errors == map[] && s0.allFromCache && s0.cacheWrites == [];
      var s := FanInOf(tasks);
      assert s == Record(s0, tb);
      assert s.balances == map["A" := 5.0, "B" := 2.0] && s.errors == map[];
      assert !s.allFromCache && s.cacheWrites == [BalanceRecord("B", 2.0, b.now)];
    } else {
      assert order[0] == 1 && order[1] == 0;
      assert tasks[..1] == [tb] && tasks == [tb, ta];
      assert tasks[..1][..0] == [];
      var s0 := FanInOf(tasks[..1]);
      assert s0 == Record(FanInOf([]), tb);
      assert s0.balances == map["B" := 2.0] && s0.errors == map[] && !s0.allFromCache;
      assert s0.cacheWrites == [BalanceRecord("B", 2.0, b.now)];
      var s := FanInOf(tasks);
      assert s == Record(s0, ta);
      assert s.balances == map["A" := 5.0, "B" := 2.0] && s.errors == map[];
      assert !s.allFromCache && s.cacheWrites == [BalanceRecord("B", 2.0, b.now)];
    }
  }

  /** A single address whose provider call fails: balance 0, the error text, MISS, nothing cached. */
  lemma ProviderFailureExample(order: seq<nat>, x: UnitEnv, message: string)
    requires IsCompletionOrder(order, 1)
    requires !x.cached.Hit? && x.provider == ProviderError(message)
    ensures GetBalanceResponse(["X"], [x], order) == Served(map["X" := 0.0], map["X" := message], "MISS", [])
  {
    var tasks := Completion(["X"], [x], order);
    assert order[0] == 0;
    assert tasks == [Task("X", x)];
    assert tasks[..0] == [];
    assert Resolve(Task("X", x)) == Resolution(0.0, false, Some(message), true, None);
    var s := FanInOf(tasks);
    assert s == Record(FanInOf(tasks[..0]), Task("X", x));
    assert s.balances == map["X" := 0.0] && s.errors == map["X" := message];
    assert !s.allFromCache && s.cacheWrites == [];
  }
}
