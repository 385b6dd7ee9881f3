/** Who holds which global IP (pkg/globalnet/controllers): four kinds of objects draw on one pool, and what
    each controller does to the pool and to the status of one object. */
module Globalnet {
  import opened Wrappers

  type IP = nat

  const MAX_REQUEUES: nat := 20

  function Of(ips: seq<IP>): set<IP> {
    set ip | ip in ips
  }

  ghost predicate NoDuplicates(ips: seq<IP>) {
    forall i, j :: 0 <= i < j < |ips| ==> ips[i] != ips[j]
  }

  /** Addresses the pool can hand out. */
  ghost predicate Free(pool: set<IP>, ips: seq<IP>) {
    NoDuplicates(ips) && forall ip :: ip in ips ==> ip !in pool
  }

  /** What the pool answers to a request for `n` addresses. */
  ghost predicate Answers(pool: set<IP>, n: nat, answer: Option<seq<IP>>) {
    answer.Some? ==> |answer.value| == n && Free(pool, answer.value)
  }

  /** The pool, by its contract: it hands out free addresses, reserves given ones when they are free, and
      takes addresses back. Which addresses it picks, and whether it has any, is its own choice. */
  class IPPool {
    var taken: set<IP>

    constructor ()
      ensures taken == {}
    {
      taken := {};
    }

    method Allocate(n: nat, answer: Option<seq<IP>>) returns (ips: Option<seq<IP>>)
      requires Answers(taken, n, answer)
      modifies this
      ensures ips == answer && taken == if ips.Some? then old(taken) + Of(ips.value) else old(taken)
    {
      if answer.Some? {
        taken := taken + Of(answer.value);
      }
      return answer;
    }

    method Reserve(ips: seq<IP>, free: bool) returns (ok: bool)
      requires free ==> Free(taken, ips)
      modifies this
      ensures ok == free && taken == if ok then old(taken) + Of(ips) else old(taken)
    {
      if free {
        taken := taken + Of(ips);
      }
      return free;
    }

    method Release(ips: seq<IP>)
      modifies this
      ensures taken == old(taken) - Of(ips)
    {
      taken := taken - Of(ips);
    }
  }

  // ----- what the operations do, on values -----

  /** The pool, the addresses in the object's status, and whether the object is queued again. */
  datatype Outcome = Outcome(pool: set<IP>, held: seq<IP>, requeue: bool)

  function Flush(pool: set<IP>, ips: seq<IP>, flushes: bool, numRequeues: nat): Outcome {
    if ips == [] then Outcome(pool, ips, false)
    else if !flushes && numRequeues < MAX_REQUEUES then Outcome(pool, ips, true)
    else Outcome(pool - Of(ips), [], false)
  }

  function Allocated(pool: set<IP>, n: nat, answer: Option<seq<IP>>, programs: bool): Outcome {
    if n == 0 then Outcome(pool, [], false)
    else if answer.None? || !programs then Outcome(pool, [], true)
    else Outcome(pool + Of(answer.value), answer.value, false)
  }

  function Reallocated(pool: set<IP>, held: seq<IP>, n: nat, flushes: bool, numRequeues: nat, answer: Option<seq<IP>>,
                       programs: bool): Outcome {
    var flushed := Flush(pool, held, flushes, numRequeues);
    if n == |held| then Outcome(pool, held, false)
    else if flushed.requeue then flushed
    else Allocated(flushed.pool, n, answer, programs)
  }

  /** What can go wrong between the allocation for an ingress object and its success. */
  datatype Setup = ServiceMissing | InternalServiceFails | TargetMissing | RulesFail | SetUp

  function IngressCreated(pool: set<IP>, held: seq<IP>, fetched: bool, updates: bool, answer: Option<seq<IP>>,
                          setup: Setup): Outcome {
    if !fetched then Outcome(pool, held, true)
    else if held != [] then Outcome(pool, held, !updates)
    else if answer.None? then Outcome(pool, [], true)
    else if setup == SetUp then Outcome(pool + Of(answer.value), answer.value, false)
    else Outcome(pool, [], setup == TargetMissing || setup == RulesFail)
  }

  /** How the deletion of the internal service of an ingress object goes. */
  datatype Cleanup = CannotRetrieve | CannotRemove | Cleaned

  function IngressServiceDeleted(pool: set<IP>, held: seq<IP>, cleanup: Cleanup, numRequeues: nat): Outcome {
    if held == [] then Outcome(pool, held, false)
    else
      match cleanup
      case CannotRetrieve => Outcome(pool, held, numRequeues < MAX_REQUEUES)
      case CannotRemove => Outcome(pool, held, true)
      case Cleaned => Outcome(pool - Of(held), [], false)
  }

  function GatewayProcessed(pool: set<IP>, held: seq<IP>, ours: bool, answer: Option<seq<IP>>,
                            programs: bool): Outcome {
    if !ours || held != [] then Outcome(pool, held, false)
    else if answer.None? || !programs then Outcome(pool, [], true)
    else Outcome(pool + Of(answer.value), answer.value, false)
  }

  function GatewayReserved(pool: set<IP>, ips: seq<IP>, hasCNIIP: bool, local: bool, free: bool,
                           programs: bool): Outcome {
    if ips == [] || !hasCNIIP then Outcome(pool, ips, false)
    else if free && (!local || programs) then Outcome(pool + Of(ips), ips, false)
    else Outcome(pool, if local then [] else ips, false)
  }

  // ----- the controllers -----

  class Status {
    var allocatedIPs: seq<IP>

    constructor (ips: seq<IP>)
      ensures allocatedIPs == ips
    {
      allocatedIPs := ips;
    }
  }

  method FlushRulesAndReleaseIPs(pool: IPPool, numRequeues: nat, flushes: bool, allocatedIPs: seq<IP>)
    returns (requeue: bool)
    modifies pool
    ensures var o := Flush(old(pool.taken), allocatedIPs, flushes, numRequeues);
      pool.taken == o.pool && requeue == o.requeue
  {
    if |allocatedIPs| == 0 {
      return false;
    }
    if !flushes && numRequeues < MAX_REQUEUES {
      return true;
    }
    pool.Release(allocatedIPs);
    return false;
  }

  /** At the start an object's addresses are reserved, or cleared from its status when that fails. */
  method ReserveAllocatedIPs(pool: IPPool, status: Status, free: bool, distributes: bool, programs: bool)
    returns (ok: bool)
    requires free ==> Free(pool.taken, status.allocatedIPs)
    modifies pool, status
    ensures pool.taken == if free then old(pool.taken) + Of(old(status.allocatedIPs)) else old(pool.taken)
    ensures status.allocatedIPs == if free then old(status.allocatedIPs) else []
    ensures ok <==> if free then old(status.allocatedIPs) == [] || programs else distributes
  {
    var reserved := pool.Reserve(status.allocatedIPs, free);
    if !reserved {
      status.allocatedIPs := [];
      return distributes;
    }
    if |status.allocatedIPs| == 0 {
      return true;
    }
    return programs;
  }

  /** Allocates, programs the rules, and gives the addresses back when that fails. */
  method AllocateGlobalIPs(pool: IPPool, n: nat, status: Status, answer: Option<seq<IP>>, programs: bool)
    returns (requeue: bool)
    requires Answers(pool.taken, n, answer)
    modifies pool, status
    ensures Outcome(pool.taken, status.allocatedIPs, requeue) == Allocated(old(pool.taken), n, answer, programs)
  {
    status.allocatedIPs := [];
    if n == 0 {
      return false;
    }
    var ips := pool.Allocate(n, answer);
    if ips.None? {
      return true;
    }
    if !programs {
      pool.Release(ips.value);
      assert pool.taken == old(pool.taken);
      return true;
    }
    status.allocatedIPs := ips.value;
    return false;
  }

  class ClusterGlobalEgressIPController {
    const pool: IPPool

    constructor (pool: IPPool)
      ensures this.pool == pool
    {
      this.pool := pool;
    }

    method OnCreateOrUpdate(n: nat, status: Status, numRequeues: nat, flushes: bool, answer: Option<seq<IP>>,
                            programs: bool)
      returns (requeue: bool)
      requires Answers(Flush(pool.taken, status.allocatedIPs, flushes, numRequeues).pool, n, answer)
      modifies pool, status
      ensures Outcome(pool.taken, status.allocatedIPs, requeue)
        == Reallocated(old(pool.taken), old(status.allocatedIPs), n, flushes, numRequeues, answer, programs)
    {
      if n == |status.allocatedIPs| {
        return false;
      }
      requeue := FlushRulesAndReleaseIPs(pool, numRequeues, flushes, status.allocatedIPs);
      if requeue {
        return;
      }
      requeue := AllocateGlobalIPs(pool, n, status, answer, programs);
    }

    /** Only the instance with the well-known name and a non-negative number is acted on. */
    method Process(wellKnown: bool, numberOfIPs: int, status: Status, numRequeues: nat, flushes: bool,
                   answer: Option<seq<IP>>, programs: bool)
      returns (requeue: bool)
      requires numberOfIPs >= 0 ==>
        Answers(Flush(pool.taken, status.allocatedIPs, flushes, numRequeues).pool, numberOfIPs, answer)
      modifies pool, status
      ensures Outcome(pool.taken, status.allocatedIPs, requeue)
        == ClusterEgressProcessed(old(pool.taken), old(status.allocatedIPs), wellKnown, numberOfIPs, flushes,
          numRequeues, answer, programs)
    {
      if !wellKnown || numberOfIPs < 0 {
        return false;
      }
      requeue := OnCreateOrUpdate(numberOfIPs, status, numRequeues, flushes, answer, programs);
    }
  }

  function ClusterEgressProcessed(pool: set<IP>, held: seq<IP>, wellKnown: bool, numberOfIPs: int, flushes: bool,
                                  numRequeues: nat, answer: Option<seq<IP>>, programs: bool): Outcome {
    if !wellKnown || numberOfIPs < 0 then Outcome(pool, held, false)
    else Reallocated(pool, held, numberOfIPs, flushes, numRequeues, answer, programs)
  }

  class GlobalEgressIPController {
    const pool: IPPool
    /** The addresses an object had when its pod watcher was started, kept for its deletion. */
    var podWatchers: map<string, seq<IP>>

    constructor (pool: IPPool)
      ensures this.pool == pool && podWatchers == map[]
    {
      this.pool := pool;
      podWatchers := map[];
    }

    method CreatePodWatcher(key: string, n: nat, status: Status, starts: bool) returns (ok: bool)
      modifies this
      ensures ok <==> key in old(podWatchers) || n == 0 || starts
      ensures podWatchers == Watching(old(podWatchers), key, n, status.allocatedIPs, starts)
    {
      if key in podWatchers {
        return true;
      }
      if n == 0 {
        return true;
      }
      if !starts {
        return false;
      }
      podWatchers := podWatchers[key := status.allocatedIPs];
      return true;
    }

    method OnCreateOrUpdate(key: string, n: nat, status: Status, numRequeues: nat, flushes: bool,
                            answer: Option<seq<IP>>, programs: bool, starts: bool)
      returns (requeue: bool)
      requires Answers(Flush(pool.taken, status.allocatedIPs, flushes, numRequeues).pool, n, answer)
      modifies this, pool, status
      ensures var o :=
        Reallocated(old(pool.taken), old(status.allocatedIPs), n, flushes, numRequeues, answer, programs);
        && pool.taken == o.pool && status.allocatedIPs == o.held
        && (requeue <==> o.requeue || (key !in old(podWatchers) && n > 0 && !starts))
        && podWatchers == if o.requeue then old(podWatchers) else Watching(old(podWatchers), key, n, o.held, starts)
    {
      requeue := false;
      if n != |status.allocatedIPs| {
        requeue := FlushRulesAndReleaseIPs(pool, numRequeues, flushes, status.allocatedIPs);
        if requeue {
          return;
        }
        requeue := AllocateGlobalIPs(pool, n, status, answer, programs);
        if requeue {
          return;
        }
      }
      var watching := CreatePodWatcher(key, n, status, starts);
      requeue := !watching;
    }

    /** `crashes` tells that the source dereferences a missing pod watcher here, which ends the process. The
        status that the next try sees is the one left in `status`. */
    method OnDelete(key: string, status: Status, numRequeues: nat, flushes: bool, destroys: bool)
      returns (requeue: bool, crashes: bool)
      modifies this, pool, status
      ensures crashes <==> old(status.allocatedIPs) == [] && key !in old(podWatchers)
      ensures !crashes ==>
        var ips := DeletedIPs(old(status.allocatedIPs), old(podWatchers), key);
        var o := Flush(old(pool.taken), ips, flushes, numRequeues);
        && pool.taken == o.pool && status.allocatedIPs == ips && podWatchers == old(podWatchers) - {key}
        && (requeue <==> o.requeue || (!destroys && numRequeues < MAX_REQUEUES))
      ensures crashes ==> pool.taken == old(pool.taken) && status.allocatedIPs == []
    {
      requeue, crashes := false, false;
      var cached := if key in podWatchers then Some(podWatchers[key]) else None;
      podWatchers := podWatchers - {key};
      if |status.allocatedIPs| == 0 {
        if cached.None? {
          return false, true;
        }
        if |cached.value| > 0 {
          status.allocatedIPs := cached.value;
        }
      }
      requeue := FlushRulesAndReleaseIPs(pool, numRequeues, flushes, status.allocatedIPs);
      if requeue {
        return;
      }
      requeue := !destroys && numRequeues < MAX_REQUEUES;
    }
  }

  function Watching(podWatchers: map<string, seq<IP>>, key: string, n: nat, held: seq<IP>,
                    starts: bool): map<string, seq<IP>> {
    if key in podWatchers || n == 0 || !starts then podWatchers else podWatchers[key := held]
  }

  /** What a deletion releases: the status, or the cached addresses when the status is empty. */
  function DeletedIPs(held: seq<IP>, podWatchers: map<string, seq<IP>>, key: string): seq<IP> {
    if held == [] && key in podWatchers then podWatchers[key] else held
  }

  class GlobalIngressIPController {
    const pool: IPPool

    constructor (pool: IPPool)
      ensures this.pool == pool
    {
      this.pool := pool;
    }

    method OnCreate(status: Status, fetched: bool, updates: bool, answer: Option<seq<IP>>, setup: Setup)
      returns (requeue: bool)
      requires Answers(pool.taken, 1, answer)
      modifies pool, status
      ensures Outcome(pool.taken, status.allocatedIPs, requeue)
        == IngressCreated(old(pool.taken), old(status.allocatedIPs), fetched, updates, answer, setup)
    {
      if !fetched {
        return true;
      }
      if |status.allocatedIPs| > 0 {
        return !updates;
      }
      var ips := pool.Allocate(1, answer);
      if ips.None? {
        return true;
      }
      if setup != SetUp {
        pool.Release(ips.value);
        assert pool.taken == old(pool.taken);
        return setup == TargetMissing || setup == RulesFail;
      }
      status.allocatedIPs := ips.value;
      return false;
    }

    method OnDelete(status: Status, clusterIPService: bool, cleanup: Cleanup, flushes: bool, numRequeues: nat)
      returns (requeue: bool)
      modifies pool
      ensures var held := status.allocatedIPs;
        var o := if clusterIPService then IngressServiceDeleted(old(pool.taken), held, cleanup, numRequeues)
          else Flush(old(pool.taken), held, flushes, numRequeues);
        pool.taken == o.pool && requeue == o.requeue
    {
      if |status.allocatedIPs| == 0 {
        return false;
      }
      if clusterIPService {
        match cleanup {
          case CannotRetrieve => return numRequeues < MAX_REQUEUES;
          case CannotRemove => return true;
          case Cleaned =>
        }
        pool.Release(status.allocatedIPs);
        return false;
      }
      requeue := FlushRulesAndReleaseIPs(pool, numRequeues, flushes, status.allocatedIPs);
    }
  }

  class GatewayController {
    const pool: IPPool
    const hasCNIIP: bool

    constructor (pool: IPPool, hasCNIIP: bool)
      ensures this.pool == pool && this.hasCNIIP == hasCNIIP
    {
      this.pool := pool;
      this.hasCNIIP := hasCNIIP;
    }

    /** At the start the gateway's address is reserved; only the local gateway gives it up when that, or
        its rules, fail. */
    method ReserveAllocatedIP(status: Status, local: bool, free: bool, programs: bool, distributes: bool)
      returns (ok: bool)
      requires free ==> Free(pool.taken, status.allocatedIPs)
      modifies pool, status
      ensures var o := GatewayReserved(old(pool.taken), old(status.allocatedIPs), hasCNIIP, local, free, programs);
        pool.taken == o.pool && status.allocatedIPs == o.held
      ensures ok <==> distributes || status.allocatedIPs == old(status.allocatedIPs)
    {
      if |status.allocatedIPs| == 0 {
        return true;
      }
      if !hasCNIIP {
        return true;
      }
      ok := pool.Reserve(status.allocatedIPs, free);
      if ok && local {
        ok := programs;
        if !ok {
          pool.Release(status.allocatedIPs);
          assert pool.taken == old(pool.taken);
        }
      }
      if !ok {
        if !local {
          return true;
        }
        status.allocatedIPs := [];
        ok := distributes;
      }
    }

    /** `status` stands for the annotation with the global IP. */
    method Process(status: Status, deleted: bool, local: bool, answer: Option<seq<IP>>, programs: bool)
      returns (requeue: bool)
      requires Answers(pool.taken, 1, answer)
      modifies pool, status
      ensures deleted ==> pool.taken == old(pool.taken) - Of(old(status.allocatedIPs)) && !requeue
      ensures deleted ==> status.allocatedIPs == old(status.allocatedIPs)
      ensures !deleted ==>
        var o := GatewayProcessed(old(pool.taken), old(status.allocatedIPs), local && hasCNIIP, answer, programs);
        Outcome(pool.taken, status.allocatedIPs, requeue) == o
    {
      if deleted {
        if |status.allocatedIPs| > 0 {
          pool.Release(status.allocatedIPs);
        }
        return false;
      }
      if !local || !hasCNIIP || |status.allocatedIPs| > 0 {
        return false;
      }
      var ips := pool.Allocate(1, answer);
      if ips.None? {
        return true;
      }
      if !programs {
        pool.Release(ips.value);
        assert pool.taken == old(pool.taken);
        return true;
      }
      status.allocatedIPs := ips.value;
      return false;
    }
  }
}
