/** Building the registry: which dependencies are kept, and which registries are refused. */
module ServiceRegistry {
  import opened Results
  import opened ServiceStart

  /** A service as declared by its owner. */
  datatype Declared = Declared(name: string, dependsOn: seq<string>)

  datatype RegistryError = LoggerRequired | NoServices | DuplicateName(name: string) | CyclicDependencies

  predicate DistinctNames(services: seq<Declared>)
  {
    forall i, j :: 0 <= i < j < |services| ==> services[i].name != services[j].name
  }

  /** Position of every declared name. */
  predicate IsIndex(services: seq<Declared>, byName: map<string, nat>)
  {
    && (forall i :: 0 <= i < |services| ==> services[i].name in byName && byName[services[i].name] == i)
    && forall n :: n in byName ==> byName[n] < |services| && services[byName[n]].name == n
  }

  /** The declared dependencies that are kept: known, and not the service itself. */
  function Kept(byName: map<string, nat>, own: string, names: seq<string>): (kept: seq<nat>)
    ensures forall d :: d in kept <==> exists k :: 0 <= k < |names| && names[k] != own && names[k] in byName && byName[names[k]] == d
  {
    if names == [] then []
    else
      var last := |names| - 1;
      var before := Kept(byName, own, names[..last]);
      if names[last] == own || names[last] !in byName then before else before + [byName[names[last]]]
  }

  function KeptDependencies(services: seq<Declared>, byName: map<string, nat>): Dependencies
  {
    seq(|services|, i requires 0 <= i < |services| => Kept(byName, services[i].name, services[i].dependsOn))
  }

  ghost predicate Acyclic(deps: Dependencies)
    requires ValidDependencies(deps)
  {
    exists rank :: Ranks(deps, rank)
  }

  predicate Placeable(deps: Dependencies, placed: set<nat>, s: nat)
  {
    s < |deps| && forall d :: d in deps[s] ==> d in placed
  }

  /** A set in which everything depends on something in the set has no ranking. */
  lemma {:induction false} StuckHasNoRank(deps: Dependencies, placed: set<nat>, rank: seq<nat>, s: nat)
    requires ValidDependencies(deps) && Ranks(deps, rank) && s < |deps| && s !in placed
    requires forall t: nat :: t < |deps| && t !in placed ==> !Placeable(deps, placed, t)
    ensures false
    decreases rank[s]
  {
    assert !Placeable(deps, placed, s);
    var d :| d in deps[s] && d !in placed;
    StuckHasNoRank(deps, placed, rank, d);
  }

  /** A service not placed yet whose dependencies all are, if there is one. */
  method NextPlaceable(deps: Dependencies, placed: map<nat, nat>) returns (s: nat)
    ensures s <= |deps|
    ensures s < |deps| ==> s !in placed && Placeable(deps, placed.Keys, s)
    ensures s == |deps| ==> forall t: nat :: t < |deps| && t !in placed ==> !Placeable(deps, placed.Keys, t)
  {
    s := 0;
    while s < |deps|
      invariant s <= |deps|
      invariant forall t: nat :: t < s && t !in placed ==> !Placeable(deps, placed.Keys, t)
    {
      if s !in placed && Placeable(deps, placed.Keys, s) {
        return;
      }
      s := s + 1;
    }
  }

  ghost function Below(n: nat): (all: set<nat>)
    ensures forall i: nat :: i in all <==> i < n
  {
    if n == 0 then {} else Below(n - 1) + {n - 1}
  }

  /** Ranks given so far follow the dependencies. */
  ghost predicate Placed(deps: Dependencies, placed: map<nat, nat>)
    requires ValidDependencies(deps)
  {
    && (forall i: nat :: i in placed ==> i < |deps| && placed[i] < |placed|)
    && forall i: nat, d: nat :: i in placed && d in deps[i] ==> d in placed && placed[d] < placed[i]
  }

  lemma PlaceNext(deps: Dependencies, placed: map<nat, nat>, s: nat)
    requires ValidDependencies(deps) && Placed(deps, placed)
    requires s < |deps| && s !in placed && Placeable(deps, placed.Keys, s)
    ensures Placed(deps, placed[s := |placed|])
  {
  }

  /** Topological sort: a ranking if the dependencies have no cycle, nothing otherwise. */
  method Sort(deps: Dependencies) returns (rank: Option<seq<nat>>)
    requires ValidDependencies(deps)
    ensures rank.Some? ==> Ranks(deps, rank.value)
    ensures rank.None? ==> !Acyclic(deps)
  {
    var placed: map<nat, nat> := map[];
    ghost var all := Below(|deps|);
    var s: nat := NextPlaceable(deps, placed);
    while s < |deps|
      invariant Placed(deps, placed) && s <= |deps|
      invariant s < |deps| ==> s !in placed && Placeable(deps, placed.Keys, s)
      invariant s == |deps| ==> forall t: nat :: t < |deps| && t !in placed ==> !Placeable(deps, placed.Keys, t)
      decreases all - placed.Keys
    {
      PlaceNext(deps, placed, s);
      hide Placed, Placeable;
      ghost var left := all - placed.Keys;
      assert s in left;
      placed := placed[s := |placed|];
      assert all - placed.Keys == left - {s};
      s := NextPlaceable(deps, placed);
    }
    for i := 0 to |deps|
      invariant forall j: nat :: j < i ==> j in placed
    {
      if i !in placed {
        if Acyclic(deps) {
          ghost var r :| Ranks(deps, r);
          StuckHasNoRank(deps, placed.Keys, r, i);
        }
        return None;
      }
    }
    var ranks := seq(|deps|, j requires 0 <= j < |deps| => placed[j]);
    PlacedRanks(deps, placed, ranks);
    rank := Some(ranks);
  }

  lemma PlacedRanks(deps: Dependencies, placed: map<nat, nat>, ranks: seq<nat>)
    requires ValidDependencies(deps) && Placed(deps, placed) && |ranks| == |deps|
    requires forall j: nat :: j < |deps| ==> j in placed && ranks[j] == placed[j]
    ensures Ranks(deps, ranks)
  {
    forall t, k | 0 <= t < |deps| && 0 <= k < |deps[t]| ensures ranks[deps[t][k]] < ranks[t] {
      assert deps[t][k] in deps[t] && t in placed;
    }
  }

  lemma KeptAreValid(services: seq<Declared>, byName: map<string, nat>)
    requires IsIndex(services, byName)
    ensures ValidDependencies(KeptDependencies(services, byName))
  {
    var deps := KeptDependencies(services, byName);
    forall s, k | 0 <= s < |deps| && 0 <= k < |deps[s]| ensures deps[s][k] < |deps| {
      assert deps[s][k] in Kept(byName, services[s].name, services[s].dependsOn);
    }
  }

  method KeepDependencies(byName: map<string, nat>, own: string, names: seq<string>) returns (kept: seq<nat>)
    ensures kept == Kept(byName, own, names)
  {
    kept := [];
    for k := 0 to |names|
      invariant kept == Kept(byName, own, names[..k])
    {
      assert names[..k + 1][..k] == names[..k];
      if names[k] != own && names[k] in byName {
        kept := kept + [byName[names[k]]];
      }
    }
    assert names[..|names|] == names;
  }

  /** Services by name, or a name that occurs twice. */
  method IndexServices(services: seq<Declared>) returns (byName: map<string, nat>, duplicate: Option<string>)
    ensures duplicate.None? <==> DistinctNames(services)
    ensures duplicate.None? ==> IsIndex(services, byName)
  {
    byName := map[];
    for i := 0 to |services|
      invariant DistinctNames(services[..i]) && IsIndex(services[..i], byName)
    {
      if services[i].name in byName {
        assert services[byName[services[i].name]].name == services[i].name;
        return byName, Some(services[i].name);
      }
      byName := byName[services[i].name := i];
    }
    assert services[..|services|] == services;
    duplicate := None;
  }

  /** Accepts exactly the non-empty lists of distinct names whose kept dependencies have no
      cycle; unknown names and self-dependencies are dropped, not refused. */
  method NewRegistry(hasLogger: bool, services: seq<Declared>)
    returns (r: Result<Dependencies, RegistryError>, byName: map<string, nat>)
    ensures r.Failure? && r.error == LoggerRequired <==> !hasLogger
    ensures hasLogger && services != [] && DistinctNames(services) ==>
              IsIndex(services, byName) && ValidDependencies(KeptDependencies(services, byName))
    ensures r.Success? <==>
              && hasLogger && services != [] && DistinctNames(services)
              && ValidDependencies(KeptDependencies(services, byName)) && Acyclic(KeptDependencies(services, byName))
    ensures r.Success? ==> r.value == KeptDependencies(services, byName)
  {
    byName := map[];
    if !hasLogger {
      return Failure(LoggerRequired), byName;
    }
    if |services| == 0 {
      return Failure(NoServices), byName;
    }
    var duplicate: Option<string>;
    byName, duplicate := IndexServices(services);
    if duplicate.Some? {
      return Failure(DuplicateName(duplicate.value)), byName;
    }
    hide DistinctNames, IsIndex, Kept;
    var deps: Dependencies := [];
    for i := 0 to |services|
      invariant |deps| == i
      invariant forall j :: 0 <= j < i ==> deps[j] == Kept(byName, services[j].name, services[j].dependsOn)
    {
      var kept := KeepDependencies(byName, services[i].name, services[i].dependsOn);
      deps := deps + [kept];
    }
    KeptAreValid(services, byName);
    assert deps == KeptDependencies(services, byName);
    var rank := Sort(deps);
    if rank.None? {
      return Failure(CyclicDependencies), byName;
    }
    r := Success(deps);
  }

  /** A broadcast channel, closed at most once. */
  class Channel {
    var closed: bool

    constructor ()
      ensures !closed
    {
      closed := false;
    }

    method Close()
      requires !closed
      modifies this
      ensures closed
    {
      closed := true;
    }
  }

  /** Lifecycle of one service behind its lock. */
  class ServiceState {
    var state: Lifecycle
    const healthy: Channel

    constructor ()
      ensures state == StateStarting && fresh(healthy) && !healthy.closed
    {
      state := StateStarting;
      healthy := new Channel();
    }

    /** State and health channel are those of the service in the protocol. */
    ghost predicate Shows(v: Service)
      reads this, healthy
    {
      state == v.state && (healthy.closed <==> IsClosed(v.healthyCloses))
    }

    /** Turning running closes the health channel the first time and never again; this is the
        step of the watcher, and turning failed that of the failing goroutine. */
    method SetState(next: Lifecycle)
      modifies this, healthy
      ensures state == next
      ensures healthy.closed == (old(healthy.closed) || next == StateRunning)
      ensures next == StateRunning ==>
                forall v, s :: old(Shows(v)) ==> Shows(StepService(v, SetRunning(s)))
      ensures next == StateFailed ==>
                forall v, s :: old(Shows(v)) && v.phase.Failing? ==> Shows(StepService(v, MarkFailed(s)))
    {
      state := next;
      if next == StateRunning && !healthy.closed {
        healthy.Close();
      }
    }
  }
}
