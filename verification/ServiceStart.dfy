/** The dependency-ordered concurrent start of services, as interleaved steps of the
    goroutines of the registry. */
module ServiceStart {
  import opened Results

  datatype Cause = Cancelled | DependencyFailed | OwnError

  /** Where the goroutine of a service stands. `Waiting(k)` is the select on dependency k. */
  datatype Phase =
    | Waiting(k: nat)
    | Starting
    | InStart
    | Failing(cause: Cause)
    | Closing
    | Sending
    | Finished

  /** The goroutine that turns a service running once it reports healthy. */
  datatype Watcher = NotSpawned | Watching | SettingRunning | WatcherDone

  datatype Lifecycle = StateStarting | StateRunning | StateFailed

  /** A service with its goroutines; channels are counted by how often they were closed. */
  datatype Service = Service(
    phase: Phase,
    watcher: Watcher,
    reportsHealthy: bool,
    healthyCloses: nat,
    returnedCloses: nat,
    state: Lifecycle,
    startErr: Option<Cause>,
    startCalls: nat)

  /** One AwaitHealthy call: waiting on a service, or returned with or without an error. */
  datatype Await = AwaitAt(j: nat) | AwaitFailed | AwaitOk

  datatype Registry = Registry(
    services: seq<Service>,
    cancelled: bool,
    startQueue: nat,
    received: bool,
    awaiting: Await,
    awaitCancelled: bool)

  /** Kept dependencies of each service, by position. */
  type Dependencies = seq<seq<nat>>

  predicate ValidDependencies(deps: Dependencies)
  {
    forall s, k :: 0 <= s < |deps| && 0 <= k < |deps[s]| ==> deps[s][k] < |deps|
  }

  /** No cycles: dependencies have a smaller rank. */
  predicate Ranks(deps: Dependencies, rank: seq<nat>)
    requires ValidDependencies(deps)
  {
    |rank| == |deps| && forall s, k :: 0 <= s < |deps| && 0 <= k < |deps[s]| ==> rank[deps[s][k]] < rank[s]
  }

  datatype Action =
    | SeeHealthy(s: nat)
    | SeeReturned(s: nat)
    | SeeCancel(s: nat)
    | SpawnWatcher(s: nat)
    | CallStart(s: nat)
    | StartReturns(s: nat, failed: bool)
    | MarkFailed(s: nat)
    | CloseReturned(s: nat)
    | SendResult(s: nat)
    | ReportHealthy(s: nat)
    | WatcherSeesHealthy(s: nat)
    | WatcherSeesReturned(s: nat)
    | SetRunning(s: nat)
    | Cancel
    | ReceiveResult
    | AwaitSeesHealthy
    | AwaitSeesReturned
    | AwaitSeesCancel
    | CancelAwait

  function Initially(deps: Dependencies): Registry
  {
    Registry(seq(|deps|, i => Service(Waiting(0), NotSpawned, false, 0, 0, StateStarting, None, 0)),
             false, 0, false, if |deps| == 0 then AwaitOk else AwaitAt(0), false)
  }

  predicate IsClosed(closes: nat) { closes > 0 }

  predicate IsWaitingOn(deps: Dependencies, r: Registry, s: nat)
  {
    s < |deps| == |r.services| && r.services[s].phase.Waiting? && r.services[s].phase.k < |deps[s]|
  }

  /** The service this one is waiting on. */
  function Awaited(deps: Dependencies, r: Registry, s: nat): nat
    requires IsWaitingOn(deps, r, s)
  {
    deps[s][r.services[s].phase.k]
  }

  predicate InPhase(r: Registry, s: nat, p: Phase)
  {
    s < |r.services| && r.services[s].phase == p
  }

  predicate Enabled(deps: Dependencies, r: Registry, a: Action)
    requires ValidDependencies(deps) && |r.services| == |deps|
  {
    match a
    case SeeHealthy(s) => IsWaitingOn(deps, r, s) && IsClosed(r.services[Awaited(deps, r, s)].healthyCloses)
    case SeeReturned(s) => IsWaitingOn(deps, r, s) && IsClosed(r.services[Awaited(deps, r, s)].returnedCloses)
    case SeeCancel(s) => IsWaitingOn(deps, r, s) && r.cancelled
    case SpawnWatcher(s) => s < |deps| && r.services[s].phase == Waiting(|deps[s]|)
    case CallStart(s) => InPhase(r, s, Starting)
    case StartReturns(s, _) => InPhase(r, s, InStart)
    case MarkFailed(s) => s < |deps| && r.services[s].phase.Failing?
    case CloseReturned(s) => InPhase(r, s, Closing)
    case SendResult(s) => InPhase(r, s, Sending) && r.startQueue == 0
    case ReportHealthy(s) => s < |deps| && !r.services[s].reportsHealthy
    case WatcherSeesHealthy(s) => s < |deps| && r.services[s].watcher == Watching && r.services[s].reportsHealthy
    case WatcherSeesReturned(s) =>
      s < |deps| && r.services[s].watcher == Watching && IsClosed(r.services[s].returnedCloses)
    case SetRunning(s) => s < |deps| && r.services[s].watcher == SettingRunning
    case Cancel => !r.cancelled
    case ReceiveResult => r.startQueue > 0 && !r.received
    case AwaitSeesHealthy =>
      r.awaiting.AwaitAt? && r.awaiting.j < |deps| && IsClosed(r.services[r.awaiting.j].healthyCloses)
    case AwaitSeesReturned =>
      r.awaiting.AwaitAt? && r.awaiting.j < |deps| && IsClosed(r.services[r.awaiting.j].returnedCloses)
    case AwaitSeesCancel => r.awaiting.AwaitAt? && r.awaiting.j < |deps| && r.awaitCancelled
    case CancelAwait => !r.awaitCancelled
  }

  /** A step of one service; other services are untouched. */
  function StepService(v: Service, a: Action): Service
  {
    match a
    case SeeHealthy(_) => if v.phase.Waiting? then v.(phase := Waiting(v.phase.k + 1)) else v
    case SeeReturned(_) => v.(phase := Failing(DependencyFailed))
    case SeeCancel(_) => v.(phase := Failing(Cancelled))
    case SpawnWatcher(_) => v.(phase := Starting, watcher := Watching)
    case CallStart(_) => v.(phase := InStart, startCalls := v.startCalls + 1)
    case StartReturns(_, failed) => v.(phase := if failed then Failing(OwnError) else Closing)
    case MarkFailed(_) =>
      if v.phase.Failing? then v.(phase := Closing, state := StateFailed, startErr := Some(v.phase.cause)) else v
    case CloseReturned(_) => v.(phase := Sending, returnedCloses := v.returnedCloses + 1)
    case SendResult(_) => v.(phase := Finished)
    case ReportHealthy(_) => v.(reportsHealthy := true)
    case WatcherSeesHealthy(_) => v.(watcher := SettingRunning)
    case WatcherSeesReturned(_) => v.(watcher := WatcherDone)
    case SetRunning(_) =>
      v.(watcher := WatcherDone, state := StateRunning,
         healthyCloses := if IsClosed(v.healthyCloses) then v.healthyCloses else v.healthyCloses + 1)
    case _ => v
  }

  /** The service a step belongs to, if any. */
  function Actor(a: Action): Option<nat>
  {
    if a in {Cancel, ReceiveResult, AwaitSeesHealthy, AwaitSeesReturned, AwaitSeesCancel, CancelAwait} then None
    else Some(a.s)
  }

  function Next(deps: Dependencies, r: Registry, a: Action): (r': Registry)
    requires ValidDependencies(deps) && |r.services| == |deps| && Enabled(deps, r, a)
    ensures |r'.services| == |deps|
  {
    if Actor(a).Some? then
      var s := Actor(a).value;
      r.(services := r.services[s := StepService(r.services[s], a)],
         startQueue := if a.SendResult? then r.startQueue + 1 else r.startQueue)
    else if a == Cancel then r.(cancelled := true)
    else if a == ReceiveResult then r.(startQueue := r.startQueue - 1, received := true)
    else if a == CancelAwait then r.(awaitCancelled := true)
    else if a == AwaitSeesHealthy then
      r.(awaiting := if r.awaiting.j + 1 == |deps| then AwaitOk else AwaitAt(r.awaiting.j + 1))
    else r.(awaiting := AwaitFailed)
  }

  /** The state after a run from `r`, if every step was enabled when it was taken. */
  function RunFrom(deps: Dependencies, r: Registry, actions: seq<Action>): (r': Option<Registry>)
    requires ValidDependencies(deps) && |r.services| == |deps|
    ensures r'.Some? ==> |r'.value.services| == |deps|
  {
    if actions == [] then Some(r)
    else
      var last := |actions| - 1;
      var before := RunFrom(deps, r, actions[..last]);
      if before.None? || !Enabled(deps, before.value, actions[last]) then None
      else Some(Next(deps, before.value, actions[last]))
  }

  /** The state after a run from the start. */
  function Run(deps: Dependencies, actions: seq<Action>): (r: Option<Registry>)
    requires ValidDependencies(deps)
    ensures r.Some? ==> |r.value.services| == |deps|
  {
    RunFrom(deps, Initially(deps), actions)
  }

  // ----- safety -----

  predicate DependenciesHealthy(deps: Dependencies, r: Registry, s: nat, n: nat)
    requires ValidDependencies(deps) && |r.services| == |deps| && s < |deps| && n <= |deps[s]|
  {
    forall k :: 0 <= k < n ==> IsClosed(r.services[deps[s][k]].healthyCloses)
  }

  /** What every step keeps about a service on its own. */
  predicate LocalInvariant(v: Service)
  {
    && v.healthyCloses <= 1
    && v.returnedCloses == (if v.phase in {Sending, Finished} then 1 else 0)
    && v.startCalls <= (if v.phase.Waiting? || v.phase == Starting then 0 else 1)
    && (v.phase.Waiting? ==> v.watcher == NotSpawned)
    && (v.phase in {Starting, InStart} ==> v.watcher != NotSpawned)
    && (v.watcher == NotSpawned ==> v.healthyCloses == 0 && v.startCalls == 0)
    && (IsClosed(v.healthyCloses) ==> v.watcher == WatcherDone)
  }

  /** What every reachable state keeps for one service. */
  predicate ServiceInvariant(deps: Dependencies, r: Registry, s: nat)
    requires ValidDependencies(deps) && |r.services| == |deps| && s < |deps|
  {
    var v := r.services[s];
    && LocalInvariant(v)
    && (v.phase.Waiting? ==> v.phase.k <= |deps[s]| && DependenciesHealthy(deps, r, s, v.phase.k))
    && (v.phase in {Starting, InStart} || v.startCalls > 0 ==> DependenciesHealthy(deps, r, s, |deps[s]|))
  }

  predicate Invariant(deps: Dependencies, r: Registry)
    requires ValidDependencies(deps)
  {
    && |r.services| == |deps|
    && (forall s :: 0 <= s < |deps| ==> ServiceInvariant(deps, r, s))
    && AwaitInvariant(deps, r)
  }

  /** Channels once closed stay closed. */
  predicate ClosesGrow(r: Registry, r': Registry)
  {
    && |r.services| == |r'.services|
    && forall s :: 0 <= s < |r.services| ==>
         && r.services[s].healthyCloses <= r'.services[s].healthyCloses
         && r.services[s].returnedCloses <= r'.services[s].returnedCloses
  }

  lemma StepGrowsCloses(deps: Dependencies, r: Registry, a: Action)
    requires ValidDependencies(deps) && |r.services| == |deps| && Enabled(deps, r, a)
    ensures ClosesGrow(r, Next(deps, r, a))
  {
  }

  lemma ActorKeeps(deps: Dependencies, r: Registry, a: Action)
    requires ValidDependencies(deps) && Invariant(deps, r) && Enabled(deps, r, a) && Actor(a).Some?
    ensures ServiceInvariant(deps, Next(deps, r, a), Actor(a).value)
  {
    var s, r' := Actor(a).value, Next(deps, r, a);
    StepGrowsCloses(deps, r, a);
    assert ServiceInvariant(deps, r, s);
    LocalStep(r.services[s], a);
    var v, v' := r.services[s], r'.services[s];
    if v.phase.Waiting? {
      HealthyStays(deps, r, r', s, v.phase.k);
    }
    if v'.phase in {Starting, InStart} || v'.startCalls > 0 {
      HealthyStays(deps, r, r', s, |deps[s]|);
    }
  }

  lemma HealthyStays(deps: Dependencies, r: Registry, r': Registry, s: nat, n: nat)
    requires ValidDependencies(deps) && |r.services| == |deps| && ClosesGrow(r, r')
    requires s < |deps| && n <= |deps[s]| && DependenciesHealthy(deps, r, s, n)
    ensures DependenciesHealthy(deps, r', s, n)
  {
  }

  /** When a service takes this step. */
  predicate Ready(v: Service, a: Action)
  {
    match a
    case SeeHealthy(_) => v.phase.Waiting?
    case SeeReturned(_) => v.phase.Waiting?
    case SeeCancel(_) => v.phase.Waiting?
    case SpawnWatcher(_) => v.phase.Waiting?
    case CallStart(_) => v.phase == Starting
    case StartReturns(_, _) => v.phase == InStart
    case MarkFailed(_) => v.phase.Failing?
    case CloseReturned(_) => v.phase == Closing
    case SendResult(_) => v.phase == Sending
    case ReportHealthy(_) => !v.reportsHealthy
    case WatcherSeesHealthy(_) => v.watcher == Watching && v.reportsHealthy
    case WatcherSeesReturned(_) => v.watcher == Watching && IsClosed(v.returnedCloses)
    case SetRunning(_) => v.watcher == SettingRunning
    case _ => true
  }

  lemma LocalStep(v: Service, a: Action)
    requires LocalInvariant(v) && Ready(v, a)
    ensures LocalInvariant(StepService(v, a))
  {
  }

  lemma OthersKeep(deps: Dependencies, r: Registry, a: Action, s: nat)
    requires ValidDependencies(deps) && Invariant(deps, r) && Enabled(deps, r, a)
    requires s < |deps| && Actor(a) != Some(s)
    ensures ServiceInvariant(deps, Next(deps, r, a), s)
  {
    StepGrowsCloses(deps, r, a);
    assert ServiceInvariant(deps, r, s);
    var v := r.services[s];
    assert Next(deps, r, a).services[s] == v;
    if v.phase.Waiting? {
      HealthyStays(deps, r, Next(deps, r, a), s, v.phase.k);
    }
    if v.phase in {Starting, InStart} || v.startCalls > 0 {
      HealthyStays(deps, r, Next(deps, r, a), s, |deps[s]|);
    }
  }

  /** What AwaitHealthy has seen closed stays closed. */
  predicate AwaitInvariant(deps: Dependencies, r: Registry)
    requires |r.services| == |deps|
  {
    && (r.awaiting.AwaitAt? ==>
          && r.awaiting.j < |deps|
          && forall i :: 0 <= i < r.awaiting.j ==> IsClosed(r.services[i].healthyCloses))
    && (r.awaiting == AwaitOk ==> forall i :: 0 <= i < |deps| ==> IsClosed(r.services[i].healthyCloses))
  }

  lemma StepKeepsAwait(deps: Dependencies, r: Registry, a: Action)
    requires ValidDependencies(deps) && |r.services| == |deps| && Enabled(deps, r, a) && AwaitInvariant(deps, r)
    ensures AwaitInvariant(deps, Next(deps, r, a))
  {
    StepGrowsCloses(deps, r, a);
    hide StepService;
    if Actor(a).Some? {
      hide Enabled;
    }
  }

  lemma StepKeepsInvariant(deps: Dependencies, r: Registry, a: Action)
    requires ValidDependencies(deps) && Invariant(deps, r) && Enabled(deps, r, a)
    ensures Invariant(deps, Next(deps, r, a))
  {
    hide Next, Enabled, ServiceInvariant;
    StepKeepsAwait(deps, r, a);
    forall s | 0 <= s < |deps| ensures ServiceInvariant(deps, Next(deps, r, a), s) {
      if Actor(a) == Some(s) { ActorKeeps(deps, r, a); } else { OthersKeep(deps, r, a, s); }
    }
  }

  lemma {:induction false} RunFromKeepsInvariant(deps: Dependencies, r: Registry, actions: seq<Action>)
    requires ValidDependencies(deps) && Invariant(deps, r) && RunFrom(deps, r, actions).Some?
    ensures Invariant(deps, RunFrom(deps, r, actions).value)
    decreases |actions|
  {
    if actions != [] {
      var last := |actions| - 1;
      RunFromKeepsInvariant(deps, r, actions[..last]);
      StepKeepsInvariant(deps, RunFrom(deps, r, actions[..last]).value, actions[last]);
    }
  }

  lemma RunKeepsInvariant(deps: Dependencies, actions: seq<Action>)
    requires ValidDependencies(deps) && Run(deps, actions).Some?
    ensures Invariant(deps, Run(deps, actions).value)
  {
    RunFromKeepsInvariant(deps, Initially(deps), actions);
  }

  /** No channel of the service is closed twice, Start is called at most once, and only
      when all kept dependencies have become healthy. */
  predicate SafelyStarted(deps: Dependencies, r: Registry, s: nat)
    requires ValidDependencies(deps) && |r.services| == |deps| && s < |deps|
  {
    var v := r.services[s];
    && v.healthyCloses <= 1 && v.returnedCloses <= 1 && v.startCalls <= 1
    && (v.startCalls > 0 || v.phase == Starting ==> DependenciesHealthy(deps, r, s, |deps[s]|))
  }

  /** In every interleaving every service is safely started, and AwaitHealthy only returns
      without error when every service has become healthy. */
  lemma StartIsSafe(deps: Dependencies, actions: seq<Action>)
    requires ValidDependencies(deps) && Run(deps, actions).Some?
    ensures var r := Run(deps, actions).value;
            && (forall s :: 0 <= s < |deps| ==> SafelyStarted(deps, r, s))
            && (r.awaiting == AwaitOk ==> forall s :: 0 <= s < |deps| ==> IsClosed(r.services[s].healthyCloses))
  {
    RunKeepsInvariant(deps, actions);
    var r := Run(deps, actions).value;
    forall s | 0 <= s < |deps| ensures SafelyStarted(deps, r, s) {
      assert ServiceInvariant(deps, r, s);
    }
  }

  // ----- progress -----

  /** A chain of kept dependencies from one service to another. */
  predicate DependencyChain(deps: Dependencies, p: seq<nat>)
  {
    p != [] && (forall i :: 0 <= i < |p| ==> p[i] < |deps|)
    && forall i :: 0 <= i < |p| - 1 ==> p[i + 1] in deps[p[i]]
  }

  /** The service can take a step of its own. */
  predicate CanStep(deps: Dependencies, r: Registry, s: nat)
    requires ValidDependencies(deps) && |r.services| == |deps|
  {
    || Enabled(deps, r, SeeHealthy(s)) || Enabled(deps, r, SeeReturned(s)) || Enabled(deps, r, SeeCancel(s))
    || Enabled(deps, r, SpawnWatcher(s)) || Enabled(deps, r, CallStart(s)) || Enabled(deps, r, MarkFailed(s))
    || Enabled(deps, r, CloseReturned(s))
  }

  /** There are no circular waits. Behind every service waiting on a dependency stands,
      along a chain of dependencies, one that can step or is inside its own Start. In
      particular a full result channel never holds up a waiting service. */
  lemma {:induction false} SomeServiceCanStep(deps: Dependencies, rank: seq<nat>, r: Registry, s: nat)
    returns (p: seq<nat>)
    requires ValidDependencies(deps) && Ranks(deps, rank) && Invariant(deps, r)
    requires IsWaitingOn(deps, r, s)
    ensures DependencyChain(deps, p) && p[0] == s
    ensures CanStep(deps, r, p[|p| - 1]) || InPhase(r, p[|p| - 1], InStart)
    decreases rank[s]
  {
    var d := Awaited(deps, r, s);
    assert ServiceInvariant(deps, r, d);
    if CanStep(deps, r, s) {
      p := [s];
    } else if CanStep(deps, r, d) || InPhase(r, d, InStart) {
      p := [s, d];
    } else {
      assert rank[d] < rank[s];
      var q := SomeServiceCanStep(deps, rank, r, d);
      p := [s] + q;
      assert forall i :: 0 < i < |p| ==> p[i] == q[i - 1];
    }
  }

  // Every step uses up a bounded resource.

  function PhaseWeight(n: nat, p: Phase): nat
  {
    match p
    case Waiting(k) => if k <= n then 6 + (n - k) else 6
    case Starting => 5
    case InStart => 4
    case Failing(_) => 3
    case Closing => 2
    case Sending => 1
    case Finished => 0
  }

  function WatcherWeight(w: Watcher): nat
  {
    match w case NotSpawned => 3 case Watching => 2 case SettingRunning => 1 case WatcherDone => 0
  }

  function Weight(n: nat, v: Service): nat
  {
    PhaseWeight(n, v.phase) + WatcherWeight(v.watcher) + if v.reportsHealthy then 0 else 1
  }

  function TotalWeight(deps: Dependencies, services: seq<Service>): nat
    requires |services| == |deps|
  {
    if services == [] then 0
    else TotalWeight(deps[..|deps| - 1], services[..|services| - 1]) + Weight(|deps[|deps| - 1]|, services[|services| - 1])
  }

  function AwaitWeight(n: nat, a: Await): nat
  {
    if a.AwaitAt? && a.j <= n then n - a.j + 1 else 0
  }

  /** Bound on the number of steps still possible. */
  function StepsLeft(deps: Dependencies, r: Registry): nat
    requires |r.services| == |deps|
  {
    TotalWeight(deps, r.services) + AwaitWeight(|deps|, r.awaiting)
    + (if r.cancelled then 0 else 1) + (if r.awaitCancelled then 0 else 1) + (if r.received then 0 else 1)
  }

  lemma {:induction false} TotalWeightUpdate(deps: Dependencies, services: seq<Service>, s: nat, v: Service)
    requires |services| == |deps| && s < |deps|
    ensures TotalWeight(deps, services[s := v]) ==
            TotalWeight(deps, services) - Weight(|deps[s]|, services[s]) + Weight(|deps[s]|, v)
  {
    var last := |services| - 1;
    if s == last {
      assert services[s := v][..last] == services[..last];
    } else {
      assert services[s := v][..last] == services[..last][s := v];
      TotalWeightUpdate(deps[..last], services[..last], s, v);
    }
  }

  /** A service's step uses up some of its own weight. */
  lemma ServiceStepUsesWeight(n: nat, v: Service, a: Action)
    requires Ready(v, a) && LocalInvariant(v) && Actor(a).Some?
    requires v.phase.Waiting? ==> v.phase.k <= n
    requires a.SeeHealthy? ==> v.phase.k < n
    ensures Weight(n, StepService(v, a)) < Weight(n, v)
  {
  }

  lemma StepUsesWeight(deps: Dependencies, r: Registry, a: Action)
    requires ValidDependencies(deps) && Invariant(deps, r) && Enabled(deps, r, a)
    ensures StepsLeft(deps, Next(deps, r, a)) < StepsLeft(deps, r)
  {
    if Actor(a).Some? {
      var s := Actor(a).value;
      assert ServiceInvariant(deps, r, s);
      ServiceStepUsesWeight(|deps[s]|, r.services[s], a);
      hide Weight, StepService, LocalInvariant, ServiceInvariant;
      TotalWeightUpdate(deps, r.services, s, StepService(r.services[s], a));
    }
  }

  /** Every run is finite: its length is bounded from the start. */
  lemma {:induction false} RunsAreBounded(deps: Dependencies, actions: seq<Action>)
    requires ValidDependencies(deps) && Run(deps, actions).Some?
    ensures |actions| + StepsLeft(deps, Run(deps, actions).value) <= StepsLeft(deps, Initially(deps))
    decreases |actions|
  {
    if actions != [] {
      var last := |actions| - 1;
      RunsAreBounded(deps, actions[..last]);
      RunKeepsInvariant(deps, actions[..last]);
      StepUsesWeight(deps, Run(deps, actions[..last]).value, actions[last]);
    }
  }

  /** A step of the registry's own goroutines: not one of the contexts, of the reader of the
      results, or of what a service does inside its Start and reports of its health. */
  predicate OwnStep(a: Action)
  {
    a !in {Cancel, CancelAwait, ReceiveResult} && !a.StartReturns? && !a.ReportHealthy?
  }

  /** The registry has come to rest. */
  ghost predicate AtRest(deps: Dependencies, r: Registry)
    requires ValidDependencies(deps) && |r.services| == |deps|
  {
    forall a :: OwnStep(a) ==> !Enabled(deps, r, a)
  }

  /** The goroutine of the service has returned and its watcher, if any, is done. */
  predicate HasReturned(v: Service)
  {
    v.phase in {Sending, Finished} && IsClosed(v.returnedCloses) && v.watcher in {NotSpawned, WatcherDone}
  }

  /** The service is inside its own Start, or a chain of dependencies leads to one that is. */
  ghost predicate HeldByAStart(deps: Dependencies, r: Registry, s: nat)
  {
    exists p :: DependencyChain(deps, p) && p[0] == s && InPhase(r, p[|p| - 1], InStart)
  }

  lemma NothingCanStep(deps: Dependencies, r: Registry, s: nat)
    requires ValidDependencies(deps) && Invariant(deps, r) && AtRest(deps, r)
    ensures !CanStep(deps, r, s)
  {
    hide Enabled;
    assert OwnStep(SeeHealthy(s)) && OwnStep(SeeReturned(s)) && OwnStep(SeeCancel(s)) && OwnStep(SpawnWatcher(s));
    assert OwnStep(CallStart(s)) && OwnStep(MarkFailed(s)) && OwnStep(CloseReturned(s));
  }

  lemma WatcherIsDone(deps: Dependencies, r: Registry, s: nat)
    requires ValidDependencies(deps) && Invariant(deps, r) && AtRest(deps, r) && s < |deps|
    ensures IsClosed(r.services[s].returnedCloses) ==> r.services[s].watcher in {NotSpawned, WatcherDone}
  {
    assert !Enabled(deps, r, WatcherSeesReturned(s)) && !Enabled(deps, r, SetRunning(s));
  }

  lemma AtRestService(deps: Dependencies, rank: seq<nat>, r: Registry, s: nat)
    requires ValidDependencies(deps) && Ranks(deps, rank) && Invariant(deps, r) && AtRest(deps, r) && s < |deps|
    ensures HasReturned(r.services[s]) || HeldByAStart(deps, r, s)
  {
    NothingCanStep(deps, r, s);
    WatcherIsDone(deps, r, s);
    hide AtRest;
    assert ServiceInvariant(deps, r, s);
    if IsWaitingOn(deps, r, s) {
      var p := SomeServiceCanStep(deps, rank, r, s);
      AtRestNowhere(deps, r, p[|p| - 1]);
    } else if InPhase(r, s, InStart) {
      assert DependencyChain(deps, [s]);
    }
  }

  lemma AtRestNowhere(deps: Dependencies, r: Registry, s: nat)
    requires ValidDependencies(deps) && Invariant(deps, r)
    ensures AtRest(deps, r) ==> !CanStep(deps, r, s)
  {
    if AtRest(deps, r) { NothingCanStep(deps, r, s); }
  }

  /** Without any help from outside, nobody is left waiting for anything but a Start that is
      still running: once the registry's own goroutines have come to rest, every service has
      returned or stands behind a service inside its Start, and so does what AwaitHealthy is
      waiting for. When no Start is running, everything has returned. */
  lemma NobodyWaitsForever(deps: Dependencies, rank: seq<nat>, actions: seq<Action>)
    requires ValidDependencies(deps) && Ranks(deps, rank) && Run(deps, actions).Some?
    requires AtRest(deps, Run(deps, actions).value)
    ensures var r := Run(deps, actions).value;
            && (forall s :: 0 <= s < |deps| ==> HasReturned(r.services[s]) || HeldByAStart(deps, r, s))
            && (r.awaiting.AwaitAt? ==> HeldByAStart(deps, r, r.awaiting.j))
            && ((forall s :: !InPhase(r, s, InStart)) ==>
                  !r.awaiting.AwaitAt? && forall s :: 0 <= s < |deps| ==> HasReturned(r.services[s]))
  {
    RunKeepsInvariant(deps, actions);
    var r := Run(deps, actions).value;
    forall s | 0 <= s < |deps| ensures HasReturned(r.services[s]) || HeldByAStart(deps, r, s) {
      AtRestService(deps, rank, r, s);
    }
    assert OwnStep(AwaitSeesReturned) && !Enabled(deps, r, AwaitSeesReturned);
  }

  /** The ranks are needed: services on a cycle of dependencies are never started, in any
      interleaving. */
  lemma CyclesNeverStart(deps: Dependencies, cycle: seq<nat>, actions: seq<Action>)
    requires ValidDependencies(deps) && Run(deps, actions).Some?
    requires DependencyChain(deps, cycle) && cycle[0] in deps[cycle[|cycle| - 1]]
    ensures forall s :: s in cycle ==> Run(deps, actions).value.services[s].startCalls == 0
    ensures forall s :: s in cycle ==> !IsClosed(Run(deps, actions).value.services[s].healthyCloses)
  {
    CycleStaysUnwatched(deps, cycle, actions);
    RunKeepsInvariant(deps, actions);
    var r := Run(deps, actions).value;
    forall s | s in cycle ensures r.services[s].startCalls == 0 && !IsClosed(r.services[s].healthyCloses) {
      assert ServiceInvariant(deps, r, s);
    }
  }

  lemma {:induction false} CycleStaysUnwatched(deps: Dependencies, cycle: seq<nat>, actions: seq<Action>)
    requires ValidDependencies(deps) && Run(deps, actions).Some?
    requires DependencyChain(deps, cycle) && cycle[0] in deps[cycle[|cycle| - 1]]
    ensures forall i :: 0 <= i < |cycle| ==> Run(deps, actions).value.services[cycle[i]].watcher == NotSpawned
    decreases |actions|
  {
    if actions != [] {
      var last := |actions| - 1;
      CycleStaysUnwatched(deps, cycle, actions[..last]);
      RunKeepsInvariant(deps, actions[..last]);
      CycleStep(deps, cycle, Run(deps, actions[..last]).value, actions[last]);
    }
  }

  lemma CycleStep(deps: Dependencies, cycle: seq<nat>, r: Registry, a: Action)
    requires ValidDependencies(deps) && Invariant(deps, r) && Enabled(deps, r, a)
    requires DependencyChain(deps, cycle) && cycle[0] in deps[cycle[|cycle| - 1]]
    requires forall i :: 0 <= i < |cycle| ==> r.services[cycle[i]].watcher == NotSpawned
    ensures forall i :: 0 <= i < |cycle| ==> Next(deps, r, a).services[cycle[i]].watcher == NotSpawned
  {
    hide Next, Enabled;
    forall i | 0 <= i < |cycle| ensures Next(deps, r, a).services[cycle[i]].watcher == NotSpawned {
      var next := cycle[if i + 1 == |cycle| then 0 else i + 1];
      assert next in deps[cycle[i]];
      UnwatchedHoldsUp(deps, r, cycle[i], next);
      StaysUnwatched(deps, r, a, cycle[i]);
    }
  }

  lemma StaysUnwatched(deps: Dependencies, r: Registry, a: Action, s: nat)
    requires ValidDependencies(deps) && |r.services| == |deps| && Enabled(deps, r, a) && s < |deps|
    requires r.services[s].watcher == NotSpawned && a != SpawnWatcher(s)
    ensures Next(deps, r, a).services[s].watcher == NotSpawned
  {
    EnabledIsReady(deps, r, a);
    if Actor(a) == Some(s) { StepUnwatched(r.services[s], a); }
    hide Enabled, StepService, Ready;
  }

  lemma StepUnwatched(v: Service, a: Action)
    requires v.watcher == NotSpawned && Ready(v, a) && !a.SpawnWatcher?
    ensures StepService(v, a).watcher == NotSpawned
  {
  }

  lemma EnabledIsReady(deps: Dependencies, r: Registry, a: Action)
    requires ValidDependencies(deps) && |r.services| == |deps| && Enabled(deps, r, a)
    ensures Actor(a).Some? ==> a.s < |deps| && Ready(r.services[a.s], a)
  {
  }

  lemma UnwatchedHoldsUp(deps: Dependencies, r: Registry, s: nat, d: nat)
    requires ValidDependencies(deps) && Invariant(deps, r) && s < |deps| && d < |deps|
    requires d in deps[s] && r.services[d].watcher == NotSpawned
    ensures !Enabled(deps, r, SpawnWatcher(s))
  {
    assert ServiceInvariant(deps, r, s) && ServiceInvariant(deps, r, d);
    var k :| 0 <= k < |deps[s]| && deps[s][k] == d;
    assert !IsClosed(r.services[deps[s][k]].healthyCloses);
  }

  // ----- what the protocol does not promise -----

  ghost predicate Reachable(deps: Dependencies, r: Registry)
    requires ValidDependencies(deps)
  {
    exists actions :: Run(deps, actions) == Some(r)
  }

  lemma StepReaches(deps: Dependencies, r: Registry, a: Action)
    requires ValidDependencies(deps) && |r.services| == |deps| && Reachable(deps, r) && Enabled(deps, r, a)
    ensures Reachable(deps, Next(deps, r, a))
  {
    var actions :| Run(deps, actions) == Some(r);
    assert (actions + [a])[..|actions|] == actions;
    assert Run(deps, actions + [a]) == Some(Next(deps, r, a));
  }

  lemma InitiallyReachable(deps: Dependencies)
    requires ValidDependencies(deps)
    ensures Reachable(deps, Initially(deps))
  {
    assert Run(deps, []) == Some(Initially(deps));
  }

  const FRESH := Service(Waiting(0), NotSpawned, false, 0, 0, StateStarting, None, 0)

  /** The watcher is spawned before Start is called, so a service without dependencies
      whose health channel is closed from the outset turns healthy before its Start runs. */
  lemma HealthyBeforeStart(deps: Dependencies, r: Registry, s: nat)
    requires ValidDependencies(deps) && |r.services| == |deps| && Reachable(deps, r)
    requires s < |deps| && deps[s] == [] && r.services[s] == FRESH
    ensures Reachable(deps, r.(services := r.services[s := Service(Starting, WatcherDone, true, 1, 0, StateRunning, None, 0)]))
  {
    hide Run, Reachable;
    var r1 := Next(deps, r, ReportHealthy(s));
    StepReaches(deps, r, ReportHealthy(s));
    var r2 := Next(deps, r1, SpawnWatcher(s));
    StepReaches(deps, r1, SpawnWatcher(s));
    var r3 := Next(deps, r2, WatcherSeesHealthy(s));
    StepReaches(deps, r2, WatcherSeesHealthy(s));
    StepReaches(deps, r3, SetRunning(s));
    var v := Service(Starting, WatcherDone, true, 1, 0, StateRunning, None, 0);
    assert Next(deps, r3, SetRunning(s)).services == r.services[s := v];
  }

  /** Hence the Start of a dependent can be called before that of its dependency. */
  lemma DependentCanStartFirst()
    ensures var deps: Dependencies := [[], [0]];
            exists r :: Reachable(deps, r) && |r.services| == 2 && r.services[1].startCalls == 1 && r.services[0].startCalls == 0
  {
    hide Run, Reachable;
    var deps: Dependencies := [[], [0]];
    var r0 := Initially(deps);
    InitiallyReachable(deps);
    HealthyBeforeStart(deps, r0, 0);
    var v := Service(Starting, WatcherDone, true, 1, 0, StateRunning, None, 0);
    var r4 := r0.(services := r0.services[0 := v]);
    var r5 := Next(deps, r4, SeeHealthy(1));
    StepReaches(deps, r4, SeeHealthy(1));
    assert r5.services == [v, FRESH.(phase := Waiting(1))];
    var r6 := Next(deps, r5, SpawnWatcher(1));
    StepReaches(deps, r5, SpawnWatcher(1));
    StepReaches(deps, r6, CallStart(1));
    assert Next(deps, r6, CallStart(1)).services[0] == v;
  }

  /** A service whose Start has failed can still be reported running, and AwaitHealthy can
      return without error afterwards. */
  lemma FailedServiceCanReportRunning()
    ensures var deps: Dependencies := [[]];
            exists r :: Reachable(deps, r) && |r.services| == 1 && r.awaiting == AwaitOk
              && r.services[0].startErr == Some(OwnError) && r.services[0].state == StateRunning
  {
    hide Run, Reachable;
    var deps: Dependencies := [[]];
    var r0 := Initially(deps);
    InitiallyReachable(deps);
    var r1 := Next(deps, r0, ReportHealthy(0));
    StepReaches(deps, r0, ReportHealthy(0));
    var r2 := Next(deps, r1, SpawnWatcher(0));
    StepReaches(deps, r1, SpawnWatcher(0));
    var r3 := Next(deps, r2, WatcherSeesHealthy(0));
    StepReaches(deps, r2, WatcherSeesHealthy(0));
    assert r3.services == [Service(Starting, SettingRunning, true, 0, 0, StateStarting, None, 0)];
    FailThenRun(deps, r3);
  }

  lemma FailThenRun(deps: Dependencies, r: Registry)
    requires deps == [[]] && Reachable(deps, r) && r.awaiting == AwaitAt(0)
    requires r.services == [Service(Starting, SettingRunning, true, 0, 0, StateStarting, None, 0)]
    ensures exists r' :: Reachable(deps, r') && |r'.services| == 1 && r'.awaiting == AwaitOk
              && r'.services[0].startErr == Some(OwnError) && r'.services[0].state == StateRunning
  {
    hide Run, Reachable;
    var r0 := Next(deps, r, CallStart(0));
    StepReaches(deps, r, CallStart(0));
    var r1 := Next(deps, r0, StartReturns(0, true));
    StepReaches(deps, r0, StartReturns(0, true));
    var r2 := Next(deps, r1, MarkFailed(0));
    StepReaches(deps, r1, MarkFailed(0));
    assert r2.services == [Service(Closing, SettingRunning, true, 0, 0, StateFailed, Some(OwnError), 1)];
    RunAfterFailure(deps, r2);
  }

  lemma RunAfterFailure(deps: Dependencies, r: Registry)
    requires deps == [[]] && Reachable(deps, r) && r.awaiting == AwaitAt(0)
    requires r.services == [Service(Closing, SettingRunning, true, 0, 0, StateFailed, Some(OwnError), 1)]
    ensures exists r' :: Reachable(deps, r') && |r'.services| == 1 && r'.awaiting == AwaitOk
              && r'.services[0].startErr == Some(OwnError) && r'.services[0].state == StateRunning
  {
    hide Run, Reachable;
    var r1 := Next(deps, r, SetRunning(0));
    StepReaches(deps, r, SetRunning(0));
    StepReaches(deps, r1, AwaitSeesHealthy);
    assert Next(deps, r1, AwaitSeesHealthy).awaiting == AwaitOk;
  }

  // ----- exactly when it happens -----

  /** How health, failure and the watcher of a service go together. */
  predicate HealthInvariant(v: Service)
  {
    && (v.watcher == SettingRunning || IsClosed(v.healthyCloses) ==> v.reportsHealthy)
    && (v.watcher == WatcherDone && !IsClosed(v.returnedCloses) ==> IsClosed(v.healthyCloses))
    && (v.startErr.Some? ==> v.phase in {Closing, Sending, Finished})
    && (v.watcher != NotSpawned ==> v.startErr in {None, Some(OwnError)})
    && (v.watcher != NotSpawned && v.phase.Failing? ==> v.phase.cause == OwnError)
    && (v.state == StateRunning ==> v.watcher == WatcherDone)
  }

  predicate History(deps: Dependencies, r: Registry)
    requires ValidDependencies(deps)
  {
    Invariant(deps, r) && forall s :: 0 <= s < |deps| ==> HealthInvariant(r.services[s])
  }

  lemma HealthStep(v: Service, a: Action)
    requires LocalInvariant(v) && HealthInvariant(v) && Ready(v, a)
    ensures HealthInvariant(StepService(v, a))
  {
  }

  lemma StepKeepsHistory(deps: Dependencies, r: Registry, a: Action)
    requires ValidDependencies(deps) && History(deps, r) && Enabled(deps, r, a)
    ensures History(deps, Next(deps, r, a))
  {
    StepKeepsInvariant(deps, r, a);
    if Actor(a).Some? {
      assert ServiceInvariant(deps, r, a.s);
      HealthStep(r.services[a.s], a);
    }
    hide Invariant, HealthInvariant, StepService;
  }

  lemma {:induction false} RunFromKeepsHistory(deps: Dependencies, r: Registry, actions: seq<Action>)
    requires ValidDependencies(deps) && History(deps, r) && RunFrom(deps, r, actions).Some?
    ensures History(deps, RunFrom(deps, r, actions).value)
    decreases |actions|
  {
    if actions != [] {
      var last := |actions| - 1;
      RunFromKeepsHistory(deps, r, actions[..last]);
      StepKeepsHistory(deps, RunFrom(deps, r, actions[..last]).value, actions[last]);
    }
  }

  lemma InitiallyHistory(deps: Dependencies)
    requires ValidDependencies(deps)
    ensures History(deps, Initially(deps))
  {
  }

  lemma ReachableHistory(deps: Dependencies, r: Registry)
    requires ValidDependencies(deps) && Reachable(deps, r)
    ensures History(deps, r)
  {
    var actions :| Run(deps, actions) == Some(r);
    RunFromKeepsHistory(deps, Initially(deps), actions);
  }

  /** Some continuation takes none of the steps in `without` and ends in `r'`. */
  ghost predicate Leads(deps: Dependencies, r: Registry, r': Registry, without: set<Action>)
    requires ValidDependencies(deps) && |r.services| == |deps|
  {
    exists actions :: (forall a :: a in actions ==> a !in without) && RunFrom(deps, r, actions) == Some(r')
  }

  lemma LeadsNowhere(deps: Dependencies, r: Registry, without: set<Action>)
    requires ValidDependencies(deps) && |r.services| == |deps|
    ensures Leads(deps, r, r, without)
  {
    assert RunFrom(deps, r, []) == Some(r);
  }

  lemma LeadsOn(deps: Dependencies, r: Registry, r': Registry, a: Action, without: set<Action>)
    requires ValidDependencies(deps) && |r.services| == |r'.services| == |deps| && Leads(deps, r, r', without)
    requires Enabled(deps, r', a) && a !in without
    ensures Leads(deps, r, Next(deps, r', a), without)
  {
    var actions :| (forall b :: b in actions ==> b !in without) && RunFrom(deps, r, actions) == Some(r');
    hide Next, Enabled;
    assert (actions + [a])[..|actions|] == actions;
    assert RunFrom(deps, r, actions + [a]) == Some(Next(deps, r', a));
  }

  /** The call of Start, and the service's own report of its health. */
  function StartAndReport(s: nat): set<Action> { {CallStart(s), ReportHealthy(s)} }

  lemma {:induction false} OnlyTheseStartAndReport(deps: Dependencies, r: Registry, actions: seq<Action>, s: nat)
    requires ValidDependencies(deps) && |r.services| == |deps| && RunFrom(deps, r, actions).Some? && s < |deps|
    ensures var v, v' := r.services[s], RunFrom(deps, r, actions).value.services[s];
            && (v'.startCalls > 0 <==> v.startCalls > 0 || CallStart(s) in actions)
            && (v'.reportsHealthy <==> v.reportsHealthy || ReportHealthy(s) in actions)
    decreases |actions|
  {
    if actions != [] {
      var last := |actions| - 1;
      OnlyTheseStartAndReport(deps, r, actions[..last], s);
      StartsAndReports(deps, RunFrom(deps, r, actions[..last]).value, actions[last], s);
      InLastOrBefore(actions, CallStart(s));
      InLastOrBefore(actions, ReportHealthy(s));
      hide Next, Enabled;
    }
  }

  lemma InLastOrBefore(actions: seq<Action>, a: Action)
    requires actions != []
    ensures a in actions <==> a in actions[..|actions| - 1] || a == actions[|actions| - 1]
  {
  }

  lemma StartsAndReports(deps: Dependencies, r: Registry, a: Action, s: nat)
    requires ValidDependencies(deps) && |r.services| == |deps| && Enabled(deps, r, a) && s < |deps|
    ensures var v, v' := r.services[s], Next(deps, r, a).services[s];
            && (v'.startCalls > 0 <==> v.startCalls > 0 || a == CallStart(s))
            && (v'.reportsHealthy <==> v.reportsHealthy || a == ReportHealthy(s))
  {
    StartsOrReports(r.services[s], a);
    hide StepService, Enabled;
  }

  lemma StartsOrReports(v: Service, a: Action)
    ensures StepService(v, a).startCalls > 0 <==> v.startCalls > 0 || a.CallStart?
    ensures StepService(v, a).reportsHealthy <==> v.reportsHealthy || a.ReportHealthy?
  {
  }

  /** In every run a service is healthy only after its report, and a dependent is started only
      after the report of each dependency, whether or not their own Start has been called. */
  lemma HealthFollowsReport(deps: Dependencies, actions: seq<Action>, s: nat)
    requires ValidDependencies(deps) && Run(deps, actions).Some? && s < |deps|
    ensures IsClosed(Run(deps, actions).value.services[s].healthyCloses) ==> ReportHealthy(s) in actions
    ensures Run(deps, actions).value.services[s].startCalls > 0 <==> CallStart(s) in actions
    ensures CallStart(s) in actions ==> forall d :: d in deps[s] ==> ReportHealthy(d) in actions
  {
    hide Invariant;
    var r := Run(deps, actions).value;
    InitiallyHistory(deps);
    RunFromKeepsHistory(deps, Initially(deps), actions);
    OnlyTheseStartAndReport(deps, Initially(deps), actions, s);
    if CallStart(s) in actions {
      StartedHasHealthy(deps, r, s);
      forall d | d in deps[s] ensures ReportHealthy(d) in actions {
        OnlyTheseStartAndReport(deps, Initially(deps), actions, d);
      }
    }
  }

  lemma StartedHasHealthy(deps: Dependencies, r: Registry, s: nat)
    requires ValidDependencies(deps) && Invariant(deps, r) && s < |deps| && r.services[s].startCalls > 0
    ensures forall d :: d in deps[s] ==> IsClosed(r.services[d].healthyCloses)
  {
    assert ServiceInvariant(deps, r, s);
    forall d | d in deps[s] ensures IsClosed(r.services[d].healthyCloses) {
      var k :| 0 <= k < |deps[s]| && deps[s][k] == d;
    }
  }

  lemma {:induction false} PrefixRuns(deps: Dependencies, actions: seq<Action>, i: nat)
    requires ValidDependencies(deps) && Run(deps, actions).Some? && i <= |actions|
    ensures Run(deps, actions[..i]).Some?
    decreases |actions|
  {
    if i == |actions| {
      assert actions[..i] == actions;
    } else {
      assert actions[..|actions| - 1][..i] == actions[..i];
      PrefixRuns(deps, actions[..|actions| - 1], i);
    }
  }

  /** Starts are called in the order of dependencies in every run in which a dependency
      reports healthy only after its own Start has been called. */
  lemma StartsFollowDependencies(deps: Dependencies, actions: seq<Action>, t: nat, d: nat)
    requires ValidDependencies(deps) && Run(deps, actions).Some? && t < |deps| && d in deps[t]
    requires forall i :: 0 <= i <= |actions| && ReportHealthy(d) in actions[..i] ==> CallStart(d) in actions[..i]
    ensures forall i :: 0 <= i <= |actions| && CallStart(t) in actions[..i] ==> CallStart(d) in actions[..i]
  {
    forall i | 0 <= i <= |actions| && CallStart(t) in actions[..i] ensures CallStart(d) in actions[..i] {
      PrefixRuns(deps, actions, i);
      HealthFollowsReport(deps, actions[..i], t);
    }
  }

  predicate HealthyIn(r: Registry, s: nat) { s < |r.services| && IsClosed(r.services[s].healthyCloses) }

  predicate StartedIn(r: Registry, s: nat) { s < |r.services| && r.services[s].startCalls > 0 }

  predicate RunningIn(r: Registry, s: nat) { s < |r.services| && r.services[s].state == StateRunning }

  /** A service about to be started can turn healthy first exactly if it has reported. */
  lemma HealthyUnstarted(deps: Dependencies, r: Registry, s: nat)
    requires ValidDependencies(deps) && |r.services| == |deps| && Reachable(deps, r) && InPhase(r, s, Starting)
    ensures (exists r' :: Leads(deps, r, r', StartAndReport(s)) && HealthyIn(r', s)) <==> r.services[s].reportsHealthy
  {
    ReachableHistory(deps, r);
    if r.services[s].reportsHealthy {
      LeadsNowhere(deps, r, StartAndReport(s));
      var _ := TurnsHealthy(deps, r, s);
    }
    forall r' | Leads(deps, r, r', StartAndReport(s)) && HealthyIn(r', s) ensures r.services[s].reportsHealthy {
      ReportedBefore(deps, r, r', s);
    }
  }

  lemma ReportedBefore(deps: Dependencies, r: Registry, r': Registry, s: nat)
    requires ValidDependencies(deps) && History(deps, r) && Leads(deps, r, r', StartAndReport(s))
    requires s < |deps| && HealthyIn(r', s)
    ensures r.services[s].reportsHealthy && History(deps, r')
  {
    var actions :| (forall a :: a in actions ==> a !in StartAndReport(s)) && RunFrom(deps, r, actions) == Some(r');
    RunFromKeepsHistory(deps, r, actions);
    OnlyTheseStartAndReport(deps, r, actions, s);
    assert ReportHealthy(s) in StartAndReport(s);
  }

  lemma TurnsHealthy(deps: Dependencies, r: Registry, s: nat) returns (r': Registry)
    requires ValidDependencies(deps) && History(deps, r) && InPhase(r, s, Starting) && r.services[s].reportsHealthy
    ensures Leads(deps, r, r', StartAndReport(s)) && HealthyIn(r', s) && |r'.services| == |deps|
    ensures forall t :: 0 <= t < |deps| && t != s ==> r'.services[t] == r.services[t]
  {
    hide RunFrom, Leads;
    ServiceFacts(deps, r, s);
    LeadsNowhere(deps, r, StartAndReport(s));
    r' := r;
    if r'.services[s].watcher == Watching {
      LeadsOn(deps, r, r', WatcherSeesHealthy(s), StartAndReport(s));
      r' := Next(deps, r', WatcherSeesHealthy(s));
    }
    if r'.services[s].watcher == SettingRunning {
      LeadsOn(deps, r, r', SetRunning(s), StartAndReport(s));
      r' := Next(deps, r', SetRunning(s));
    }
  }

  lemma ServiceFacts(deps: Dependencies, r: Registry, s: nat)
    requires ValidDependencies(deps) && History(deps, r) && s < |deps|
    ensures LocalInvariant(r.services[s]) && HealthInvariant(r.services[s])
  {
    assert ServiceInvariant(deps, r, s);
  }

  /** A dependent that waits for nothing else can be started before its dependency exactly if
      the dependency has reported healthy. */
  lemma DependentStartsFirst(deps: Dependencies, r: Registry, t: nat, d: nat)
    requires ValidDependencies(deps) && |r.services| == |deps| && Reachable(deps, r)
    requires InPhase(r, d, Starting) && t < |deps| && r.services[t].phase.Waiting? && d in deps[t]
    requires forall j :: r.services[t].phase.k <= j < |deps[t]| ==> deps[t][j] == d || HealthyIn(r, deps[t][j])
    ensures (exists r' :: Leads(deps, r, r', StartAndReport(d)) && StartedIn(r', t)) <==> r.services[d].reportsHealthy
  {
    ReachableHistory(deps, r);
    if r.services[d].reportsHealthy {
      var r1 := TurnsHealthy(deps, r, d);
      assert ServiceInvariant(deps, r, t);
      var _ := TurnsStarted(deps, r, r1, t, d);
    }
    forall r' | Leads(deps, r, r', StartAndReport(d)) && StartedIn(r', t) ensures r.services[d].reportsHealthy {
      StartedNeedsReport(deps, r, r', t, d);
    }
  }

  lemma StartedNeedsReport(deps: Dependencies, r: Registry, r': Registry, t: nat, d: nat)
    requires ValidDependencies(deps) && History(deps, r) && Leads(deps, r, r', StartAndReport(d))
    requires t < |deps| && d in deps[t] && StartedIn(r', t)
    ensures r.services[d].reportsHealthy
  {
    var actions :| (forall a :: a in actions ==> a !in StartAndReport(d)) && RunFrom(deps, r, actions) == Some(r');
    RunFromKeepsHistory(deps, r, actions);
    StartedHasHealthy(deps, r', t);
    ReportedBefore(deps, r, r', d);
  }

  lemma {:induction false} TurnsStarted(deps: Dependencies, r0: Registry, r: Registry, t: nat, d: nat)
    returns (r': Registry)
    requires ValidDependencies(deps) && |r0.services| == |r.services| == |deps| && Leads(deps, r0, r, StartAndReport(d))
    requires t < |deps| && t != d && r.services[t].phase.Waiting? && r.services[t].phase.k <= |deps[t]|
    requires forall j :: r.services[t].phase.k <= j < |deps[t]| ==> HealthyIn(r, deps[t][j])
    ensures Leads(deps, r0, r', StartAndReport(d)) && StartedIn(r', t)
    decreases |deps[t]| - r.services[t].phase.k
  {
    hide RunFrom, Leads;
    if r.services[t].phase.k == |deps[t]| {
      LeadsOn(deps, r0, r, SpawnWatcher(t), StartAndReport(d));
      var r1 := Next(deps, r, SpawnWatcher(t));
      LeadsOn(deps, r0, r1, CallStart(t), StartAndReport(d));
      r' := Next(deps, r1, CallStart(t));
    } else {
      LeadsOn(deps, r0, r, SeeHealthy(t), StartAndReport(d));
      var r1 := Next(deps, r, SeeHealthy(t));
      assert forall u :: 0 <= u < |deps| ==> r1.services[u].healthyCloses == r.services[u].healthyCloses;
      r' := TurnsStarted(deps, r0, r1, t, d);
    }
  }

  /** A failed service whose watcher is over, or was never there. */
  predicate FailedForGood(v: Service)
  {
    v.startErr.Some? && v.phase in {Closing, Sending, Finished} && v.watcher in {NotSpawned, WatcherDone}
    && v.state != StateRunning
  }

  lemma {:induction false} StaysFailed(deps: Dependencies, r: Registry, actions: seq<Action>, s: nat)
    requires ValidDependencies(deps) && |r.services| == |deps| && RunFrom(deps, r, actions).Some? && s < |deps|
    requires FailedForGood(r.services[s])
    ensures FailedForGood(RunFrom(deps, r, actions).value.services[s])
    decreases |actions|
  {
    if actions != [] {
      var last := |actions| - 1;
      StaysFailed(deps, r, actions[..last], s);
      StepStaysFailed(deps, RunFrom(deps, r, actions[..last]).value, actions[last], s);
    }
  }

  lemma StepStaysFailed(deps: Dependencies, r: Registry, a: Action, s: nat)
    requires ValidDependencies(deps) && |r.services| == |deps| && Enabled(deps, r, a) && s < |deps|
    requires FailedForGood(r.services[s])
    ensures FailedForGood(Next(deps, r, a).services[s])
  {
    EnabledIsReady(deps, r, a);
    OwnStepStaysFailed(r.services[s], a);
    hide Enabled, StepService, Ready, FailedForGood;
  }

  lemma OwnStepStaysFailed(v: Service, a: Action)
    requires FailedForGood(v)
    ensures Ready(v, a) ==> FailedForGood(StepService(v, a))
  {
  }

  /** A failed service can still be reported running exactly while its watcher has not
      finished, or if that has happened; and only an error of its own Start allows it. */
  lemma FailedServiceRuns(deps: Dependencies, r: Registry, s: nat)
    requires ValidDependencies(deps) && |r.services| == |deps| && Reachable(deps, r)
    requires s < |deps| && r.services[s].startErr.Some?
    ensures (exists r' :: Leads(deps, r, r', {}) && RunningIn(r', s)) <==>
            r.services[s].watcher in {Watching, SettingRunning} || r.services[s].state == StateRunning
    ensures r.services[s].watcher != NotSpawned ==> r.services[s].startErr == Some(OwnError)
    ensures r.services[s].state == StateRunning ==> r.services[s].watcher == WatcherDone
  {
    ReachableHistory(deps, r);
    ServiceFacts(deps, r, s);
    if r.services[s].watcher in {Watching, SettingRunning} || r.services[s].state == StateRunning {
      var _ := TurnsRunning(deps, r, s);
    }
    forall r' | Leads(deps, r, r', {}) && RunningIn(r', s) ensures !FailedForGood(r.services[s]) {
      var actions :| (forall a :: a in actions ==> a !in {}) && RunFrom(deps, r, actions) == Some(r');
      if FailedForGood(r.services[s]) { StaysFailed(deps, r, actions, s); }
    }
  }

  lemma TurnsRunning(deps: Dependencies, r: Registry, s: nat) returns (r': Registry)
    requires ValidDependencies(deps) && |r.services| == |deps| && s < |deps|
    requires r.services[s].watcher in {Watching, SettingRunning} || r.services[s].state == StateRunning
    ensures Leads(deps, r, r', {}) && RunningIn(r', s)
  {
    hide RunFrom, Leads;
    LeadsNowhere(deps, r, {});
    r' := r;
    if r.services[s].state != StateRunning {
      if !r'.services[s].reportsHealthy {
        LeadsOn(deps, r, r', ReportHealthy(s), {});
        r' := Next(deps, r', ReportHealthy(s));
      }
      if r'.services[s].watcher == Watching {
        LeadsOn(deps, r, r', WatcherSeesHealthy(s), {});
        r' := Next(deps, r', WatcherSeesHealthy(s));
      }
      LeadsOn(deps, r, r', SetRunning(s), {});
      r' := Next(deps, r', SetRunning(s));
    }
  }

  // ----- results and failures -----

  /** How many services have handed in the result of their start. */
  function HandedIn(services: seq<Service>): nat
  {
    if services == [] then 0
    else HandedIn(services[..|services| - 1]) + if services[|services| - 1].phase == Finished then 1 else 0
  }

  lemma {:induction false} HandedInUpdate(services: seq<Service>, s: nat, v: Service)
    requires s < |services|
    ensures HandedIn(services[s := v]) + (if services[s].phase == Finished then 1 else 0)
            == HandedIn(services) + if v.phase == Finished then 1 else 0
    decreases |services|
  {
    var last := |services| - 1;
    if s < last {
      HandedInUpdate(services[..last], s, v);
      assert services[s := v][..last] == services[..last][s := v];
    } else {
      assert services[s := v][..last] == services[..last];
    }
  }

  lemma {:induction false} NothingHandedIn(deps: Dependencies, n: nat)
    requires ValidDependencies(deps) && n <= |deps|
    ensures HandedIn(Initially(deps).services[..n]) == 0
  {
    if n > 0 {
      NothingHandedIn(deps, n - 1);
      assert Initially(deps).services[..n][..n - 1] == Initially(deps).services[..n - 1];
    }
  }

  /** The channel of results holds one; it and the single receive account for every result handed
      in, so at most two services ever get past handing theirs in. */
  lemma {:induction false} ResultsAreCounted(deps: Dependencies, actions: seq<Action>)
    requires ValidDependencies(deps) && Run(deps, actions).Some?
    ensures var r := Run(deps, actions).value;
            && HandedIn(r.services) == r.startQueue + (if r.received then 1 else 0)
            && r.startQueue <= 1 && HandedIn(r.services) <= 2
    decreases |actions|
  {
    if actions == [] {
      NothingHandedIn(deps, |deps|);
      assert Initially(deps).services[..|deps|] == Initially(deps).services;
    } else {
      var last := |actions| - 1;
      ResultsAreCounted(deps, actions[..last]);
      var r := Run(deps, actions[..last]).value;
      hide Run, RunFrom;
      StepHandsIn(deps, r, actions[last]);
    }
  }

  lemma StepHandsIn(deps: Dependencies, r: Registry, a: Action)
    requires ValidDependencies(deps) && |r.services| == |deps| && Enabled(deps, r, a)
    requires HandedIn(r.services) == r.startQueue + (if r.received then 1 else 0) && r.startQueue <= 1
    ensures var q := Next(deps, r, a);
            HandedIn(q.services) == q.startQueue + (if q.received then 1 else 0) && q.startQueue <= 1
  {
    if Actor(a).Some? {
      var s := Actor(a).value;
      HandedInUpdate(r.services, s, StepService(r.services[s], a));
    }
  }

  /** Why a service failed: the context was cancelled, one of its dependencies was over before being
      seen healthy, or its own Start failed. */
  predicate HasReason(deps: Dependencies, r: Registry, actions: seq<Action>, s: nat, cause: Cause)
    requires s < |deps| == |r.services|
  {
    match cause
    case Cancelled => r.cancelled
    case OwnError => StartReturns(s, true) in actions
    case DependencyFailed => exists k :: 0 <= k < |deps[s]| && deps[s][k] < |deps| && IsClosed(r.services[deps[s][k]].returnedCloses)
  }

  predicate FailuresExplained(deps: Dependencies, r: Registry, actions: seq<Action>)
    requires |r.services| == |deps|
  {
    forall s :: 0 <= s < |deps| ==>
      && (r.services[s].phase.Failing? ==> HasReason(deps, r, actions, s, r.services[s].phase.cause))
      && (r.services[s].startErr.Some? ==> HasReason(deps, r, actions, s, r.services[s].startErr.value))
  }

  lemma {:induction false} FailuresHaveReasons(deps: Dependencies, actions: seq<Action>)
    requires ValidDependencies(deps) && Run(deps, actions).Some?
    ensures FailuresExplained(deps, Run(deps, actions).value, actions)
    decreases |actions|
  {
    if actions != [] {
      var last := |actions| - 1;
      FailuresHaveReasons(deps, actions[..last]);
      var r := Run(deps, actions[..last]).value;
      assert actions == actions[..last] + [actions[last]];
      hide Run, RunFrom;
      StepExplains(deps, r, actions[..last], actions[last]);
    }
  }

  lemma StepExplains(deps: Dependencies, r: Registry, actions: seq<Action>, a: Action)
    requires ValidDependencies(deps) && |r.services| == |deps| && Enabled(deps, r, a) && FailuresExplained(deps, r, actions)
    ensures FailuresExplained(deps, Next(deps, r, a), actions + [a])
  {
    var q := Next(deps, r, a);
    forall s | 0 <= s < |deps|
      ensures q.services[s].phase.Failing? ==> HasReason(deps, q, actions + [a], s, q.services[s].phase.cause)
      ensures q.services[s].startErr.Some? ==> HasReason(deps, q, actions + [a], s, q.services[s].startErr.value)
    {
      forall c: Cause | HasReason(deps, r, actions, s, c) ensures HasReason(deps, q, actions + [a], s, c) {
        ReasonsStay(deps, r, actions, a, s, c);
      }
      if a == SeeReturned(s) {
        assert IsClosed(q.services[deps[s][r.services[s].phase.k]].returnedCloses);
      }
    }
  }

  lemma ReasonsStay(deps: Dependencies, r: Registry, actions: seq<Action>, a: Action, s: nat, cause: Cause)
    requires ValidDependencies(deps) && |r.services| == |deps| && Enabled(deps, r, a) && s < |deps|
    requires HasReason(deps, r, actions, s, cause)
    ensures HasReason(deps, Next(deps, r, a), actions + [a], s, cause)
  {
    if cause == DependencyFailed {
      var k :| 0 <= k < |deps[s]| && deps[s][k] < |deps| && IsClosed(r.services[deps[s][k]].returnedCloses);
      assert IsClosed(Next(deps, r, a).services[deps[s][k]].returnedCloses);
    }
  }
}
