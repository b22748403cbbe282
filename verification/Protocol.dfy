/** One reconcile of one satellite as one step of the cluster: the evacuation sequence
    (pkg/evacuation/evacuation.go) inside the reconcile and deletion of a satellite
    (internal/controller/linstorsatellite_controller.go). */
module Protocol {
  import opened Wrappers
  import opened Admission
  import opened Volumes
  import opened Machines
  import Properties
  import Nodes

  /** A replica or snapshot on a node. */
  datatype Placement = Placement(node: string, name: string)

  /** The nodes with their properties, which of them are being evacuated, and what is placed on them. */
  datatype Linstor = Linstor(nodes: Nodes.Registry, evacuating: set<string>, replicas: set<Placement>,
      snapshots: set<Placement>)

  datatype Machine = Machine(hooks: Hooks, deleting: bool)

  datatype World = World(
    board: Board,
    machines: map<string, Machine>,
    pvs: Pvs,
    linstor: Linstor,
    finalizers: set<string>)

  datatype Policy = Retain | Purge | Evacuate

  /** A satellite as step 2 sees it: `configured` is the Configured condition, as observed generation and status. */
  datatype Peer = Peer(name: string, deleting: bool, generation: int, configured: Option<(int, bool)>)

  /** A resource on the node: `synced` is None when its sync status cannot be read. */
  datatype Resource = Resource(name: string, diskless: bool, migrating: bool, synced: Option<bool>)

  /** API reads that may fail during a reconcile. `SatellitePod` stands for all that has to be known before
      the node can be registered: a ready Pod, a reachable LINSTOR and the properties of the node. */
  datatype Read =
    | NodeMachine | ClusterClient | SatellitePod | LinstorNode | Limit
    | Satellites | Preparation | Peers | Reattachment | NodeResources | Remaining | VolumesToClean

  /** What one reconcile finds outside the shared state, and how its calls end. `refused` are calls of step
      1, `faulty` and `unclean` the volumes that steps 4 and 7 cannot update. */
  datatype Script = Script(
    policy: Policy, hasCluster: bool, online: bool, seesMachine: bool,
    now: int, limit: int, strategy: Strategy, props: Properties.Props,
    facts: Facts, view: seq<Resource>, peers: seq<Peer>,
    broken: set<Read>, refused: Refusals, faulty: set<string>, reached: set<string>, unclean: set<string>,
    register: Nodes.Calls, addFinalizer: Reply,
    prevent: Reply, drain: Reply, terminate: Reply, evacuate: Reply, restore: Reply,
    removeNode: Reply, removeFinalizer: Reply)

  datatype Step = Step(world: World, progress: Progress)

  // ---- Hooks of a satellite's Machine ----

  function LinkOf(w: World, n: string, x: Script): Option<Link> {
    if x.seesMachine && n in w.machines
    then Some(Link(w.machines[n].hooks, w.machines[n].hooks, w.machines[n].deleting)) else None
  }

  function WithLink(w: World, n: string, l: Link): World {
    if n in w.machines then w.(machines := w.machines[n := w.machines[n].(hooks := l.server)]) else w
  }

  // ---- The evacuation sequence ----

  function Diskful(view: seq<Resource>): seq<string> {
    if view == [] then []
    else (if view[0].diskless then [] else [view[0].name]) + Diskful(view[1..])
  }

  ghost function TargetsOf(w: World, x: Script): set<string> {
    if forall p :: p in x.facts.order ==> p in w.pvs
    then Targets(Diskful(x.view), ByResource(x.facts.order, w.pvs)) else {}
  }

  /** Step 1. */
  ghost function PrepareStep(w: World, n: string, x: Script): Step {
    if Preparation in x.broken then Step(w, Failed)
    else Step(w.(pvs := PreparedAll(w.pvs, TargetsOf(w, x), n, x.facts, x.refused)),
              PrepareResult(w.pvs, TargetsOf(w, x), n, x.facts, x.refused))
  }

  predicate Ready(p: Peer, n: string) {
    p.name == n || p.deleting || p.configured == Some((p.generation, true))
  }

  /** Step 2. */
  ghost function PeersStep(w: World, n: string, x: Script): Step {
    if Peers in x.broken then Step(w, Failed)
    else if exists i :: 0 <= i < |x.peers| && !Ready(x.peers[i], n) then Step(w, Pending)
    else Step(w, Done)
  }

  /** Step 3. */
  ghost function DrainStep(w: World, n: string, x: Script): Step {
    match LinkOf(w, n, x)
    case None => Step(w, Done)
    case Some(l) =>
      Step(WithLink(w, n, DrainAllowed(l, x.drain)), if l.local.drain && Failing(x.drain) then Failed else Done)
  }

  /** Step 4. A pass that fails may have written any of the volumes it reached. */
  ghost function ReattachStep(w: World, n: string, x: Script): Step {
    if Reattachment in x.broken then Step(w, Failed)
    else if AnyReattachFails(w.pvs, n, x.now, x.strategy, x.facts, x.faulty) then
      Step(w.(pvs := map p | p in w.pvs ::
                       if p in x.reached then ReattachedAll(w.pvs, n, x.now, x.strategy, x.facts)[p] else w.pvs[p]),
           Failed)
    else Step(w.(pvs := ReattachedAll(w.pvs, n, x.now, x.strategy, x.facts)),
              if AnyBlocked(w.pvs, n, x.now, x.strategy, x.facts) then Pending else Done)
  }

  ghost predicate SyncUnreadable(view: seq<Resource>) {
    exists i :: 0 <= i < |view| && view[i].migrating && view[i].synced == None
  }

  ghost predicate StillSyncing(view: seq<Resource>) {
    exists i :: 0 <= i < |view| && view[i].migrating && view[i].synced == Some(false)
  }

  /** Step 5: ask LINSTOR to evacuate, unless it already is and still syncing. */
  ghost function EvacuateStep(w: World, n: string, x: Script): Step {
    if NodeResources in x.broken || SyncUnreadable(x.view) then Step(w, Failed)
    else if n in w.linstor.evacuating && StillSyncing(x.view) then Step(w, Done)
    else Step(if Written(x.evacuate) then w.(linstor := w.linstor.(evacuating := w.linstor.evacuating + {n})) else w,
              if Failing(x.evacuate) then Failed else Done)
  }

  predicate On(n: string, p: Placement) { p.node == n }

  ghost predicate Empty(l: Linstor, n: string) {
    forall p :: p in l.replicas + l.snapshots ==> !On(n, p)
  }

  /** Step 6. */
  ghost function RemainingStep(w: World, n: string, x: Script): Step {
    if Remaining in x.broken then Step(w, Failed)
    else Step(w, if Empty(w.linstor, n) then Done else Pending)
  }

  /** Step 7. */
  ghost function CleanStep(w: World, n: string, x: Script): Step {
    if VolumesToClean in x.broken then Step(w, Failed)
    else Step(w.(pvs := CleanedAll(w.pvs, w.pvs.Keys, n, x.unclean)),
              if AnyCleanFails(w.pvs, w.pvs.Keys, n, x.unclean) then Failed else Done)
  }

  /** Step 8. */
  ghost function TerminateStep(w: World, n: string, x: Script): Step {
    match LinkOf(w, n, x)
    case None => Step(w, Done)
    case Some(l) =>
      // the copy has been without the drain hook since step 3
      var copy := l.(local := l.local.(drain := false));
      Step(WithLink(w, n, TerminationAllowed(copy, x.terminate)),
           if l.local.terminate && Failing(x.terminate) then Failed else Done)
  }

  /** Steps 1 to 4: no data is touched yet. */
  ghost function EarlySteps(w: World, n: string, x: Script): Step {
    var s1 := PrepareStep(w, n, x);
    if s1.progress != Done then s1 else
    var s2 := PeersStep(s1.world, n, x);
    if s2.progress != Done then s2 else
    var s3 := DrainStep(s2.world, n, x);
    if s3.progress != Done then s3 else
    ReattachStep(s3.world, n, x)
  }

  /** Steps 1 to 8, stopping at the first that is not done. */
  ghost function EvacuateSteps(w: World, n: string, x: Script): Step {
    var s4 := EarlySteps(w, n, x);
    if s4.progress != Done then s4 else FinishSteps(s4.world, n, x)
  }

  ghost function FinishSteps(w: World, n: string, x: Script): Step {
    var s5 := EvacuateStep(w, n, x);
    if s5.progress != Done then s5 else
    var s6 := RemainingStep(s5.world, n, x);
    if s6.progress != Done then s6 else
    var s7 := CleanStep(s6.world, n, x);
    if s7.progress != Done then s7 else
    TerminateStep(s7.world, n, x)
  }

  ghost function ReasonFor(p: Progress): Reason {
    match p
    case Failed => Error
    case Pending => InProgress
    case Done => Completed
  }

  ghost predicate Admits(w: World, n: string, x: Script) {
    !(x.limit > 0 && Satellites in x.broken) && Admitted(w.board, x.limit, n, x.now)
  }

  /** EvacuateSatellite, with its condition written at the end of the reconcile. */
  ghost function EvacuateSatellite(w: World, n: string, x: Script): Step {
    if x.limit > 0 && Satellites in x.broken then
      Step(w.(board := Record(w.board, n, Error, x.now)), Failed)
    else if !Admitted(w.board, x.limit, n, x.now) then
      Step(w.(board := Record(w.board, n, Waiting, x.now)), Pending)
    else
      var s := EvacuateSteps(w, n, x);
      Step(s.world.(board := Record(w.board, n, ReasonFor(s.progress), x.now)), s.progress)
  }

  // ---- A satellite that is not being deleted ----

  const NO_AUTOPLACE := "AutoplaceTarget"

  ghost predicate MachineGoes(w: World, n: string, x: Script) {
    x.seesMachine && n in w.machines && w.machines[n].deleting
  }

  /** The properties of the LINSTOR node: no new replicas are placed on one whose Machine is going. */
  ghost function Wanted(w: World, n: string, x: Script): Properties.Props {
    if MachineGoes(w, n, x) then x.props[NO_AUTOPLACE := "false"] else x.props
  }

  ghost function FinalizerStep(w: World, n: string, x: Script): World {
    if Written(x.addFinalizer) then w.(finalizers := w.finalizers + {n}) else w
  }

  /** A ready satellite is registered in LINSTOR. */
  ghost function RegisterStep(w: World, n: string, x: Script): Step {
    if !x.hasCluster || ClusterClient in x.broken || SatellitePod in x.broken then Step(w, Failed)
    else
      var wanted := Wanted(w, n, x);
      Step(w.(linstor := w.linstor.(nodes := Nodes.Registered(w.linstor.nodes, n, wanted, x.register))),
           if Nodes.Registers(w.linstor.nodes, n, wanted, x.register) then Done else Failed)
  }

  /** The hooks follow the policy; outside of an evacuation both removals are tried whatever becomes of the first. */
  ghost function HooksStep(w: World, n: string, x: Script): Step {
    match LinkOf(w, n, x)
    case None => Step(w, Done)
    case Some(l) =>
      if x.policy == Evacuate then
        var after := DeletionPrevented(l, x.prevent);
        Step(WithLink(w, n, after), if after.local != l.local && x.prevent != Applied then Failed else Done)
      else
        var drained := DrainAllowed(l, x.drain);
        Step(WithLink(w, n, TerminationAllowed(drained, x.terminate)),
             if (l.local.drain && Failing(x.drain)) || (l.local.terminate && Failing(x.terminate))
             then Failed else Done)
  }

  ghost predicate WantsEvacuation(w: World, n: string, x: Script) {
    x.policy == Evacuate && MachineGoes(w, n, x)
  }

  /** What comes before a satellite can evacuate: finalizer, hooks, registration. */
  ghost function ReadyStep(w: World, n: string, x: Script): Step {
    var f := FinalizerStep(w, n, x);
    if NodeMachine in x.broken then Step(f, Failed) else
    var h := HooksStep(f, n, x);
    if h.progress != Done then h else RegisterStep(h.world, n, x)
  }

  ghost function Tend(w: World, n: string, x: Script): World {
    var r := ReadyStep(w, n, x);
    if r.progress != Done || !x.online then r.world
    else if WantsEvacuation(w, n, x) then
      (if Limit in x.broken then r.world else EvacuateSatellite(r.world, n, x).world)
    else if n in w.linstor.evacuating && Written(x.restore) then
      r.world.(linstor := r.world.linstor.(evacuating := r.world.linstor.evacuating - {n}))
    else r.world
  }

  // ---- A satellite that is being deleted ----

  /** LINSTOR forgets the node and whatever was still on it. */
  ghost function Forget(l: Linstor, n: string): Linstor {
    Linstor(l.nodes - {n}, l.evacuating - {n},
            set p | p in l.replicas && !On(n, p), set p | p in l.snapshots && !On(n, p))
  }

  ghost function Unprotect(w: World, n: string, x: Script): World {
    if Written(x.removeFinalizer) then w.(finalizers := w.finalizers - {n}) else w
  }

  ghost function RemoveWithoutCluster(w: World, n: string, x: Script): World {
    match LinkOf(w, n, x)
    case None => Unprotect(w, n, x)
    case Some(l) =>
      var drained := DrainAllowed(l, x.drain);
      var w1 := WithLink(w, n, drained);
      if l.local.drain && Failing(x.drain) then w1 else
      var w2 := WithLink(w, n, TerminationAllowed(drained, x.terminate));
      if l.local.terminate && Failing(x.terminate) then w2 else Unprotect(w2, n, x)
  }

  ghost function RemoveEvacuating(w: World, n: string, x: Script): World {
    if LinstorNode in x.broken then w
    else if n !in w.linstor.nodes then Unprotect(w, n, x)
    else if Limit in x.broken then w
    else
      var s := EvacuateSatellite(w, n, x);
      if s.progress != Done then s.world
      else
        var after := if Written(x.removeNode) then s.world.(linstor := Forget(s.world.linstor, n)) else s.world;
        if Failing(x.removeNode) then after else Unprotect(after, n, x)
  }

  /** deleteSatellite. */
  ghost function Remove(w: World, n: string, x: Script): World {
    if n !in w.finalizers || NodeMachine in x.broken || ClusterClient in x.broken then w
    else if !x.hasCluster then RemoveWithoutCluster(w, n, x)
    else match x.policy
      case Evacuate => RemoveEvacuating(w, n, x)
      case Purge =>
        var after := if Written(x.removeNode) then w.(linstor := Forget(w.linstor, n)) else w;
        if Failing(x.removeNode) then after else Unprotect(after, n, x)
      case Retain => Unprotect(w, n, x)
  }
}
