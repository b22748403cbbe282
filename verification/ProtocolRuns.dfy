/** What every step of the evacuation protocol keeps, and safety over whole runs. */
module ProtocolRuns {
  import opened Wrappers
  import opened Admission
  import opened Volumes
  import opened Machines
  import opened Protocol
  import AdmissionRuns
  import VolumeRuns

  // ---- Annotations ----

  /** What a pass for node n leaves alone on a volume: annotations that do not belong to n, what it is a
      volume of, the action asked for, and the volume itself unless that action says otherwise. */
  ghost predicate PvKept(pv: Pv, after: Pv, n: string, c: Catalog) {
    && (forall k :: !VolumeRuns.Owns(n, k) ==> Lookup(after.notes, k) == Lookup(pv.notes, k))
    && (after.deleting ==> pv.deleting || ExplicitAction(pv, c) == Some(Delete))
    && ExplicitAction(after, c) == ExplicitAction(pv, c)
    && after.csi == pv.csi
  }

  ghost predicate VolumesKept(pvs: Pvs, after: Pvs, n: string, c: Catalog) {
    after.Keys == pvs.Keys && forall p :: p in pvs ==> PvKept(pvs[p], after[p], n, c)
  }

  lemma KeptTransitive(a: Pvs, b: Pvs, d: Pvs, n: string, c: Catalog)
    requires VolumesKept(a, b, n, c) && VolumesKept(b, d, n, c)
    ensures VolumesKept(a, d, n, c)
  {
    forall p | p in a
      ensures PvKept(a[p], d[p], n, c)
    {
      assert PvKept(a[p], b[p], n, c) && PvKept(b[p], d[p], n, c);
    }
  }

  lemma WriteKeeps(w: VolumeRuns.Write, n: string, pv: Pv, c: Catalog)
    requires w.Prepare? ==> w.f.catalog == c
    ensures PvKept(pv, VolumeRuns.Do(w, n, pv), n, c)
  {
    forall k | !VolumeRuns.Owns(n, k)
      ensures Lookup(VolumeRuns.Do(w, n, pv).notes, k) == Lookup(pv.notes, k)
    {
      VolumeRuns.DoFrame(w, n, pv, k);
    }
    VolumeRuns.DoLocal(w, n, pv, pv);
    VolumeRuns.DoFrame(w, n, pv, ActionKey);
  }

  lemma PrepareKeeps(w: World, n: string, x: Script)
    ensures VolumesKept(w.pvs, PrepareStep(w, n, x).world.pvs, n, x.facts.catalog)
  {
    var after := PrepareStep(w, n, x).world.pvs;
    forall p | p in w.pvs
      ensures PvKept(w.pvs[p], after[p], n, x.facts.catalog)
    {
      hide PvKept, Prepared, ByResource, Targets, PrepareResult;
      var attached := AttachedTo(x.facts.attachments, p) != {};
      KeptAsIs(w.pvs[p], n, x.facts.catalog);
      var write := VolumeRuns.Prepare(attached, x.facts, p !in x.refused.updates, p !in x.refused.deletions);
      WriteKeeps(write, n, w.pvs[p], x.facts.catalog);
    }
  }

  lemma ReattachKeeps(w: World, n: string, x: Script)
    ensures VolumesKept(w.pvs, ReattachStep(w, n, x).world.pvs, n, x.facts.catalog)
  {
    var all := ReattachedAll(w.pvs, n, x.now, x.strategy, x.facts);
    forall p | p in w.pvs
      ensures PvKept(w.pvs[p], all[p], n, x.facts.catalog)
    {
      var write := VolumeRuns.Reattach(x.now, x.strategy, AttachedTo(x.facts.attachments, p));
      WriteKeeps(write, n, w.pvs[p], x.facts.catalog);
    }
    hide PvKept, ReattachedAll, AnyReattachFails, AnyBlocked;
    forall p | p in w.pvs
      ensures PvKept(w.pvs[p], w.pvs[p], n, x.facts.catalog)
    {
      KeptAsIs(w.pvs[p], n, x.facts.catalog);
    }
  }

  lemma KeptAsIs(pv: Pv, n: string, c: Catalog)
    ensures PvKept(pv, pv, n, c)
  {
  }

  lemma CleanKeeps(w: World, n: string, x: Script)
    ensures VolumesKept(w.pvs, CleanStep(w, n, x).world.pvs, n, x.facts.catalog)
  {
    forall p | p in w.pvs {
      WriteKeeps(VolumeRuns.Clean, n, w.pvs[p], x.facts.catalog);
    }
  }

  ghost predicate FreeOf(pvs: Pvs, n: string) {
    forall p, k :: p in pvs && VolumeRuns.Owns(n, k) ==> k !in pvs[p].notes
  }

  lemma CleanFrees(w: World, n: string, x: Script)
    requires CleanStep(w, n, x).progress == Done
    ensures FreeOf(CleanStep(w, n, x).world.pvs, n)
  {
    forall p | p in w.pvs { CleanedDiffers(w.pvs[p], n); }
  }

  lemma FinishKeeps(w: World, n: string, x: Script)
    ensures VolumesKept(w.pvs, FinishSteps(w, n, x).world.pvs, n, x.facts.catalog)
    ensures FinishSteps(w, n, x).progress == Done ==> FreeOf(FinishSteps(w, n, x).world.pvs, n)
  {
    hide PvKept, FreeOf, CleanedAll, AnyCleanFails, SyncUnreadable, StillSyncing, Empty;
    forall p | p in w.pvs { KeptAsIs(w.pvs[p], n, x.facts.catalog); }
    var s6 := RemainingStep(EvacuateStep(w, n, x).world, n, x);
    CleanKeeps(s6.world, n, x);
    if CleanStep(s6.world, n, x).progress == Done {
      CleanFrees(s6.world, n, x);
    }
  }

  lemma EarlyKeeps(w: World, n: string, x: Script)
    ensures VolumesKept(w.pvs, EarlySteps(w, n, x).world.pvs, n, x.facts.catalog)
  {
    hide PvKept, VolumesKept, PreparedAll, PrepareResult, TargetsOf, ReattachedAll, AnyReattachFails, AnyBlocked;
    var c := x.facts.catalog;
    var s1 := PrepareStep(w, n, x);
    var s3 := DrainStep(PeersStep(s1.world, n, x).world, n, x);
    PrepareKeeps(w, n, x);
    assert s3.world.pvs == s1.world.pvs;
    var s4 := ReattachStep(s3.world, n, x);
    ReattachKeeps(s3.world, n, x);
    KeptTransitive(w.pvs, s1.world.pvs, s4.world.pvs, n, c);
  }

  /** A whole evacuation pass changes no annotation of another owner and deletes no volume on its own
      account; when it is done, no volume carries any of the node's annotations. */
  lemma PassKeepsVolumes(w: World, n: string, x: Script)
    ensures VolumesKept(w.pvs, EvacuateSteps(w, n, x).world.pvs, n, x.facts.catalog)
    ensures EvacuateSteps(w, n, x).progress == Done ==> FreeOf(EvacuateSteps(w, n, x).world.pvs, n)
  {
    hide PvKept, FreeOf, VolumesKept, EarlySteps, FinishSteps;
    var s4 := EarlySteps(w, n, x);
    EarlyKeeps(w, n, x);
    FinishKeeps(s4.world, n, x);
    KeptTransitive(w.pvs, s4.world.pvs, FinishSteps(s4.world, n, x).world.pvs, n, x.facts.catalog);
  }

  // ---- What else a pass touches ----

  /** Everything but the volumes, for all satellites but n; and no data anywhere. */
  ghost predicate RestKept(w: World, after: World, n: string) {
    && after.finalizers == w.finalizers
    && after.board == w.board
    && after.machines.Keys == w.machines.Keys
    && (forall m :: m in w.machines && m != n ==> after.machines[m] == w.machines[m])
    && (n in w.machines ==> after.machines[n].deleting == w.machines[n].deleting)
    && after.linstor.nodes == w.linstor.nodes
    && after.linstor.replicas == w.linstor.replicas
    && after.linstor.snapshots == w.linstor.snapshots
    && w.linstor.evacuating <= after.linstor.evacuating <= w.linstor.evacuating + {n}
  }

  ghost function HooksOf(w: World, n: string): Hooks {
    if n in w.machines then w.machines[n].hooks else Hooks(false, false)
  }

  lemma RestTransitive(a: World, b: World, c: World, n: string)
    requires RestKept(a, b, n) && RestKept(b, c, n)
    ensures RestKept(a, c, n)
  {
  }

  lemma EvacuateRest(w: World, n: string, x: Script)
    ensures RestKept(w, EvacuateStep(w, n, x).world, n)
  {
    hide SyncUnreadable, StillSyncing;
  }

  lemma TerminateRest(w: World, n: string, x: Script)
    ensures RestKept(w, TerminateStep(w, n, x).world, n)
  {
  }

  lemma CleanRest(w: World, n: string, x: Script)
    ensures RestKept(w, CleanStep(w, n, x).world, n)
  {
    hide CleanedAll, AnyCleanFails;
  }

  lemma FinishRest(w: World, n: string, x: Script)
    ensures RestKept(w, FinishSteps(w, n, x).world, n)
  {
    var s5 := EvacuateStep(w, n, x);
    var s7 := CleanStep(s5.world, n, x);
    EvacuateRest(w, n, x);
    CleanRest(s5.world, n, x);
    TerminateRest(s7.world, n, x);
    hide EvacuateStep, CleanStep, TerminateStep, Empty;
    RestTransitive(w, s5.world, s7.world, n);
    RestTransitive(w, s7.world, TerminateStep(s7.world, n, x).world, n);
    hide RestKept;
  }

  lemma FinishHooks(w: World, n: string, x: Script)
    ensures var after := HooksOf(FinishSteps(w, n, x).world, n); var before := HooksOf(w, n);
            after != before ==>
              Empty(w.linstor, n) && FreeOf(FinishSteps(w, n, x).world.pvs, n) && !after.terminate && !after.drain
    ensures FinishSteps(w, n, x).progress == Done ==> Empty(w.linstor, n)
  {
    hide CleanedAll, AnyCleanFails, FreeOf, SyncUnreadable, StillSyncing, Empty;
    var s5 := EvacuateStep(w, n, x);
    var s7 := CleanStep(s5.world, n, x);
    if s7.progress == Done { CleanFrees(s5.world, n, x); }
    EmptySame(w.linstor, s5.world.linstor, n);
    assert s7.world.machines == w.machines;
  }

  lemma EmptySame(a: Linstor, b: Linstor, n: string)
    requires a.replicas == b.replicas && a.snapshots == b.snapshots
    ensures Empty(a, n) == Empty(b, n)
  {
  }

  lemma EarlyHooks(w: World, n: string, x: Script)
    ensures RestKept(w, EarlySteps(w, n, x).world, n)
    ensures EarlySteps(w, n, x).world.linstor == w.linstor
    ensures EarlySteps(w, n, x).progress == Done ==>
              PrepareStep(w, n, x).progress == Done && forall i :: 0 <= i < |x.peers| ==> Ready(x.peers[i], n)
    ensures var after := HooksOf(EarlySteps(w, n, x).world, n); var before := HooksOf(w, n);
            && (after.drain ==> before.drain) && after.terminate == before.terminate
            && (before.drain && !after.drain ==>
                  PrepareStep(w, n, x).progress == Done && forall i :: 0 <= i < |x.peers| ==> Ready(x.peers[i], n))
  {
    hide PreparedAll, PrepareResult, ReattachedAll, AnyReattachFails, AnyBlocked, TargetsOf;
    var s1 := PrepareStep(w, n, x);
    var s2 := PeersStep(s1.world, n, x);
    assert s2.world == s1.world && s1.world.machines == w.machines;
    hide PrepareStep;
  }

  lemma PassHooks(w: World, n: string, x: Script)
    ensures RestKept(w, EvacuateSteps(w, n, x).world, n)
    ensures EvacuateSteps(w, n, x).progress == Done ==> Empty(w.linstor, n)
    ensures var after := HooksOf(EvacuateSteps(w, n, x).world, n); var before := HooksOf(w, n);
            && (after.drain ==> before.drain) && (after.terminate ==> before.terminate)
            && (before.drain && !after.drain ==>
                  PrepareStep(w, n, x).progress == Done && forall i :: 0 <= i < |x.peers| ==> Ready(x.peers[i], n))
            && (before.terminate && !after.terminate ==>
                  Empty(w.linstor, n) && FreeOf(EvacuateSteps(w, n, x).world.pvs, n) && !after.drain)
  {
    hide EarlySteps, FinishSteps, PrepareStep, FreeOf, Empty, Ready;
    EarlyHooks(w, n, x);
    var s4 := EarlySteps(w, n, x);
    FinishHooks(s4.world, n, x);
    FinishRest(s4.world, n, x);
  }

  lemma AdmittedPass(w: World, n: string, x: Script)
    ensures VolumesKept(w.pvs, EvacuateSatellite(w, n, x).world.pvs, n, x.facts.catalog)
    ensures RestKept(w.(board := map[]), EvacuateSatellite(w, n, x).world.(board := map[]), n)
    ensures EvacuateSatellite(w, n, x).progress == Done ==>
              Admits(w, n, x) && Empty(w.linstor, n) && FreeOf(EvacuateSatellite(w, n, x).world.pvs, n)
    ensures !Admits(w, n, x) ==> EvacuateSatellite(w, n, x).world == w.(board := EvacuateSatellite(w, n, x).world.board)
  {
    hide PvKept, FreeOf, EvacuateSteps, Empty, Record, Admitted;
    PassKeepsVolumes(w, n, x);
    PassHooks(w, n, x);
    forall p | p in w.pvs { KeptAsIs(w.pvs[p], n, x.facts.catalog); }
  }

  // ---- Hooks ----

  /** When the drain hook goes, the satellite was admitted, step 1 was complete, and every other
      satellite that stays was configured; when the terminate hook goes, the node held nothing any more
      and its annotations were gone. */
  lemma HookGates(w: World, n: string, x: Script)
    ensures var after := EvacuateSatellite(w, n, x).world;
            && (HooksOf(w, n).drain && !HooksOf(after, n).drain ==>
                  && Admits(w, n, x) && PrepareStep(w, n, x).progress == Done
                  && forall i :: 0 <= i < |x.peers| && x.peers[i].name != n && !x.peers[i].deleting ==>
                       x.peers[i].configured == Some((x.peers[i].generation, true)))
            && (HooksOf(w, n).terminate && !HooksOf(after, n).terminate ==>
                  Admits(w, n, x) && Empty(after.linstor, n) && FreeOf(after.pvs, n) && !HooksOf(after, n).drain)
  {
    PassHooks(w, n, x);
    hide PvKept, FreeOf, EvacuateSteps, PrepareStep;
  }

  /** The node is never released for termination while it is still held back from draining. */
  ghost predicate HooksOrdered(w: World) {
    forall n :: n in w.machines && w.machines[n].hooks.drain ==> w.machines[n].hooks.terminate
  }

  /** What making a satellite ready leaves alone: all but its finalizer, its Machine's hooks and its node. */
  ghost predicate ReadyKept(w: World, after: World, n: string) {
    && after.board == w.board && after.pvs == w.pvs
    && after.machines.Keys == w.machines.Keys
    && (forall m :: m in w.machines && m != n ==> after.machines[m] == w.machines[m])
    && (n in w.machines ==> after.machines[n].deleting == w.machines[n].deleting)
    && w.finalizers <= after.finalizers <= w.finalizers + {n}
    && after.linstor == w.linstor.(nodes := after.linstor.nodes)
    && w.linstor.nodes.Keys <= after.linstor.nodes.Keys <= w.linstor.nodes.Keys + {n}
    && after.linstor.nodes - {n} == w.linstor.nodes - {n}
  }

  lemma HooksKeep(w: World, n: string, x: Script)
    ensures ReadyKept(w, HooksStep(w, n, x).world, n)
    ensures HooksStep(w, n, x).world.linstor == w.linstor && HooksStep(w, n, x).world.finalizers == w.finalizers
    ensures WantsEvacuation(w, n, x) ==> HooksStep(w, n, x) == Step(w, Done)
    ensures HooksOrdered(w) ==> HooksOrdered(HooksStep(w, n, x).world)
  {
    if n in w.machines { assert w.machines[n := w.machines[n]] == w.machines; }
  }

  lemma RegisterKeeps(w: World, n: string, x: Script)
    ensures ReadyKept(w, RegisterStep(w, n, x).world, n)
    ensures RegisterStep(w, n, x).world == w.(linstor := RegisterStep(w, n, x).world.linstor)
    ensures HooksOrdered(w) ==> HooksOrdered(RegisterStep(w, n, x).world)
  {
    Nodes.RegisteredFrame(w.linstor.nodes, n, Wanted(w, n, x), x.register);
    hide Nodes.Registered, Nodes.Registers, Wanted;
  }

  lemma ReadyTransitive(a: World, b: World, c: World, n: string)
    requires ReadyKept(a, b, n) && ReadyKept(b, c, n)
    ensures ReadyKept(a, c, n)
  {
  }

  lemma ReadyKeeps(w: World, n: string, x: Script)
    ensures ReadyKept(w, ReadyStep(w, n, x).world, n)
    ensures HooksOrdered(w) ==> HooksOrdered(ReadyStep(w, n, x).world)
    ensures WantsEvacuation(w, n, x) ==> ReadyStep(w, n, x).world.machines == w.machines
  {
    var f := FinalizerStep(w, n, x);
    var h := HooksStep(f, n, x);
    HooksKeep(f, n, x);
    RegisterKeeps(h.world, n, x);
    assert ReadyKept(w, f, n);
    hide HooksStep, RegisterStep;
    ReadyTransitive(w, f, h.world, n);
    ReadyTransitive(w, h.world, RegisterStep(h.world, n, x).world, n);
    hide ReadyKept;
  }

  lemma PassOrdered(w: World, n: string, x: Script)
    requires HooksOrdered(w)
    ensures HooksOrdered(EvacuateSatellite(w, n, x).world)
  {
    HookGates(w, n, x);
    AdmittedPass(w, n, x);
    PassHooks(w, n, x);
    var after := EvacuateSatellite(w, n, x).world;
    forall m | m in after.machines && after.machines[m].hooks.drain
      ensures after.machines[m].hooks.terminate
    {
      if m == n {
        assert HooksOf(after, n).drain;
        assert HooksOf(w, n).drain;
      } else {
        assert after.machines[m] == w.machines[m];
      }
    }
  }

  lemma RemoveWithoutClusterOrdered(w: World, n: string, x: Script)
    requires HooksOrdered(w)
    ensures HooksOrdered(RemoveWithoutCluster(w, n, x))
  {
  }

  lemma RemoveWithoutClusterKeeps(w: World, n: string, x: Script)
    ensures var after := RemoveWithoutCluster(w, n, x);
            after.linstor == w.linstor && after.board == w.board && after.pvs == w.pvs
  {
  }

  lemma RemoveEvacuatingMachines(w: World, n: string, x: Script)
    ensures var after := RemoveEvacuating(w, n, x);
            || (after.machines == w.machines && after.board == w.board)
            || (after.machines == EvacuateSatellite(w, n, x).world.machines
                && after.board == EvacuateSatellite(w, n, x).world.board)
  {
    hide EvacuateSatellite, Forget;
  }

  lemma RemoveOrdered(w: World, n: string, x: Script)
    requires HooksOrdered(w)
    ensures HooksOrdered(Remove(w, n, x))
  {
    hide EvacuateSatellite, RemoveWithoutCluster, RemoveEvacuating, Forget;
    PassOrdered(w, n, x);
    RemoveWithoutClusterOrdered(w, n, x);
    RemoveEvacuatingMachines(w, n, x);
    OrderedByMachines(EvacuateSatellite(w, n, x).world, RemoveEvacuating(w, n, x));
    OrderedByMachines(w, RemoveEvacuating(w, n, x));
    OrderedByMachines(w, Remove(w, n, x));
    hide HooksOrdered;
  }

  lemma OrderedByMachines(a: World, b: World)
    requires HooksOrdered(a)
    ensures a.machines == b.machines ==> HooksOrdered(b)
  {
  }

  // ---- Data ----

  /** A satellite that is not being deleted never makes the operator discard a replica or snapshot, forget a
      node or drop a finalizer; at most it gets its own. */
  lemma TendDiscardsNothing(w: World, n: string, x: Script)
    ensures var after := Tend(w, n, x);
            && after.linstor.replicas == w.linstor.replicas && after.linstor.snapshots == w.linstor.snapshots
            && w.linstor.nodes.Keys <= after.linstor.nodes.Keys <= w.linstor.nodes.Keys + {n}
            && after.linstor.nodes - {n} == w.linstor.nodes - {n}
            && w.finalizers <= after.finalizers <= w.finalizers + {n}
  {
    ReadyKeeps(w, n, x);
    AdmittedPass(ReadyStep(w, n, x).world, n, x);
    hide EvacuateSatellite, VolumesKept, FreeOf, Empty, ReadyStep, Admits, MachineGoes;
  }

  lemma ForgetEmpty(l: Linstor, n: string)
    ensures Forget(l, n).replicas == l.replicas && Forget(l, n).snapshots == l.snapshots <==> Empty(l, n)
  {
    if Empty(l, n) {
      forall p | p in l.replicas + l.snapshots ensures !On(n, p) {}
    } else {
      var p :| p in l.replicas + l.snapshots && On(n, p);
      assert p !in Forget(l, n).replicas && p !in Forget(l, n).snapshots;
    }
  }

  lemma RemoveEvacuatingDiscardsNothing(w: World, n: string, x: Script)
    ensures RemoveEvacuating(w, n, x).linstor.replicas == w.linstor.replicas
    ensures RemoveEvacuating(w, n, x).linstor.snapshots == w.linstor.snapshots
  {
    AdmittedPass(w, n, x);
    hide EvacuateSatellite, VolumesKept, FreeOf, Admits;
    var s := EvacuateSatellite(w, n, x);
    assert s.progress == Done ==> Empty(s.world.linstor, n);
    ForgetEmpty(s.world.linstor, n);
    hide Empty, Forget;
  }

  /** Deleting a satellite discards data exactly when the policy says so, the order reached LINSTOR, and
      there was something on the node. */
  lemma RemoveDiscardsIff(w: World, n: string, x: Script)
    ensures Remove(w, n, x).linstor.replicas != w.linstor.replicas
            || Remove(w, n, x).linstor.snapshots != w.linstor.snapshots
       <==> && n in w.finalizers && NodeMachine !in x.broken && ClusterClient !in x.broken && x.hasCluster
            && x.policy == Purge && Written(x.removeNode) && !Empty(w.linstor, n)
  {
    RemoveEvacuatingDiscardsNothing(w, n, x);
    RemoveWithoutClusterKeeps(w, n, x);
    ForgetEmpty(w.linstor, n);
    hide RemoveEvacuating, RemoveWithoutCluster, Empty, Forget;
  }

  /** Under the evacuation policy the finalizer goes only once LINSTOR does not know the node, or its
      evacuation is complete, nothing is left on it, and deleting the node succeeded or found none. */
  lemma FinalizerGate(w: World, n: string, x: Script)
    requires x.policy == Evacuate && x.hasCluster && n in w.finalizers && n !in Remove(w, n, x).finalizers
    ensures LinstorNode !in x.broken
    ensures n !in w.linstor.nodes
         || (&& Admits(w, n, x) && EvacuateSatellite(w, n, x).progress == Done
             && Empty(w.linstor, n) && FreeOf(Remove(w, n, x).pvs, n)
             && (x.removeNode == Applied || x.removeNode == NotFound))
  {
    AdmittedPass(w, n, x);
    hide EvacuateSatellite, VolumesKept, FreeOf, Empty, Admits, Forget;
  }

  // ---- Runs ----

  datatype Event =
    | Tended(n: string, x: Script)
    | Removed(n: string, x: Script)
    | Elsewhere(after: World)  // something that is not an operator step

  ghost function Happen(w: World, e: Event): World {
    match e
    case Tended(n, x) => Tend(w, n, x)
    case Removed(n, x) => Remove(w, n, x)
    case Elsewhere(after) => after
  }

  /** Others do not edit the hooks, new Machines have none, and conditions of satellites only vanish. */
  ghost predicate Fair(w: World, e: Event) {
    e.Elsewhere? ==>
      && (forall n :: n in e.after.machines ==> e.after.machines[n].hooks == HooksOf(w, n))
      && (forall n :: n in e.after.board ==> Lookup(w.board, n) == Some(e.after.board[n]))
  }

  ghost function Run(w: World, es: seq<Event>): World {
    if es == [] then w else Happen(Run(w, es[..|es| - 1]), es[|es| - 1])
  }

  ghost predicate FairRun(w: World, es: seq<Event>) {
    es == [] || (FairRun(w, es[..|es| - 1]) && Fair(Run(w, es[..|es| - 1]), es[|es| - 1]))
  }

  lemma TendOrdered(w: World, n: string, x: Script)
    requires HooksOrdered(w)
    ensures HooksOrdered(Tend(w, n, x))
  {
    ReadyKeeps(w, n, x);
    var r := ReadyStep(w, n, x).world;
    PassOrdered(r, n, x);
    hide EvacuateSatellite, ReadyStep, WantsEvacuation, ReadyKept;
    OrderedByMachines(r, Tend(w, n, x));
    OrderedByMachines(EvacuateSatellite(r, n, x).world, Tend(w, n, x));
    hide HooksOrdered;
  }

  lemma StepOrdered(w: World, e: Event)
    requires HooksOrdered(w) && Fair(w, e)
    ensures HooksOrdered(Happen(w, e))
  {
    match e {
      case Tended(n, x) =>
        TendOrdered(w, n, x);
        hide Tend;
      case Removed(n, x) => RemoveOrdered(w, n, x);
      case Elsewhere(after) =>
    }
  }

  /** In every reachable state the terminate hook protects every node that has the drain hook. */
  lemma {:induction false} RunsOrderHooks(w: World, es: seq<Event>)
    requires HooksOrdered(w) && FairRun(w, es)
    ensures HooksOrdered(Run(w, es))
  {
    if es != [] {
      RunsOrderHooks(w, es[..|es| - 1]);
      StepOrdered(Run(w, es[..|es| - 1]), es[|es| - 1]);
    }
  }

  // ---- Runs and the admission order ----

  ghost function OutcomeOf(p: Progress): AdmissionRuns.Outcome {
    match p
    case Failed => AdmissionRuns.Outcome.Failed
    case Pending => AdmissionRuns.Unfinished
    case Done => AdmissionRuns.Finished
  }

  /** What an evacuating reconcile of n is to the admission order. */
  ghost function AdmissionEventOf(w: World, n: string, x: Script): AdmissionRuns.Event {
    if x.limit > 0 && Satellites in x.broken then AdmissionRuns.ListFails(n, x.now)
    else AdmissionRuns.Ask(n, x.now, OutcomeOf(EvacuateSteps(w, n, x).progress))
  }

  /** An evacuating reconcile writes the board as the admission protocol says. */
  lemma PassIsAdmissionStep(w: World, n: string, x: Script)
    ensures EvacuateSatellite(w, n, x).world.board == AdmissionRuns.Next(w.board, x.limit, AdmissionEventOf(w, n, x))
    ensures AdmissionEventOf(w, n, x).sat == n
  {
    hide EvacuateSteps, Admitted, Record;
  }

  ghost predicate TendAsks(w: World, n: string, x: Script) {
    ReadyStep(w, n, x).progress == Done && x.online && WantsEvacuation(w, n, x) && Limit !in x.broken
  }

  ghost predicate RemoveAsks(w: World, n: string, x: Script) {
    && n in w.finalizers && NodeMachine !in x.broken && ClusterClient !in x.broken && x.hasCluster
    && x.policy == Evacuate && LinstorNode !in x.broken && n in w.linstor.nodes && Limit !in x.broken
  }

  ghost function Vanishing(gone: set<string>): (es: seq<AdmissionRuns.Event>)
    ensures forall e :: e in es ==> e.Vanish? && e.sat in gone
  {
    if gone == {} then [] else var n :| n in gone; Vanishing(gone - {n}) + [AdmissionRuns.Vanish(n)]
  }

  /** What one event is to the admission order. */
  ghost function AdmissionEvents(w: World, e: Event): seq<AdmissionRuns.Event> {
    match e
    case Tended(n, x) => if TendAsks(w, n, x) then [AdmissionEventOf(ReadyStep(w, n, x).world, n, x)] else []
    case Removed(n, x) => if RemoveAsks(w, n, x) then [AdmissionEventOf(w, n, x)] else []
    case Elsewhere(after) => Vanishing(w.board.Keys - after.board.Keys)
  }

  /** What a run is to the admission order. */
  ghost function Trace(w: World, es: seq<Event>): seq<AdmissionRuns.Event> {
    if es == [] then []
    else Trace(w, es[..|es| - 1]) + AdmissionEvents(Run(w, es[..|es| - 1]), es[|es| - 1])
  }

  lemma {:induction false} VanishingRemoves(b: Board, limit: int, gone: set<string>)
    ensures AdmissionRuns.Run(b, limit, Vanishing(gone)) == b - gone
  {
    if gone != {} {
      var es := Vanishing(gone);
      var n := es[|es| - 1].sat;
      assert es[|es| - 1] in es && es[..|es| - 1] == Vanishing(gone - {n});
      VanishingRemoves(b, limit, gone - {n});
      assert b - (gone - {n}) - {n} == b - gone;
    }
  }

  lemma OneEvent(b: Board, limit: int, e: AdmissionRuns.Event)
    ensures AdmissionRuns.Run(b, limit, [e]) == AdmissionRuns.Next(b, limit, e)
  {
    hide AdmissionRuns.Next;
    assert [e][..0] == [];
  }

  lemma TendIsTraced(w: World, n: string, x: Script)
    ensures Tend(w, n, x).board == AdmissionRuns.Run(w.board, x.limit, AdmissionEvents(w, Tended(n, x)))
  {
    var r := ReadyStep(w, n, x).world;
    ReadyKeeps(w, n, x);
    hide EvacuateSatellite, ReadyStep, AdmissionEventOf, AdmissionRuns.Next, WantsEvacuation;
    PassIsAdmissionStep(r, n, x);
    OneEvent(w.board, x.limit, AdmissionEventOf(r, n, x));
  }

  lemma RemoveIsTraced(w: World, n: string, x: Script)
    ensures Remove(w, n, x).board == AdmissionRuns.Run(w.board, x.limit, AdmissionEvents(w, Removed(n, x)))
  {
    PassIsAdmissionStep(w, n, x);
    OneEvent(w.board, x.limit, AdmissionEventOf(w, n, x));
    RemoveWithoutClusterKeeps(w, n, x);
    hide EvacuateSatellite, RemoveWithoutCluster, AdmissionEventOf, AdmissionRuns.Next, Forget;
  }

  lemma StepIsTraced(w: World, e: Event, limit: int)
    requires Fair(w, e) && (!e.Elsewhere? ==> e.x.limit == limit)
    ensures Happen(w, e).board == AdmissionRuns.Run(w.board, limit, AdmissionEvents(w, e))
  {
    match e {
      case Tended(n, x) => TendIsTraced(w, n, x);
      case Removed(n, x) => RemoveIsTraced(w, n, x);
      case Elsewhere(after) =>
        VanishingRemoves(w.board, limit, w.board.Keys - after.board.Keys);
        assert w.board - (w.board.Keys - after.board.Keys) == after.board by {
          forall n | n in after.board ensures n in w.board && w.board[n] == after.board[n] {
            assert Lookup(w.board, n) == Some(after.board[n]);
          }
        }
    }
    hide Tend, Remove, AdmissionRuns.Run, AdmissionEvents;
  }

  ghost predicate LimitedTo(es: seq<Event>, limit: int) {
    forall e :: e in es && !e.Elsewhere? ==> e.x.limit == limit
  }

  /** The board of every run is that of its trace: the admission order decides nothing else, and nothing
      else decides it. */
  lemma {:induction false} TraceTellsBoard(w: World, es: seq<Event>, limit: int)
    requires FairRun(w, es) && LimitedTo(es, limit)
    ensures Run(w, es).board == AdmissionRuns.Run(w.board, limit, Trace(w, es))
  {
    if es != [] {
      var front, e := es[..|es| - 1], es[|es| - 1];
      assert e in es && forall d :: d in front ==> d in es;
      TraceTellsBoard(w, front, limit);
      StepIsTraced(Run(w, front), e, limit);
      hide Happen, Fair, AdmissionEvents;
      AdmissionRuns.RunConcat(w.board, limit, Trace(w, front), AdmissionEvents(Run(w, front), e));
    }
  }

  /** However reconciles and deletions of satellites interleave, no more than the limit evacuate at a
      time, and none that does is turned away when it asks again. */
  lemma RunsKeepTheLimit(w: World, es: seq<Event>, limit: int)
    requires limit > 0 && |AdmissionRuns.Active(w.board)| <= limit && FairRun(w, es) && LimitedTo(es, limit)
    ensures |AdmissionRuns.Active(Run(w, es).board)| <= limit
    ensures forall n, now :: n in AdmissionRuns.Active(Run(w, es).board) ==> Admitted(Run(w, es).board, limit, n, now)
  {
    TraceTellsBoard(w, es, limit);
    AdmissionRuns.RunsKeepTheLimit(w.board, limit, Trace(w, es));
  }

  /** A waiting satellite is served, or keeps a place below the limit, or has come forward by one place for
      every evacuation that ended; so enough of them let it in, however reconciles interleave. */
  lemma FirstComeFirstServed(w: World, es: seq<Event>, limit: int, v: string, now: int)
    requires limit > 0 && FairRun(w, es) && LimitedTo(es, limit) && AdmissionRuns.IsWaiting(w.board, v)
    requires AdmissionRuns.OrderlyRun(w.board, limit, Trace(w, es)) && AdmissionRuns.Lists(Trace(w, es), v)
    requires !AdmissionRuns.Served(w.board, limit, Trace(w, es), v)
    ensures var done := AdmissionRuns.Departures(w.board, limit, Trace(w, es)); var end := Run(w, es).board;
            && AdmissionRuns.IsWaiting(end, v)
            && (Position(end, v, now) < limit || Position(end, v, now) + done <= Position(w.board, v, now))
            && (done > Position(w.board, v, now) - limit ==> Admitted(end, limit, v, now))
  {
    hide AdmissionRuns.OrderlyRun, AdmissionRuns.Served, AdmissionRuns.Departures, Position, AdmissionRuns.Run, Run,
      Trace, FairRun, LimitedTo;
    TraceTellsBoard(w, es, limit);
    AdmissionRuns.FirstComeFirstServed(w.board, limit, Trace(w, es), v);
    AdmissionRuns.PositionIgnoresClock(w.board, v, 0, now);
    AdmissionRuns.PositionIgnoresClock(Run(w, es).board, v, 0, now);
  }

  /** With all slots taken, nobody but their holders is ever admitted in a run that frees none of them. */
  lemma HeldSlotsBlock(w: World, es: seq<Event>, limit: int)
    requires limit > 0 && FairRun(w, es) && LimitedTo(es, limit) && |AdmissionRuns.Active(w.board)| == limit
    requires AdmissionRuns.NoneFreed(w.board, limit, Trace(w, es))
    ensures forall n, now :: Admitted(Run(w, es).board, limit, n, now) <==> n in AdmissionRuns.Active(w.board)
  {
    TraceTellsBoard(w, es, limit);
    AdmissionRuns.HeldSlotsBlock(w.board, limit, Trace(w, es));
  }

  // ---- Runs and data ----

  /** The state that others left last. */
  ghost function Outside(w: World, es: seq<Event>): World {
    if es == [] then w
    else match es[|es| - 1]
      case Elsewhere(after) => after
      case _ => Outside(w, es[..|es| - 1])
  }

  /** The step makes LINSTOR forget a node that still holds something. */
  ghost predicate Discards(w: World, e: Event) {
    && e.Removed? && e.n in w.finalizers && NodeMachine !in e.x.broken && ClusterClient !in e.x.broken
    && e.x.hasCluster && e.x.policy == Purge && Written(e.x.removeNode) && !Empty(w.linstor, e.n)
  }

  lemma RemoveShrinks(w: World, n: string, x: Script)
    ensures Remove(w, n, x).linstor.replicas <= w.linstor.replicas
            && Remove(w, n, x).linstor.snapshots <= w.linstor.snapshots
  {
    RemoveEvacuatingDiscardsNothing(w, n, x);
    RemoveWithoutClusterKeeps(w, n, x);
    hide RemoveEvacuating, RemoveWithoutCluster, Empty;
  }

  lemma StepDiscardsIff(w: World, e: Event)
    requires !e.Elsewhere?
    ensures var a, b := w.linstor, Happen(w, e).linstor;
            && b.replicas <= a.replicas && b.snapshots <= a.snapshots
            && (b.replicas == a.replicas && b.snapshots == a.snapshots <==> !Discards(w, e))
  {
    hide Tend, Remove, Empty;
    match e {
      case Tended(n, x) => TendDiscardsNothing(w, n, x);
      case Removed(n, x) => RemoveShrinks(w, n, x); RemoveDiscardsIff(w, n, x);
    }
  }

  /** One of the steps since then discards something. */
  ghost predicate SomeDiscard(w: World, es: seq<Event>) {
    es != [] &&
    var front, e := es[..|es| - 1], es[|es| - 1];
    !e.Elsewhere? && (SomeDiscard(w, front) || Discards(Run(w, front), e))
  }

  /** Since others changed anything, the operator has discarded a replica or snapshot exactly if one of its
      steps deleted a satellite with the purge policy that still held something. */
  lemma {:induction false} RunDiscardsIff(w: World, es: seq<Event>)
    ensures var a, b := Outside(w, es).linstor, Run(w, es).linstor;
            && b.replicas <= a.replicas && b.snapshots <= a.snapshots
            && (b.replicas == a.replicas && b.snapshots == a.snapshots <==> !SomeDiscard(w, es))
  {
    if es != [] && !es[|es| - 1].Elsewhere? {
      var front, e := es[..|es| - 1], es[|es| - 1];
      RunDiscardsIff(w, front);
      StepDiscardsIff(Run(w, front), e);
      hide Happen, Discards;
    }
  }

  /** No satellite with a cluster is deleted under the purge policy. */
  ghost predicate NonePurged(es: seq<Event>) {
    forall e :: e in es && e.Removed? ==> !(e.x.policy == Purge && e.x.hasCluster)
  }

  /** Without the purge policy no number of operator steps discards a replica or a snapshot, whatever
      happens between them. */
  lemma EvacuationKeepsData(w: World, es: seq<Event>)
    requires NonePurged(es)
    ensures Run(w, es).linstor.replicas == Outside(w, es).linstor.replicas
    ensures Run(w, es).linstor.snapshots == Outside(w, es).linstor.snapshots
  {
    NonePurgedNoneDiscarded(w, es);
    RunDiscardsIff(w, es);
  }

  lemma {:induction false} NonePurgedNoneDiscarded(w: World, es: seq<Event>)
    requires NonePurged(es)
    ensures !SomeDiscard(w, es)
  {
    if es != [] {
      assert es[|es| - 1] in es && forall d :: d in es[..|es| - 1] ==> d in es;
      NonePurgedNoneDiscarded(w, es[..|es| - 1]);
      hide Run, Empty;
    }
  }

  lemma RemoveEvacuatingKeepsVolumes(w: World, n: string, x: Script)
    ensures VolumesKept(w.pvs, RemoveEvacuating(w, n, x).pvs, n, x.facts.catalog)
  {
    hide EvacuateSatellite, VolumesKept, FreeOf, Empty, Admits, Forget, RestKept;
    AdmittedPass(w, n, x);
    VolumesKeptAsIs(w.pvs, n, x.facts.catalog);
  }

  lemma RemoveKeepsVolumes(w: World, n: string, x: Script)
    ensures VolumesKept(w.pvs, Remove(w, n, x).pvs, n, x.facts.catalog)
  {
    hide EvacuateSatellite, VolumesKept, FreeOf, Empty, Admits, RemoveWithoutCluster, RemoveEvacuating, Forget,
      RestKept;
    RemoveEvacuatingKeepsVolumes(w, n, x);
    VolumesKeptAsIs(w.pvs, n, x.facts.catalog);
    RemoveWithoutClusterKeeps(w, n, x);
  }

  lemma VolumesKeptAsIs(pvs: Pvs, n: string, c: Catalog)
    ensures VolumesKept(pvs, pvs, n, c)
  {
    hide PvKept;
    forall p | p in pvs { KeptAsIs(pvs[p], n, c); }
  }

  lemma TendKeepsVolumes(w: World, n: string, x: Script)
    ensures VolumesKept(w.pvs, Tend(w, n, x).pvs, n, x.facts.catalog)
  {
    hide EvacuateSatellite, VolumesKept, FreeOf, Empty, Admits, ReadyStep, WantsEvacuation, RestKept;
    ReadyKeeps(w, n, x);
    AdmittedPass(ReadyStep(w, n, x).world, n, x);
    VolumesKeptAsIs(w.pvs, n, x.facts.catalog);
  }

  lemma StepKeepsVolumes(w: World, e: Event)
    requires !e.Elsewhere?
    ensures VolumesKept(w.pvs, Happen(w, e).pvs, e.n, e.x.facts.catalog)
  {
    hide Tend, Remove, VolumesKept;
    match e {
      case Tended(n, x) => TendKeepsVolumes(w, n, x);
      case Removed(n, x) => RemoveKeepsVolumes(w, n, x);
    }
  }

  /** One of the steps since then finds the volume with the action to delete it. */
  ghost predicate DeletionAsked(w: World, es: seq<Event>, p: string) {
    es != [] &&
    var front, e := es[..|es| - 1], es[|es| - 1];
    !e.Elsewhere? && (DeletionAsked(w, front, p)
      || (p in Run(w, front).pvs && ExplicitAction(Run(w, front).pvs[p], e.x.facts.catalog) == Some(Delete)))
  }

  /** The operator adds and drops no volume, and deletes none that it was not asked to; what the volume is
      of and what was asked for on it stay as others left them. */
  lemma {:induction false} VolumesSurviveRuns(w: World, es: seq<Event>, p: string)
    ensures Run(w, es).pvs.Keys == Outside(w, es).pvs.Keys
    ensures p in Run(w, es).pvs ==>
              var was, now := Outside(w, es).pvs[p], Run(w, es).pvs[p];
              && (now.deleting ==> was.deleting || DeletionAsked(w, es, p))
              && now.csi == was.csi && Lookup(now.notes, ActionKey) == Lookup(was.notes, ActionKey)
  {
    if es != [] && !es[|es| - 1].Elsewhere? {
      var front, e := es[..|es| - 1], es[|es| - 1];
      VolumesSurviveRuns(w, front, p);
      StepKeepsVolumes(Run(w, front), e);
      hide Happen, ExplicitAction;
      assert !VolumeRuns.Owns(e.n, ActionKey);
    }
  }

  /** The action nearest to the volume, on itself or else on its resource definition, is not to delete it. */
  ghost predicate SparedBy(pv: Pv, c: Catalog) {
    if ActionKey in pv.notes then pv.notes[ActionKey] != Text("Delete")
    else
      && pv.csi.Some? && pv.csi.value.handle in c.definitions
      && c.definitions[pv.csi.value.handle].action.Some? && c.definitions[pv.csi.value.handle].action.value != "Delete"
  }

  lemma SparedIsNotDeleted(pv: Pv, c: Catalog)
    requires SparedBy(pv, c)
    ensures ExplicitAction(pv, c) != Some(Delete)
  {
  }

  /** A nearer action outweighs the farther ones for good: a volume that its own annotation spares is not
      deleted in any run, whatever LINSTOR says, nor is one that its resource definition spares, whatever
      its resource group says. */
  lemma {:induction false} SparedVolumesSurvive(w: World, es: seq<Event>, p: string)
    requires p in Outside(w, es).pvs
    requires forall e :: e in es && !e.Elsewhere? ==> SparedBy(Outside(w, es).pvs[p], e.x.facts.catalog)
    ensures p in Run(w, es).pvs && !DeletionAsked(w, es, p)
    ensures Run(w, es).pvs[p].deleting ==> Outside(w, es).pvs[p].deleting
  {
    VolumesSurviveRuns(w, es, p);
    if es != [] && !es[|es| - 1].Elsewhere? {
      var front, e := es[..|es| - 1], es[|es| - 1];
      assert e in es && forall d :: d in front ==> d in es;
      SparedVolumesSurvive(w, front, p);
      VolumesSurviveRuns(w, front, p);
      assert SparedBy(Run(w, front).pvs[p], e.x.facts.catalog);
      SparedIsNotDeleted(Run(w, front).pvs[p], e.x.facts.catalog);
      hide SparedBy, ExplicitAction, Happen;
    }
  }
}
