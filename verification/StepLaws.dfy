/** What one reconcile or deletion of a satellite does to each part of the state, and exactly when
    (internal/controller/linstorsatellite_controller.go, pkg/evacuation/evacuation.go). */
module StepLaws {
  import opened Wrappers
  import opened Admission
  import opened Volumes
  import opened Machines
  import opened Protocol
  import opened ProtocolRuns
  import Nodes
  import Properties
  import VolumeRuns
  import Waiting

  // ---- What the steps of an evacuation find ----

  /** Nothing but the resources with a disk on the node leads to its volumes. */
  lemma {:induction false} DiskfulAre(view: seq<Resource>, name: string)
    ensures name in Diskful(view) <==> exists i :: 0 <= i < |view| && view[i].name == name && !view[i].diskless
  {
    if view != [] {
      DiskfulAre(view[1..], name);
      if view[0].name == name && !view[0].diskless {
        assert name in Diskful(view);
      } else {
        assert forall i :: 1 <= i < |view| ==> view[1..][i - 1] == view[i];
        if i :| 0 <= i < |view| && view[i].name == name && !view[i].diskless { assert view[1..][i - 1] == view[i]; }
      }
    }
  }

  /** A volume that step 1 meets: a resource with a disk on the node leads to it. */
  ghost predicate OnNode(w: World, x: Script, p: string)
    requires forall q :: q in x.facts.order ==> q in w.pvs
  {
    exists i, j :: 0 <= i < |x.view| && !x.view[i].diskless && 0 <= j < |x.facts.order| && x.facts.order[j] == p
      && LastServing(x.facts.order, w.pvs, x.view[i].name, j)
  }

  lemma TargetsAreOnNode(w: World, x: Script, p: string)
    requires forall q :: q in x.facts.order ==> q in w.pvs
    ensures p in TargetsOf(w, x) <==> OnNode(w, x, p)
  {
    hide LastServing, ByResource;
    VolumeRuns.TargetsAre(Diskful(x.view), x.facts.order, w.pvs, p);
    forall h { DiskfulAre(x.view, h); }
    hide Targets;
    if p in TargetsOf(w, x) {
      var j, h :| 0 <= j < |x.facts.order| && x.facts.order[j] == p && h in Diskful(x.view)
        && LastServing(x.facts.order, w.pvs, h, j);
      var i :| 0 <= i < |x.view| && x.view[i].name == h && !x.view[i].diskless;
    }
    if OnNode(w, x, p) {
      var i, j :| 0 <= i < |x.view| && !x.view[i].diskless && 0 <= j < |x.facts.order| && x.facts.order[j] == p
        && LastServing(x.facts.order, w.pvs, x.view[i].name, j);
      assert x.view[i].name in Diskful(x.view);
    }
  }

  // ---- Step 5: LINSTOR is asked ----

  /** The sync status of every resource that is moving away is known. */
  ghost predicate Readable(x: Script) {
    NodeResources !in x.broken && forall i :: 0 <= i < |x.view| && x.view[i].migrating ==> x.view[i].synced.Some?
  }

  /** LINSTOR is to be asked: it was not yet, or all that is moving has arrived. */
  ghost predicate Due(w: World, n: string, x: Script) {
    n in w.linstor.evacuating ==>
      forall i :: 0 <= i < |x.view| && x.view[i].migrating ==> x.view[i].synced != Some(false)
  }

  lemma FinishAsks(w: World, n: string, x: Script)
    ensures FinishSteps(w, n, x).world.linstor == w.linstor.(evacuating :=
              w.linstor.evacuating + (if Readable(x) && Due(w, n, x) && Written(x.evacuate) then {n} else {}))
    ensures !Readable(x) || (Due(w, n, x) && Failing(x.evacuate)) ==> FinishSteps(w, n, x).progress == Failed
    ensures Readable(x) && !Due(w, n, x) ==> forall r :: FinishSteps(w, n, x.(evacuate := r)) == FinishSteps(w, n, x)
  {
    hide CleanedAll, AnyCleanFails, Empty;
  }

  /** Once steps 1 to 4 are done, LINSTOR is asked to evacuate the node, and asked again whenever nothing is
      on its way: then, and only then, the call decides the flag of the node and can fail the pass. */
  lemma EvacuationIsAsked(w: World, n: string, x: Script)
    ensures var asked := EarlySteps(w, n, x).progress == Done && Readable(x) && Due(w, n, x);
            && EvacuateSteps(w, n, x).world.linstor.evacuating ==
                 w.linstor.evacuating + (if asked && Written(x.evacuate) then {n} else {})
            && (asked && Failing(x.evacuate) ==> EvacuateSteps(w, n, x).progress == Failed)
    ensures EarlySteps(w, n, x).progress == Done && !Readable(x) ==> EvacuateSteps(w, n, x).progress == Failed
    ensures EarlySteps(w, n, x).progress == Done && Readable(x) && !Due(w, n, x) ==>
              forall r :: EvacuateSteps(w, n, x.(evacuate := r)) == EvacuateSteps(w, n, x)
  {
    EarlyHooks(w, n, x);
    var s4 := EarlySteps(w, n, x);
    FinishAsks(s4.world, n, x);
    forall r ensures EarlySteps(w, n, x.(evacuate := r)) == s4 { EarlyIgnoresEvacuate(w, n, x, r); }
    hide EarlySteps, FinishSteps, Readable, Ready, RestKept;
  }

  lemma EarlyIgnoresEvacuate(w: World, n: string, x: Script, r: Reply)
    ensures EarlySteps(w, n, x.(evacuate := r)) == EarlySteps(w, n, x)
  {
    hide PreparedAll, PrepareResult, ReattachedAll, AnyReattachFails, AnyBlocked, ByResource, Targets;
  }

  // ---- When a pass is done ----

  ghost predicate AllConfigured(n: string, x: Script) {
    forall i :: 0 <= i < |x.peers| ==>
      var p := x.peers[i]; p.name == n || p.deleting || p.configured == Some((p.generation, true))
  }

  /** The write that step 4 or 7 needs for a volume fails, or its stamp cannot be read. */
  ghost predicate WaitFails(pv: Pv, n: string, x: Script, at: set<string>, faulty: bool) {
    var verdict := Judge(pv, n, x.now, x.strategy, at);
    || (SinceKey(n) in pv.notes && pv.notes[SinceKey(n)].Text?)
    || (faulty && (verdict == Released || (verdict == Blocked && SinceKey(n) !in pv.notes)))
  }

  lemma ReattachFailsIff(pvs: Pvs, p: string, n: string, x: Script)
    requires p in pvs
    ensures ReattachFails(pvs, p, n, x.now, x.strategy, x.facts, x.faulty)
       <==> WaitFails(pvs[p], n, x, AttachedTo(x.facts.attachments, p), p in x.faulty)
  {
    if JudgeIn(pvs, p, n, x.now, x.strategy, x.facts) == Released {
      ReleasedDiffers(pvs[p], n, x.now, x.strategy, AttachedTo(x.facts.attachments, p));
    }
    if JudgeIn(pvs, p, n, x.now, x.strategy, x.facts) == Blocked && SinceKey(n) !in pvs[p].notes {
      assert SinceKey(n) in Reattached(pvs[p], n, x.now, x.strategy, AttachedTo(x.facts.attachments, p)).notes;
    }
  }

  ghost predicate HasNotes(pv: Pv, n: string) {
    WaitKey(n) in pv.notes || SinceKey(n) in pv.notes || OverrideKey(n) in pv.notes
  }

  lemma CleanFailsIff(pvs: Pvs, n: string, unclean: set<string>)
    ensures AnyCleanFails(pvs, pvs.Keys, n, unclean) <==> exists p :: p in pvs && p in unclean && HasNotes(pvs[p], n)
  {
    hide Cleaned, HasNotes;
    forall p | p in pvs ensures Cleaned(pvs[p], n) != pvs[p] <==> HasNotes(pvs[p], n) { CleanDiffers(pvs[p], n); }
  }

  lemma CleanDiffers(pv: Pv, n: string)
    ensures Cleaned(pv, n) != pv <==> HasNotes(pv, n)
  {
    CleanedDiffers(pv, n);
  }

  ghost predicate Met(w: World, n: string, x: Script, p: string) {
    p in TargetsOf(w, x) && p in w.pvs
  }

  /** Step 1 is done: nothing that is due for a volume on the node fails, and no volume holds it up. */
  ghost predicate Prepares(w: World, n: string, x: Script) {
    && Preparation !in x.broken
    && forall p :: Met(w, n, x, p) ==>
         !VolumeRuns.CallFails(w.pvs[p], p, n, x.facts, x.refused) && !VolumeRuns.HoldsUpStepOne(w.pvs[p], n, x.facts)
  }

  lemma PreparesIff(w: World, n: string, x: Script)
    ensures PrepareStep(w, n, x).progress == Done <==> Prepares(w, n, x)
  {
    hide PreparedAll, PrepareFails, NeedsOverride, VolumeRuns.CallFails, VolumeRuns.HoldsUpStepOne, TargetsOf;
    forall p | Met(w, n, x, p)
      ensures PrepareFails(w.pvs, p, n, x.facts, x.refused)
              <==> VolumeRuns.CallFails(w.pvs[p], p, n, x.facts, x.refused)
      ensures NeedsOverride(w.pvs, p, n, x.facts) <==> VolumeRuns.HoldsUpStepOne(w.pvs[p], n, x.facts)
    {
      VolumeRuns.PrepareFailsIff(w.pvs, p, n, x.facts, x.refused);
      VolumeRuns.NeedsOverrideIff(w.pvs, p, n, x.facts);
    }
  }

  ghost predicate HasHook(w: World, n: string, x: Script, drain: bool) {
    x.seesMachine && n in w.machines && if drain then w.machines[n].hooks.drain else w.machines[n].hooks.terminate
  }

  /** Steps 1 to 3 are done: the pass gets to the wait. */
  ghost predicate GetsToWait(w: World, n: string, x: Script) {
    && Prepares(w, n, x) && Peers !in x.broken && AllConfigured(n, x)
    && !(HasHook(w, n, x, true) && Failing(x.drain))
  }

  /** Step 4 is done on the volumes as step 1 left them. */
  ghost predicate Reattaches(pvs: Pvs, n: string, x: Script) {
    && Reattachment !in x.broken
    && forall p :: p in pvs ==>
         var at := AttachedTo(x.facts.attachments, p);
         !WaitFails(pvs[p], n, x, at, p in x.faulty) && Judge(pvs[p], n, x.now, x.strategy, at) != Blocked
  }

  lemma ReattachesIff(w: World, n: string, x: Script)
    ensures ReattachStep(w, n, x).progress == Done <==> Reattaches(w.pvs, n, x)
  {
    hide ReattachFails, WaitFails, Judge, ReattachedAll;
    forall p | p in w.pvs { ReattachFailsIff(w.pvs, p, n, x); }
  }

  lemma EarlyDoneIff(w: World, n: string, x: Script)
    ensures EarlySteps(w, n, x).progress == Done
       <==> GetsToWait(w, n, x) && Reattaches(PrepareStep(w, n, x).world.pvs, n, x)
  {
    var s1 := PrepareStep(w, n, x);
    PreparesIff(w, n, x);
    assert s1.world.machines == w.machines;
    var s3 := DrainStep(s1.world, n, x);
    assert s3.world.pvs == s1.world.pvs;
    ReattachesIff(s3.world, n, x);
    hide PrepareStep, ReattachStep, Reattaches, Prepares;
  }

  ghost predicate Finishes(w: World, n: string, x: Script) {
    && Readable(x) && !(Due(w, n, x) && Failing(x.evacuate))
    && Remaining !in x.broken && (forall p :: p in w.linstor.replicas + w.linstor.snapshots ==> p.node != n)
    && VolumesToClean !in x.broken && (forall p :: p in w.pvs && p in x.unclean ==> !HasNotes(w.pvs[p], n))
    && !(HasHook(w, n, x, false) && Failing(x.terminate))
  }

  lemma FinishDoneIff(w: World, n: string, x: Script)
    ensures FinishSteps(w, n, x).progress == Done <==> Finishes(w, n, x)
  {
    var s5 := EvacuateStep(w, n, x);
    CleanFailsIff(w.pvs, n, x.unclean);
    EvacuateRest(w, n, x);
    EmptySame(w.linstor, s5.world.linstor, n);
    assert s5.world.pvs == w.pvs && s5.world.machines == w.machines;
    assert s5.progress == Done <==> Readable(x) && !(Due(w, n, x) && Failing(x.evacuate));
    assert Empty(w.linstor, n) <==> forall p :: p in w.linstor.replicas + w.linstor.snapshots ==> p.node != n by {
      if forall p :: p in w.linstor.replicas + w.linstor.snapshots ==> p.node != n {
        forall p | p in w.linstor.replicas + w.linstor.snapshots ensures !On(n, p) {}
      }
      if Empty(w.linstor, n) {
        forall p | p in w.linstor.replicas + w.linstor.snapshots ensures p.node != n { assert !On(n, p); }
      }
    }
    FinishDoneFrom(s5, n, x);
    hide EvacuateStep, CleanedAll, AnyCleanFails, HasNotes, Empty, RestKept, Readable, Due;
  }

  lemma FinishDoneFrom(s5: Step, n: string, x: Script)
    ensures var s6 := RemainingStep(s5.world, n, x); var s7 := CleanStep(s6.world, n, x);
            && (s6.progress == Done <==> Remaining !in x.broken && Empty(s5.world.linstor, n))
            && s6.world == s5.world
            && (s7.progress == Done <==>
                  VolumesToClean !in x.broken && !AnyCleanFails(s5.world.pvs, s5.world.pvs.Keys, n, x.unclean))
            && (TerminateStep(s7.world, n, x).progress == Done
                <==> !(HasHook(s5.world, n, x, false) && Failing(x.terminate)))
  {
    hide CleanedAll, AnyCleanFails, Empty;
  }

  /** Whatever calls fail, a pass is done exactly if: nothing due for a volume on the node fails and none holds
      step 1 up; the others are configured; the drain hook, if there is one, can be removed; no volume blocks
      the wait and its writes succeed; the sync status is known and LINSTOR takes the order if it is due; the
      node is empty; the annotations and the other hook can be removed. */
  lemma PassIsDoneIff(w: World, n: string, x: Script)
    ensures EvacuateSteps(w, n, x).progress == Done
       <==> && GetsToWait(w, n, x) && Reattaches(PrepareStep(w, n, x).world.pvs, n, x)
            && Finishes(EarlySteps(w, n, x).world, n, x)
  {
    EarlyDoneIff(w, n, x);
    FinishDoneIff(EarlySteps(w, n, x).world, n, x);
    hide EarlySteps, FinishSteps, GetsToWait, Reattaches, Finishes, PrepareStep;
  }

  // ---- Hooks ----

  ghost function Hook(w: World, n: string, drain: bool): bool {
    n in w.machines && if drain then w.machines[n].hooks.drain else w.machines[n].hooks.terminate
  }

  /** What an admitted pass does to the hooks of its Machine: the drain hook goes exactly if step 3 is reached
      and its update is written, or with the other one; that goes exactly if all that is left to do for the
      pass to be done is this update, and it is written. */
  lemma PassHooksIff(w: World, n: string, x: Script)
    ensures var after := EvacuateSteps(w, n, x).world;
            var undrained := Prepares(w, n, x) && Peers !in x.broken && AllConfigured(n, x) && x.seesMachine
                && Written(x.drain);
            var last := EvacuateSteps(w, n, x.(terminate := Applied)).progress == Done && x.seesMachine
                && Written(x.terminate);
            && (Hook(after, n, true) <==> Hook(w, n, true) && !undrained && !(last && Hook(w, n, false)))
            && (Hook(after, n, false) <==> Hook(w, n, false) && !last)
  {
    DrainHookEarly(w, n, x);
    FinishHooksIff(EarlySteps(w, n, x).world, n, x);
    EarlyIgnoresTerminate(w, n, x);
    hide EarlySteps, FinishSteps, Prepares, AllConfigured;
  }

  lemma EarlyIgnoresTerminate(w: World, n: string, x: Script)
    ensures EarlySteps(w, n, x.(terminate := Applied)) == EarlySteps(w, n, x)
  {
    hide PreparedAll, PrepareResult, ReattachedAll, AnyReattachFails, AnyBlocked, ByResource, Targets;
  }

  lemma DrainHookIff(w: World, n: string, x: Script)
    ensures var after := DrainStep(w, n, x).world;
            && (Hook(after, n, true) <==> Hook(w, n, true) && !(x.seesMachine && Written(x.drain)))
            && (Hook(after, n, false) <==> Hook(w, n, false))
  {
  }

  lemma ReattachKeepsMachines(w: World, n: string, x: Script)
    ensures ReattachStep(w, n, x).world.machines == w.machines
  {
    hide ReattachedAll, AnyReattachFails, AnyBlocked;
  }

  lemma PeersIff(w: World, n: string, x: Script)
    ensures PeersStep(w, n, x).world == w
    ensures PeersStep(w, n, x).progress == Done <==> Peers !in x.broken && AllConfigured(n, x)
  {
  }

  lemma DrainHookEarly(w: World, n: string, x: Script)
    ensures var after := EarlySteps(w, n, x).world;
            var undrained := Prepares(w, n, x) && Peers !in x.broken && AllConfigured(n, x) && x.seesMachine
                && Written(x.drain);
            && (Hook(after, n, true) <==> Hook(w, n, true) && !undrained)
            && (Hook(after, n, false) <==> Hook(w, n, false))
  {
    var s1 := PrepareStep(w, n, x);
    assert s1.world.machines == w.machines;
    hide PrepareStep, PeersStep, DrainStep, ReattachStep, Prepares, AllConfigured;
    PreparesIff(w, n, x);
    PeersIff(s1.world, n, x);
    DrainHookIff(s1.world, n, x);
    ReattachKeepsMachines(DrainStep(s1.world, n, x).world, n, x);
  }

  lemma FinishHooksIff(w: World, n: string, x: Script)
    ensures var after := FinishSteps(w, n, x).world;
            var last := FinishSteps(w, n, x.(terminate := Applied)).progress == Done && x.seesMachine
                && Written(x.terminate);
            && (Hook(after, n, true) <==> Hook(w, n, true) && !(last && Hook(w, n, false)))
            && (Hook(after, n, false) <==> Hook(w, n, false) && !last)
  {
    var s5 := EvacuateStep(w, n, x);
    var s6 := RemainingStep(s5.world, n, x);
    var s7 := CleanStep(s6.world, n, x);
    assert s7.world.machines == w.machines by { hide CleanedAll, AnyCleanFails, SyncUnreadable, StillSyncing, Empty; }
    var y := x.(terminate := Applied);
    assert EvacuateStep(w, n, y) == s5 && RemainingStep(s5.world, n, y) == s6 && CleanStep(s6.world, n, y) == s7;
    assert TerminateStep(s7.world, n, y).progress == Done;
    hide EvacuateStep, RemainingStep, CleanStep;
  }

  /** What a reconcile does to the hooks before anything else: under the evacuation policy a Machine that is not
      going gets both, unless it has them; under another policy each is removed, the drain hook also by the
      update that removes the other one. */
  lemma HooksFollowPolicy(w: World, n: string, x: Script)
    ensures var after := HooksStep(w, n, x).world;
            if !x.seesMachine || n !in w.machines then after == w
            else if x.policy == Evacuate then
              var set' := !w.machines[n].deleting && Written(x.prevent);
              && (Hook(after, n, true) <==> Hook(w, n, true) || set')
              && (Hook(after, n, false) <==> Hook(w, n, false) || set')
            else
              var gone := Hook(w, n, false) && Written(x.terminate);
              && (Hook(after, n, true) <==> Hook(w, n, true) && !Written(x.drain) && !gone)
              && (Hook(after, n, false) <==> Hook(w, n, false) && !gone)
    ensures HooksStep(w, n, x).progress != Done <==>
              && x.seesMachine && n in w.machines
              && if x.policy == Evacuate then
                   !w.machines[n].deleting && !(Hook(w, n, true) && Hook(w, n, false)) && x.prevent != Applied
                 else (Hook(w, n, true) && Failing(x.drain)) || (Hook(w, n, false) && Failing(x.terminate))
  {
  }

  // ---- A satellite that is not being deleted ----

  /** The reconcile gets through to the registration of the node. */
  ghost predicate Connects(w: World, n: string, x: Script) {
    && NodeMachine !in x.broken && HooksStep(w, n, x).progress == Done
    && x.hasCluster && ClusterClient !in x.broken && SatellitePod !in x.broken
  }

  /** The Machine of the node is being deleted. */
  ghost predicate Goes(w: World, n: string, x: Script) {
    x.seesMachine && n in w.machines && w.machines[n].deleting
  }

  ghost function PropertiesOf(w: World, n: string, x: Script): Properties.Props {
    if Goes(w, n, x) then x.props["AutoplaceTarget" := "false"] else x.props
  }

  lemma HooksIgnoreFinalizers(w: World, n: string, x: Script)
    ensures HooksStep(FinalizerStep(w, n, x), n, x).progress == HooksStep(w, n, x).progress
    ensures HooksStep(FinalizerStep(w, n, x), n, x).world.machines == HooksStep(w, n, x).world.machines
  {
  }

  /** What comes before a satellite may evacuate, and when all of it succeeds. */
  lemma ReadyDoes(w: World, n: string, x: Script)
    ensures var r := ReadyStep(w, n, x);
            && r.world.finalizers == w.finalizers + (if Written(x.addFinalizer) then {n} else {})
            && r.world.machines == (if NodeMachine in x.broken then w.machines else HooksStep(w, n, x).world.machines)
            && r.world.linstor == w.linstor.(nodes :=
                 if Connects(w, n, x) then Nodes.Registered(w.linstor.nodes, n, PropertiesOf(w, n, x), x.register)
                 else w.linstor.nodes)
            && r.world.pvs == w.pvs && r.world.board == w.board
            && (r.progress == Done <==>
                  Connects(w, n, x) && Nodes.Registers(w.linstor.nodes, n, PropertiesOf(w, n, x), x.register))
  {
    var f := FinalizerStep(w, n, x);
    HooksKeep(f, n, x);
    HooksIgnoreFinalizers(w, n, x);
    var h := HooksStep(f, n, x);
    assert Wanted(h.world, n, x) == PropertiesOf(w, n, x);
    hide HooksStep, Nodes.Registered, Nodes.Registers, Wanted, PropertiesOf, HooksOrdered;
  }

  /** A reconcile of a satellite that is not being deleted asks for admission exactly if it is ready and
      online, its policy is to evacuate, its Machine is going, and the limit can be read. Then it is made ready
      and evacuated; otherwise it is made ready, and an evacuation that is not wanted any more is called off. */
  lemma TendDoes(w: World, n: string, x: Script)
    ensures var r := ReadyStep(w, n, x); var after := Tend(w, n, x);
            var ready := r.progress == Done && x.online;
            var wants := x.policy == Evacuate && Goes(w, n, x);
            && (TendAsks(w, n, x) <==> ready && wants && Limit !in x.broken)
            && if TendAsks(w, n, x) then after == EvacuateSatellite(r.world, n, x).world
               else
                 var restored := ready && !wants && Written(x.restore);
                 after == r.world.(linstor := r.world.linstor.(evacuating :=
                            w.linstor.evacuating - (if restored then {n} else {})))
  {
    ReadyDoes(w, n, x);
    hide ReadyStep, EvacuateSatellite, Connects, Nodes.Registered, Nodes.Registers, PropertiesOf;
    assert w.linstor.evacuating - {} == w.linstor.evacuating;
    if n !in w.linstor.evacuating { assert w.linstor.evacuating - {n} == w.linstor.evacuating; }
  }

  lemma SatelliteDoneIff(w: World, n: string, x: Script)
    ensures EvacuateSatellite(w, n, x).progress == Done <==> Admits(w, n, x) && EvacuateSteps(w, n, x).progress == Done
    ensures Admits(w, n, x) <==>
              (x.limit > 0 ==> Satellites !in x.broken && Position(w.board, n, x.now) < x.limit)
  {
    hide EvacuateSteps, Record, Position;
  }

  // ---- A satellite that is being deleted ----

  /** The hooks that are there can be removed. */
  ghost predicate Releases(w: World, n: string, x: Script) {
    !(HasHook(w, n, x, true) && Failing(x.drain)) && !(HasHook(w, n, x, false) && Failing(x.terminate))
  }

  ghost predicate Starts(w: World, n: string, x: Script) {
    n in w.finalizers && NodeMachine !in x.broken && ClusterClient !in x.broken
  }

  /** The evacuation of a node that LINSTOR knows is done. */
  ghost predicate Evacuated(w: World, n: string, x: Script) {
    && LinstorNode !in x.broken && n in w.linstor.nodes && Limit !in x.broken
    && EvacuateSatellite(w, n, x).progress == Done
  }

  ghost predicate Unneeded(w: World, n: string, x: Script) {
    if !x.hasCluster then Releases(w, n, x)
    else match x.policy
      case Retain => true
      case Purge => !Failing(x.removeNode)
      case Evacuate =>
        || (LinstorNode !in x.broken && n !in w.linstor.nodes)
        || (Evacuated(w, n, x) && !Failing(x.removeNode))
  }

  /** Deleting a satellite lets go of it exactly if its finalizer can be removed, what has to be read can be
      read, and: without a cluster, the hooks of its Machine can be removed; or it is retained; or it is purged
      and removing its node does not fail; or it is evacuated, and LINSTOR does not know the node, or the
      evacuation is done and removing the node does not fail. No other satellite is let go of. */
  lemma RemoveReleasesIff(w: World, n: string, x: Script)
    ensures n in w.finalizers ==>
              (n !in Remove(w, n, x).finalizers <==> Starts(w, n, x) && Unneeded(w, n, x) && Written(x.removeFinalizer))
    ensures Remove(w, n, x).finalizers - {n} == w.finalizers - {n}
    ensures n !in w.finalizers ==> Remove(w, n, x) == w
  {
    AdmittedPass(w, n, x);
    WithoutClusterReleases(w, n, x);
    hide EvacuateSatellite, RemoveWithoutCluster, Releases, VolumesKept, FreeOf, Empty, Admits, Forget;
  }

  lemma WithoutClusterReleases(w: World, n: string, x: Script)
    ensures RemoveWithoutCluster(w, n, x).finalizers ==
              w.finalizers - (if Releases(w, n, x) && Written(x.removeFinalizer) then {n} else {})
    ensures var drains := HasHook(w, n, x, true); var ends := HasHook(w, n, x, false);
            var gone := ends && Written(x.terminate) && !(drains && Failing(x.drain));
            var after := RemoveWithoutCluster(w, n, x);
            && (Hook(after, n, true) <==> Hook(w, n, true) && !(drains && Written(x.drain)) && !gone)
            && (Hook(after, n, false) <==> Hook(w, n, false) && !gone)
  {
  }

  ghost predicate Forgotten(l: Linstor, after: Linstor, n: string) {
    && after.nodes == l.nodes - {n} && n !in after.evacuating
    && (forall p :: p in after.replicas <==> p in l.replicas && p.node != n)
    && (forall p :: p in after.snapshots <==> p in l.snapshots && p.node != n)
  }

  lemma ForgetForgets(l: Linstor, n: string)
    ensures Forgotten(l, Forget(l, n), n)
  {
  }

  lemma ForgottenLater(l: Linstor, later: Linstor, after: Linstor, n: string)
    requires later.nodes == l.nodes && later.replicas == l.replicas && later.snapshots == l.snapshots
    requires Forgotten(later, after, n)
    ensures Forgotten(l, after, n)
  {
  }

  /** LINSTOR forgets the node, and with it exactly what was on it, if the satellite is purged, or evacuated and
      done, and the order is written. */
  lemma RemoveForgetsIff(w: World, n: string, x: Script)
    ensures var after := Remove(w, n, x);
            var forgets := Starts(w, n, x) && x.hasCluster && Written(x.removeNode)
                             && (x.policy == Purge || (x.policy == Evacuate && Evacuated(w, n, x)));
            if forgets then Forgotten(w.linstor, after.linstor, n)
            else
              && after.linstor.nodes == w.linstor.nodes
              && after.linstor.replicas == w.linstor.replicas && after.linstor.snapshots == w.linstor.snapshots
  {
    hide EvacuateSatellite, RemoveWithoutCluster, VolumesKept, FreeOf, Empty, Admits, Forget, Forgotten;
    AdmittedPass(w, n, x);
    RemoveWithoutClusterKeeps(w, n, x);
    var s := EvacuateSatellite(w, n, x).world.linstor;
    ForgetForgets(w.linstor, n);
    ForgetForgets(s, n);
    ForgottenLater(w.linstor, s, Forget(s, n), n);
  }

  /** Only a satellite that is to be evacuated from a node that LINSTOR knows asks for admission, and only then
      its volumes and its condition change; hooks change then, or without a cluster. */
  lemma RemoveAsksIff(w: World, n: string, x: Script)
    ensures RemoveAsks(w, n, x) <==>
              && Starts(w, n, x) && x.hasCluster && x.policy == Evacuate
              && LinstorNode !in x.broken && n in w.linstor.nodes && Limit !in x.broken
    ensures var after := Remove(w, n, x);
            if RemoveAsks(w, n, x) then
              var s := EvacuateSatellite(w, n, x).world;
              after.board == s.board && after.pvs == s.pvs && after.machines == s.machines
            else
              && after.board == w.board && after.pvs == w.pvs
              && after.machines == (if Starts(w, n, x) && !x.hasCluster then RemoveWithoutCluster(w, n, x).machines
                                    else w.machines)
  {
    RemoveWithoutClusterKeeps(w, n, x);
    hide EvacuateSatellite, RemoveWithoutCluster, Forget;
  }
}
