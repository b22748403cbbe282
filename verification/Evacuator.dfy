/** The evacuation as it runs, step by step on the objects it changes (pkg/evacuation/evacuation.go),
    against the steps of the protocol. */
module Evacuator {
  import opened Wrappers
  import opened Ordering
  import opened Admission
  import opened Volumes
  import opened Machines
  import opened Protocol

  /** The PVs listed are those there are, and LINSTOR names a resource once per node. */
  ghost predicate Listed(w: World, x: Script) {
    Distinct(x.facts.order) && Elements(x.facts.order) == w.pvs.Keys && Distinct(Diskful(x.view))
  }

  /** Steps 1, 4 and 7 keep the set of volumes. */
  method Prepare(w: World, n: string, x: Script) returns (after: World, progress: Progress)
    requires Listed(w, x)
    ensures Step(after, progress) == PrepareStep(w, n, x)
    ensures after.pvs.Keys == w.pvs.Keys
  {
    if Preparation in x.broken {
      return w, Failed;
    }
    hide PreparedAll, PrepareResult, ByResource, Targets;
    var cluster := new Cluster(w.pvs);
    assert forall p :: p in x.facts.order ==> p in Elements(x.facts.order);
    progress := cluster.PreparePVsForEvacuation(n, Diskful(x.view), x.facts, x.refused);
    after := w.(pvs := cluster.pvs);
    PreparedKeys(w.pvs, TargetsOf(w, x), n, x.facts, x.refused);
  }

  lemma PreparedKeys(pvs: Pvs, targets: set<string>, n: string, f: Facts, r: Refusals)
    ensures PreparedAll(pvs, targets, n, f, r).Keys == pvs.Keys
  {
  }

  method WaitForConfiguredSatellites(w: World, n: string, x: Script) returns (progress: Progress)
    ensures Step(w, progress) == PeersStep(w, n, x)
  {
    if Peers in x.broken {
      return Failed;
    }
    var unready := false;
    for i := 0 to |x.peers|
      invariant unready <==> exists j :: 0 <= j < i && !Ready(x.peers[j], n)
    {
      var p := x.peers[i];
      if p.name != n && !p.deleting {
        if p.configured.None? || p.configured.value.0 != p.generation || !p.configured.value.1 {
          assert !Ready(x.peers[i], n);
          unready := true;
        }
      }
    }
    return if unready then Pending else Done;
  }

  method AllowDrain(w: World, n: string, x: Script) returns (after: World, progress: Progress)
    ensures Step(after, progress) == DrainStep(w, n, x)
  {
    match LinkOf(w, n, x) {
      case None => return w, Done;
      case Some(l) =>
        var machine := new Client(l.server, l.deleting);
        var ok := machine.AllowMachineDrain(x.drain);
        return WithLink(w, n, Link(machine.server, machine.local, machine.deleting)), if ok then Done else Failed;
    }
  }

  method Reattach(w: World, n: string, x: Script) returns (after: World, progress: Progress, ghost reached: set<string>)
    requires Distinct(x.facts.order) && Elements(x.facts.order) == w.pvs.Keys
    ensures Step(after, progress) == ReattachStep(w, n, x.(reached := reached))
  {
    reached := {};
    if Reattachment in x.broken {
      return w, Failed, reached;
    }
    hide AnyReattachFails, AnyBlocked, Judge, Reattached;
    var cluster := new Cluster(w.pvs);
    progress := cluster.WaitForReattach(n, x.now, x.strategy, x.facts, x.faulty);
    after := w.(pvs := cluster.pvs);
    ghost var all := ReattachedAll(w.pvs, n, x.now, x.strategy, x.facts);
    reached := set p | p in w.pvs && after.pvs[p] == all[p];
    if progress == Failed {
      assert after.pvs == map p | p in w.pvs :: if p in reached then all[p] else w.pvs[p];
    }
  }

  /** Steps 1 to 4; `reached` are the volumes a failing reattachment pass got to. */
  method RunEarly(w: World, n: string, x: Script) returns (after: World, progress: Progress, ghost reached: set<string>)
    requires Listed(w, x)
    ensures Step(after, progress) == EarlySteps(w, n, x.(reached := reached))
    ensures progress == Done ==> after.pvs.Keys == w.pvs.Keys
  {
    reached := {};
    SameButReached(w, n, x);
    hide PrepareStep, PeersStep, DrainStep, ReattachStep;
    after, progress := Prepare(w, n, x);
    if progress != Done {
      return;
    }
    progress := WaitForConfiguredSatellites(after, n, x);
    if progress != Done {
      return;
    }
    ghost var was := after;
    after, progress := AllowDrain(after, n, x);
    DrainKeepsVolumes(was, n, x);
    if progress != Done {
      return;
    }
    was := after;
    after, progress, reached := Reattach(after, n, x);
    ReattachKeepsKeys(was, n, x.(reached := reached));
  }

  /** Only step 4 looks at where a failing pass stopped. */
  lemma SameButReached(w: World, n: string, x: Script)
    ensures forall r :: PrepareStep(w, n, x.(reached := r)) == PrepareStep(w, n, x)
    ensures forall v: World, r :: PeersStep(v, n, x.(reached := r)) == PeersStep(v, n, x)
    ensures forall v: World, r :: DrainStep(v, n, x.(reached := r)) == DrainStep(v, n, x)
  {
    hide PreparedAll, PrepareResult, ByResource, Targets;
  }

  lemma DrainKeepsVolumes(w: World, n: string, x: Script)
    ensures DrainStep(w, n, x).world.pvs == w.pvs
  {
  }

  lemma ReattachKeepsKeys(w: World, n: string, x: Script)
    ensures ReattachStep(w, n, x).world.pvs.Keys == w.pvs.Keys
  {
    hide AnyReattachFails, AnyBlocked, Reattached;
  }

  method EvacuateNode(w: World, n: string, x: Script) returns (after: World, progress: Progress)
    ensures Step(after, progress) == EvacuateStep(w, n, x)
  {
    if NodeResources in x.broken {
      return w, Failed;
    }
    var evacuationInProgress := false;
    for i := 0 to |x.view|
      invariant forall j :: 0 <= j < i ==> !(x.view[j].migrating && x.view[j].synced == None)
      invariant evacuationInProgress
           <==> exists j :: 0 <= j < i && x.view[j].migrating && x.view[j].synced == Some(false)
    {
      var resource := x.view[i];
      if resource.migrating {
        if resource.synced.None? {
          return w, Failed;
        }
        if !resource.synced.value {
          assert x.view[i].synced == Some(false);
          evacuationInProgress := true;
        }
      }
    }
    after := w;
    if n !in w.linstor.evacuating || !evacuationInProgress {
      if Written(x.evacuate) {
        after := w.(linstor := w.linstor.(evacuating := w.linstor.evacuating + {n}));
      }
      if Failing(x.evacuate) {
        return after, Failed;
      }
    }
    return after, Done;
  }

  method WaitForEvacuation(w: World, n: string, x: Script) returns (progress: Progress)
    ensures Step(w, progress) == RemainingStep(w, n, x)
  {
    if Remaining in x.broken {
      return Failed;
    }
    var remaining := set p | p in w.linstor.replicas + w.linstor.snapshots && p.node == n;
    assert remaining == {} <==> Empty(w.linstor, n) by {
      if !Empty(w.linstor, n) {
        var p :| p in w.linstor.replicas + w.linstor.snapshots && On(n, p);
        assert p in remaining;
      }
    }
    return if remaining != {} then Pending else Done;
  }

  method CleanVolumes(w: World, n: string, x: Script) returns (after: World, progress: Progress)
    requires Distinct(x.facts.order) && Elements(x.facts.order) == w.pvs.Keys
    ensures Step(after, progress) == CleanStep(w, n, x)
  {
    if VolumesToClean in x.broken {
      return w, Failed;
    }
    hide CleanedAll, AnyCleanFails;
    var cluster := new Cluster(w.pvs);
    var failed := cluster.CleanPVsAfterEvacuation(n, x.facts, x.unclean);
    return w.(pvs := cluster.pvs), if failed then Failed else Done;
  }

  /** The copy of the Machine is the one step 3 removed the drain hook from. */
  method AllowTermination(w: World, n: string, x: Script) returns (after: World, progress: Progress)
    ensures Step(after, progress) == TerminateStep(w, n, x)
  {
    match LinkOf(w, n, x) {
      case None => return w, Done;
      case Some(l) =>
        var machine := new Client(l.server, l.deleting);
        machine.local := machine.local.(drain := false);
        var ok := machine.AllowMachineTermination(x.terminate);
        return WithLink(w, n, Link(machine.server, machine.local, machine.deleting)), if ok then Done else Failed;
    }
  }

  /** Steps 5 to 8. */
  method RunFinish(w: World, n: string, x: Script) returns (after: World, progress: Progress)
    requires Distinct(x.facts.order) && Elements(x.facts.order) == w.pvs.Keys
    ensures Step(after, progress) == FinishSteps(w, n, x)
  {
    EvacuateKeepsVolumes(w, n, x);
    hide EvacuateStep, RemainingStep, CleanStep, TerminateStep;
    after, progress := EvacuateNode(w, n, x);
    if progress != Done {
      return;
    }
    progress := WaitForEvacuation(after, n, x);
    if progress != Done {
      return;
    }
    after, progress := CleanVolumes(after, n, x);
    if progress != Done {
      return;
    }
    after, progress := AllowTermination(after, n, x);
  }

  lemma EvacuateKeepsVolumes(w: World, n: string, x: Script)
    ensures EvacuateStep(w, n, x).world.pvs == w.pvs
  {
  }

  lemma FinishIgnoresReached(w: World, n: string, x: Script, reached: set<string>)
    ensures FinishSteps(w, n, x.(reached := reached)) == FinishSteps(w, n, x)
  {
    hide CleanedAll, AnyCleanFails, SyncUnreadable, StillSyncing, Empty;
  }

  /** EvacuateSatellite: admission on the list of satellites, the steps, and the condition. */
  method Evacuate(w: World, list: seq<Satellite>, n: string, x: Script) returns (after: World, progress: Progress)
    requires Listed(w, x) && DistinctNames(list) && View(list) == w.board
    ensures exists reached :: Step(after, progress) == EvacuateSatellite(w, n, x.(reached := reached))
  {
    if x.limit > 0 && Satellites in x.broken {
      after, progress := w.(board := Record(w.board, n, Error, x.now)), Failed;
      assert Step(after, progress) == EvacuateSatellite(w, n, x.(reached := {}));
      return;
    }
    var admitted, position, total := AdmitEvacuation(list, n, x.limit, x.now);
    hide EarlySteps, FinishSteps, View, Admitted;
    if !admitted {
      after, progress := w.(board := Record(w.board, n, Waiting, x.now)), Pending;
      assert Step(after, progress) == EvacuateSatellite(w, n, x.(reached := {}));
      return;
    }
    ghost var reached;
    after, progress, reached := RunEarly(w, n, x);
    if progress == Done {
      FinishIgnoresReached(after, n, x, reached);
      after, progress := RunFinish(after, n, x);
    }
    var reason := match progress case Failed => Error case Pending => InProgress case Done => Completed;
    after := after.(board := Record(w.board, n, reason, x.now));
    assert Step(after, progress) == EvacuateSatellite(w, n, x.(reached := reached));
  }
}
