/** What a satellite that waits for its turn keeps, and what it gains
    (internal/controller/linstorsatellite_controller.go). */
module Waiting {
  import opened Wrappers
  import opened Admission
  import opened Volumes
  import opened Machines
  import opened Protocol
  import opened ProtocolRuns
  import AdmissionRuns
  import Nodes
  import Properties
  import VolumeRuns

  /** The evacuation of satellite n has not begun: its hooks, its annotations and its evacuate flag are as
      they were, and it still has its finalizer and its node. */
  ghost predicate Spared(w: World, after: World, n: string) {
    && HooksOf(after, n) == HooksOf(w, n)
    && (n in after.linstor.evacuating <==> n in w.linstor.evacuating)
    && (n in w.finalizers ==> n in after.finalizers)
    && (n in w.linstor.nodes ==> n in after.linstor.nodes)
    && SameAnnotations(w.pvs, after.pvs, n)
  }

  ghost predicate SameAnnotations(pvs: Pvs, after: Pvs, n: string) {
    after.Keys == pvs.Keys && forall p :: p in pvs ==> VolumeRuns.SameOwned(pvs[p].notes, after[p].notes, n)
  }

  /** Nothing of satellite n was touched, nor its finalizer or the properties of its node. */
  ghost predicate Untouched(w: World, after: World, n: string) {
    && Spared(w, after, n)
    && (n in after.finalizers ==> n in w.finalizers)
    && Lookup(after.linstor.nodes, n) == Lookup(w.linstor.nodes, n)
  }

  lemma NotesSameAsSelf(notes: Notes, n: string)
    ensures VolumeRuns.SameOwned(notes, notes, n)
  {
  }

  lemma SamePvs(pvs: Pvs, n: string)
    ensures SameAnnotations(pvs, pvs, n)
  {
    hide VolumeRuns.SameOwned;
    forall p | p in pvs { NotesSameAsSelf(pvs[p].notes, n); }
  }

  lemma UntouchedByItself(w: World, n: string)
    ensures Untouched(w, w, n)
  {
    SamePvs(w.pvs, n);
    hide SameAnnotations;
  }

  lemma SparedTransitive(a: World, b: World, c: World, n: string)
    requires Spared(a, b, n) && Spared(b, c, n)
    ensures Spared(a, c, n)
    ensures Untouched(a, b, n) && Untouched(b, c, n) ==> Untouched(a, c, n)
  {
  }

  // ---- Steps of the others ----

  lemma OthersPassTouchesNothing(w: World, m: string, x: Script, n: string)
    requires m != n
    ensures Untouched(w, EvacuateSatellite(w, m, x).world, n)
  {
    AdmittedPass(w, m, x);
    var after := EvacuateSatellite(w, m, x).world;
    hide EvacuateSatellite, FreeOf, Empty, Admits;
    forall p | p in w.pvs
      ensures VolumeRuns.SameOwned(w.pvs[p].notes, after.pvs[p].notes, n)
    {
      assert PvKept(w.pvs[p], after.pvs[p], m, x.facts.catalog);
      hide VolumesKept;
      assert !VolumeRuns.Owns(m, WaitKey(n)) && !VolumeRuns.Owns(m, SinceKey(n)) && !VolumeRuns.Owns(m, OverrideKey(n));
    }
  }

  lemma OthersReadyTouchesNothing(w: World, m: string, x: Script, n: string)
    requires m != n
    ensures Untouched(w, ReadyStep(w, m, x).world, n)
  {
    ReadyKeeps(w, m, x);
    SamePvs(w.pvs, n);
    var before, after := w.linstor.nodes, ReadyStep(w, m, x).world.linstor.nodes;
    assert Lookup(before - {m}, n) == Lookup(before, n) && Lookup(after - {m}, n) == Lookup(after, n);
    hide ReadyStep, SameAnnotations;
  }

  lemma OthersTendTouchesNothing(w: World, m: string, x: Script, n: string)
    requires m != n
    ensures Untouched(w, Tend(w, m, x), n)
  {
    var r := ReadyStep(w, m, x).world;
    OthersReadyTouchesNothing(w, m, x, n);
    OthersPassTouchesNothing(r, m, x, n);
    hide EvacuateSatellite, ReadyStep, WantsEvacuation, SameAnnotations;
    SparedTransitive(w, r, EvacuateSatellite(r, m, x).world, n);
  }

  lemma OthersWithoutClusterTouchesNothing(w: World, m: string, x: Script, n: string)
    requires m != n
    ensures Untouched(w, RemoveWithoutCluster(w, m, x), n)
  {
    RemoveWithoutClusterKeeps(w, m, x);
    SamePvs(w.pvs, n);
    hide SameAnnotations;
  }

  lemma ForgettingTouchesNothing(w: World, after: World, m: string, x: Script, n: string)
    requires m != n && Untouched(w, after, n)
    ensures Untouched(w, Unprotect(after, m, x), n)
    ensures Untouched(w, after.(linstor := Forget(after.linstor, m)), n)
    ensures Untouched(w, Unprotect(after.(linstor := Forget(after.linstor, m)), m, x), n)
  {
    hide SameAnnotations;
  }

  lemma OthersEvacuatingTouchesNothing(w: World, m: string, x: Script, n: string)
    requires m != n
    ensures Untouched(w, RemoveEvacuating(w, m, x), n)
  {
    OthersPassTouchesNothing(w, m, x, n);
    UntouchedByItself(w, n);
    ForgettingTouchesNothing(w, w, m, x, n);
    ForgettingTouchesNothing(w, EvacuateSatellite(w, m, x).world, m, x, n);
    hide EvacuateSatellite, Untouched, Forget, Unprotect;
  }

  lemma OthersRemoveTouchesNothing(w: World, m: string, x: Script, n: string)
    requires m != n
    ensures Untouched(w, Remove(w, m, x), n)
  {
    OthersEvacuatingTouchesNothing(w, m, x, n);
    OthersWithoutClusterTouchesNothing(w, m, x, n);
    UntouchedByItself(w, n);
    ForgettingTouchesNothing(w, w, m, x, n);
    hide RemoveEvacuating, RemoveWithoutCluster, Untouched, Forget, Unprotect;
  }

  lemma OthersStepTouchesNothing(w: World, e: Event, n: string)
    requires !e.Elsewhere? && e.n != n
    ensures Untouched(w, Happen(w, e), n)
  {
    match e {
      case Tended(m, x) => OthersTendTouchesNothing(w, m, x, n);
      case Removed(m, x) => OthersRemoveTouchesNothing(w, m, x, n);
    }
    hide Tend, Remove;
  }

  // ---- Its own steps ----

  /** A step of a satellite that is to be evacuated and is not let in: it is turned away, or does not even
      get as far as to ask. */
  ghost predicate KeptOut(w: World, e: Event) {
    match e
    case Tended(n, x) => WantsEvacuation(w, n, x) && !(TendAsks(w, n, x) && Admits(w, n, x))
    case Removed(n, x) =>
      x.hasCluster && x.policy == Evacuate && n in w.linstor.nodes && !(RemoveAsks(w, n, x) && Admits(w, n, x))
    case Elsewhere(_) => false
  }

  lemma AdmitsByBoard(w: World, after: World, n: string, x: Script)
    requires after.board == w.board
    ensures Admits(after, n, x) == Admits(w, n, x)
  {
  }

  lemma ReadySpares(w: World, n: string, x: Script)
    requires WantsEvacuation(w, n, x)
    ensures Spared(w, ReadyStep(w, n, x).world, n)
    ensures n in w.finalizers && Nodes.UpToDate(w.linstor.nodes, n, Wanted(w, n, x)) ==>
              Untouched(w, ReadyStep(w, n, x).world, n)
  {
    var f := FinalizerStep(w, n, x);
    var h := HooksStep(f, n, x);
    HooksKeep(f, n, x);
    ReadyKeeps(w, n, x);
    SamePvs(w.pvs, n);
    Nodes.RegisteredFrame(w.linstor.nodes, n, Wanted(w, n, x), x.register);
    assert h == Step(f, Done) && Wanted(f, n, x) == Wanted(w, n, x);
    hide HooksStep, SameAnnotations, Nodes.Registered, Nodes.Registers, Nodes.UpToDate, Wanted, HooksOrdered;
  }

  /** A reconcile that is kept out ends where it was made ready, but for the condition. */
  lemma KeptOutEnds(w: World, n: string, x: Script)
    requires KeptOut(w, Tended(n, x))
    ensures Tend(w, n, x).(board := w.board) == ReadyStep(w, n, x).world
  {
    ReadyKeeps(w, n, x);
    var r := ReadyStep(w, n, x).world;
    AdmitsByBoard(w, r, n, x);
    AdmittedPass(r, n, x);
    hide EvacuateSatellite, ReadyStep, Admits, VolumesKept, RestKept, FreeOf, Empty, MachineGoes;
  }

  lemma BoardAside(w: World, after: World, n: string)
    ensures Spared(w, after.(board := w.board), n) <==> Spared(w, after, n)
    ensures Untouched(w, after.(board := w.board), n) <==> Untouched(w, after, n)
  {
    hide SameAnnotations;
  }

  /** What being kept out does to the satellite itself. */
  lemma KeptOutSpares(w: World, e: Event)
    requires KeptOut(w, e)
    ensures Spared(w, Happen(w, e), e.n)
    ensures e.Removed? ==> Untouched(w, Happen(w, e), e.n)
    ensures e.Tended? && e.n in w.finalizers && Nodes.UpToDate(w.linstor.nodes, e.n, Wanted(w, e.n, e.x)) ==>
              Untouched(w, Happen(w, e), e.n)
  {
    match e {
      case Tended(n, x) =>
        KeptOutEnds(w, n, x);
        ReadySpares(w, n, x);
        BoardAside(w, Tend(w, n, x), n);
        hide Tend, ReadyStep, Spared, Untouched, Wanted, Nodes.UpToDate;
      case Removed(n, x) =>
        UntouchedByItself(w, n);
        AdmittedPass(w, n, x);
        BoardAside(w, EvacuateSatellite(w, n, x).world, n);
        hide EvacuateSatellite, VolumesKept, FreeOf, Empty, Admits, RemoveWithoutCluster, RestKept;
    }
  }

  /** A satellite whose Machine is going and that is turned away keeps its hooks, its annotations and its
      evacuate flag; but the reconcile that asked has given it its finalizer, registered its node, and
      taken the node out of automatic placement. Nothing at all changes exactly if that was done before. */
  lemma TurnedAway(w: World, n: string, x: Script)
    requires WantsEvacuation(w, n, x) && TendAsks(w, n, x) && !Admits(w, n, x)
    ensures var after := Tend(w, n, x);
            && Spared(w, after, n)
            && (n in after.finalizers <==> n in w.finalizers || Written(x.addFinalizer))
            && Nodes.UpToDate(after.linstor.nodes, n, Wanted(w, n, x))
            && Lookup(after.linstor.nodes[n], NO_AUTOPLACE) == Some("false")
            && (Untouched(w, after, n)
                <==> && (n in w.finalizers || !Written(x.addFinalizer))
                     && Nodes.UpToDate(w.linstor.nodes, n, Wanted(w, n, x)))
  {
    var wanted := Wanted(w, n, x);
    var f := FinalizerStep(w, n, x);
    HooksKeep(f, n, x);
    KeptOutEnds(w, n, x);
    KeptOutSpares(w, Tended(n, x));
    assert HooksStep(f, n, x) == Step(f, Done) && Wanted(f, n, x) == wanted && RegisterStep(f, n, x).progress == Done;
    assert NO_AUTOPLACE in wanted && NO_AUTOPLACE != Properties.LAST_APPLY;
    Nodes.RegisteredIsUpToDate(w.linstor.nodes, n, wanted, x.register);
    Nodes.RegisteredFrame(w.linstor.nodes, n, wanted, x.register);
    hide Tend, HooksStep, Spared, Nodes.UpToDate, Properties.InLine, Nodes.Registers, Wanted;
    var before, after := w.linstor.nodes, Nodes.Registered(w.linstor.nodes, n, wanted, x.register);
    assert Tend(w, n, x).linstor.nodes == after;
    SameEntries(before, after, n);
  }

  lemma SameEntries(a: Nodes.Registry, b: Nodes.Registry, n: string)
    requires a - {n} == b - {n}
    ensures a == b <==> Lookup(a, n) == Lookup(b, n)
  {
    if Lookup(a, n) == Lookup(b, n) {
      forall m ensures Lookup(a, m) == Lookup(b, m) {
        if m != n { assert Lookup(a - {n}, m) == Lookup(a, m) && Lookup(b - {n}, m) == Lookup(b, m); }
      }
      assert forall m :: m in a <==> Lookup(a, m).Some?;
      assert forall m :: m in b <==> Lookup(b, m).Some?;
    }
  }

  /** A world in which satellite "s" has to wait for "r" while its Machine is going. */
  ghost function Queue(nodes: Nodes.Registry, finalizers: set<string>): World {
    World(map["r" := Condition(InProgress, 1)], map["s" := Machine(Hooks(true, true), true)], map[],
          Linstor(nodes, {}, {}, {}), finalizers)
  }

  /** Nothing fails in the reconcile. */
  ghost predicate Smooth(x: Script) {
    && x.policy == Evacuate && x.hasCluster && x.online && x.seesMachine && x.limit == 1 && x.broken == {}
    && x.register == Nodes.Calls(true, Applied, true, Applied, true) && x.addFinalizer == Applied
  }

  lemma QueueTurnsAway(nodes: Nodes.Registry, finalizers: set<string>, x: Script)
    requires Smooth(x)
    ensures var w := Queue(nodes, finalizers); WantsEvacuation(w, "s", x) && TendAsks(w, "s", x) && !Admits(w, "s", x)
  {
    var w := Queue(nodes, finalizers);
    assert Ahead(w.board, "s", x.now) == {"r"};
    var f := FinalizerStep(w, "s", x);
    HooksKeep(f, "s", x);
    assert WantsEvacuation(f, "s", x);
    hide HooksStep, Wanted;
    assert RegisterStep(f, "s", x).progress == Done;
  }

  /** Being turned away is not without effect: a new satellite gains a finalizer and a registered node, and an
      established one loses automatic placement. */
  lemma TurnedAwayButTouched(x: Script)
    requires Smooth(x)
    ensures var w := Queue(map[], {}); var after := Tend(w, "s", x);
            && !Admits(w, "s", x) && !Untouched(w, after, "s")
            && "s" in after.finalizers && "s" in after.linstor.nodes
    ensures var w := Queue(map["s" := Properties.Stamp(x.props)], {"s"}); var after := Tend(w, "s", x);
            NO_AUTOPLACE !in x.props ==>
              && !Admits(w, "s", x) && !Untouched(w, after, "s")
              && "s" in after.linstor.nodes && Lookup(after.linstor.nodes["s"], NO_AUTOPLACE) == Some("false")
              && Lookup(w.linstor.nodes["s"], NO_AUTOPLACE) == None
  {
    var new', old' := Queue(map[], {}), Queue(map["s" := Properties.Stamp(x.props)], {"s"});
    QueueTurnsAway(map[], {}, x);
    QueueTurnsAway(map["s" := Properties.Stamp(x.props)], {"s"}, x);
    TurnedAway(new', "s", x);
    TurnedAway(old', "s", x);
    hide Tend, TendAsks, Admits, Spared;
    if NO_AUTOPLACE !in x.props {
      Properties.StampOwned(x.props);
      assert NO_AUTOPLACE != Properties.LAST_APPLY;
      assert NO_AUTOPLACE !in Properties.Stamp(x.props).Keys - {Properties.LAST_APPLY};
    }
  }

  // ---- Runs ----

  /** Since others last changed anything, every step of n was one that kept it out. */
  ghost predicate AlwaysKeptOut(w: World, es: seq<Event>, n: string) {
    es == [] || es[|es| - 1].Elsewhere? ||
    var front, e := es[..|es| - 1], es[|es| - 1];
    AlwaysKeptOut(w, front, n) && (e.n == n ==> KeptOut(Run(w, front), e))
  }

  /** Whatever the operator does for others, as long as a satellite is kept out its evacuation has not begun. */
  lemma {:induction false} WaitingIsSpared(w: World, es: seq<Event>, n: string)
    requires AlwaysKeptOut(w, es, n)
    ensures Spared(Outside(w, es), Run(w, es), n)
  {
    if es == [] || es[|es| - 1].Elsewhere? {
      UntouchedByItself(Run(w, es), n);
    } else {
      var front, e := es[..|es| - 1], es[|es| - 1];
      WaitingIsSpared(w, front, n);
      if e.n == n { KeptOutSpares(Run(w, front), e); } else { OthersStepTouchesNothing(Run(w, front), e, n); }
      hide Happen, Spared, KeptOut, Nodes.UpToDate;
      SparedTransitive(Outside(w, front), Run(w, front), Happen(Run(w, front), e), n);
    }
  }

  /** What an established satellite that waits looks like: it has its finalizer, and its node is registered
      and out of automatic placement. */
  ghost predicate Established(w: World, es: seq<Event>, n: string) {
    && n in w.finalizers
    && forall e :: e in es && e.Tended? && e.n == n ==>
         Nodes.UpToDate(w.linstor.nodes, n, e.x.props[NO_AUTOPLACE := "false"])
  }

  /** An established satellite that is kept out has had nothing touched. */
  lemma {:induction false} WaitingIsUntouched(w: World, es: seq<Event>, n: string)
    requires AlwaysKeptOut(w, es, n) && Established(Outside(w, es), es, n)
    ensures Untouched(Outside(w, es), Run(w, es), n)
  {
    if es == [] || es[|es| - 1].Elsewhere? {
      UntouchedByItself(Run(w, es), n);
    } else {
      var front, e := es[..|es| - 1], es[|es| - 1];
      assert e in es && forall d :: d in front ==> d in es;
      var out, before := Outside(w, front), Run(w, front);
      WaitingIsUntouched(w, front, n);
      if e.n == n {
        KeptOutSpares(before, e);
        UpToDateFollows(out, before, n, e);
      } else {
        OthersStepTouchesNothing(before, e, n);
      }
      hide Happen, Spared, Nodes.UpToDate, KeptOut, Wanted, AlwaysKeptOut;
      SparedTransitive(out, before, Happen(before, e), n);
    }
  }

  lemma UpToDateFollows(out: World, before: World, n: string, e: Event)
    requires Untouched(out, before, n) && KeptOut(before, e) && e.n == n
    requires e.Tended? ==> Nodes.UpToDate(out.linstor.nodes, n, e.x.props[NO_AUTOPLACE := "false"])
    ensures e.Tended? ==> Nodes.UpToDate(before.linstor.nodes, n, Wanted(before, n, e.x))
  {
    hide Spared, TendAsks, RemoveAsks, Admits, Properties.Diff;
    assert Lookup(before.linstor.nodes, n) == Lookup(out.linstor.nodes, n);
  }
}
