/** The passes of one satellite over a run: which volumes hold them up, and when they come to an end
    (pkg/evacuation/evacuation.go). */
module Termination {
  import opened Wrappers
  import opened Clock
  import opened Admission
  import opened Volumes
  import opened Machines
  import opened Protocol
  import opened ProtocolRuns
  import VolumeRuns
  import Waiting

  // ---- One pass as one volume meets it ----

  /** The volume, or one without annotations where there is none. */
  function VolumeAt(pvs: Pvs, p: string): Pv {
    if p in pvs then pvs[p] else Pv(map[], None, None, false)
  }

  /** The pass gets as far as step 4. */
  ghost predicate Reaches(w: World, n: string, x: Script) {
    var s1 := PrepareStep(w, n, x);
    && s1.progress == Done && PeersStep(s1.world, n, x).progress == Done
    && DrainStep(s1.world, n, x).progress == Done
  }

  ghost predicate Judges(w: World, n: string, x: Script, p: string) {
    var pvs := PrepareStep(w, n, x).world.pvs;
    && Reaches(w, n, x) && Reattachment !in x.broken
    && (AnyReattachFails(pvs, n, x.now, x.strategy, x.facts, x.faulty) ==> p in x.reached)
  }

  /** The pass gets as far as step 7. */
  ghost predicate Cleans(w: World, n: string, x: Script) {
    var s4 := EarlySteps(w, n, x);
    var s5 := EvacuateStep(s4.world, n, x);
    && s4.progress == Done && s5.progress == Done && RemainingStep(s5.world, n, x).progress == Done
    && VolumesToClean !in x.broken
  }

  ghost function PassOf(w: World, n: string, x: Script, p: string): VolumeRuns.Pass {
    var at := AttachedTo(x.facts.attachments, p);
    var met := Preparation !in x.broken && p in w.pvs && p in TargetsOf(w, x) && p !in x.refused.updates;
    VolumeRuns.Pass(met, at != {}, x.facts, x.now, x.strategy, at, !Judges(w, n, x, p),
                    Cleans(w, n, x) && p !in x.unclean)
  }

  lemma PreparedVolume(w: World, n: string, x: Script, p: string)
    ensures VolumeAt(PrepareStep(w, n, x).world.pvs, p).notes
         == VolumeRuns.Met(VolumeAt(w.pvs, p), n, PassOf(w, n, x, p)).notes
    ensures PrepareStep(w, n, x).world.pvs.Keys == w.pvs.Keys
  {
    hide Judges, Cleans, TargetsOf, PrepareResult, Prepared;
  }

  lemma JudgedByNotes(a: Pv, b: Pv, n: string, now: int, s: Strategy, at: set<string>)
    requires a.notes == b.notes
    ensures Judge(a, n, now, s, at) == Judge(b, n, now, s, at)
    ensures Reattached(a, n, now, s, at).notes == Reattached(b, n, now, s, at).notes
    ensures Cleaned(a, n).notes == Cleaned(b, n).notes
  {
  }

  lemma ReattachedVolume(w: World, n: string, x: Script, p: string)
    requires Reattachment !in x.broken
    requires AnyReattachFails(w.pvs, n, x.now, x.strategy, x.facts, x.faulty) ==> p in x.reached
    ensures VolumeAt(ReattachStep(w, n, x).world.pvs, p).notes
         == Reattached(VolumeAt(w.pvs, p), n, x.now, x.strategy, AttachedTo(x.facts.attachments, p)).notes
  {
    hide AnyReattachFails, AnyBlocked;
  }

  lemma NotReattachedVolume(w: World, n: string, x: Script, p: string)
    requires Reattachment in x.broken
          || (AnyReattachFails(w.pvs, n, x.now, x.strategy, x.facts, x.faulty) && p !in x.reached)
    ensures VolumeAt(ReattachStep(w, n, x).world.pvs, p) == VolumeAt(w.pvs, p)
  {
    hide AnyReattachFails, AnyBlocked, Reattached;
  }

  lemma SkippedSteps(w: World, n: string, x: Script)
    ensures PeersStep(w, n, x).world == w && DrainStep(w, n, x).world.pvs == w.pvs
  {
  }

  /** What steps 1 to 4 make of a volume. */
  lemma EarlyVolume(w: World, n: string, x: Script, p: string)
    ensures var c := PassOf(w, n, x, p); var met := VolumeRuns.Met(VolumeAt(w.pvs, p), n, c);
            (VolumeAt(EarlySteps(w, n, x).world.pvs, p).notes
             == VolumeRuns.After(met, n, c.s, VolumeRuns.Call(c.now, c.at, c.lost)).notes)
  {
    PreparedVolume(w, n, x, p);
    var c := PassOf(w, n, x, p);
    var met := VolumeRuns.Met(VolumeAt(w.pvs, p), n, c);
    var s1 := PrepareStep(w, n, x).world;
    SkippedSteps(s1, n, x);
    var s3 := DrainStep(s1, n, x).world;
    assert s3.pvs == s1.pvs;
    if c.lost {
      if Reaches(w, n, x) { NotReattachedVolume(s3, n, x, p); }
    } else {
      ReattachedVolume(s3, n, x, p);
      JudgedByNotes(VolumeAt(s3.pvs, p), met, n, c.now, c.s, c.at);
    }
    hide PrepareStep, PeersStep, DrainStep, ReattachStep, AnyReattachFails, Reattached, VolumeRuns.Met, TargetsOf,
      Cleans;
  }

  /** What steps 5 to 8 make of a volume. */
  lemma FinishedVolume(w: World, n: string, x: Script, p: string)
    ensures var s5 := EvacuateStep(w, n, x);
            var cleaned := s5.progress == Done && RemainingStep(s5.world, n, x).progress == Done
                && VolumesToClean !in x.broken;
            (VolumeAt(FinishSteps(w, n, x).world.pvs, p).notes
             == if cleaned && p !in x.unclean then Cleaned(VolumeAt(w.pvs, p), n).notes else VolumeAt(w.pvs, p).notes)
  {
    hide SyncUnreadable, StillSyncing, Empty, AnyCleanFails;
  }

  /** A pass does to the marks of a volume what it is described to do. */
  lemma PassOnVolume(w: World, n: string, x: Script, p: string)
    ensures VolumeRuns.SameMarks(VolumeRuns.AfterPass(VolumeAt(w.pvs, p), n, PassOf(w, n, x, p)),
                                 VolumeAt(EvacuateSteps(w, n, x).world.pvs, p), n)
  {
    var c := PassOf(w, n, x, p);
    var s4 := EarlySteps(w, n, x);
    EarlyVolume(w, n, x, p);
    FinishedVolume(s4.world, n, x, p);
    var judged := VolumeRuns.After(VolumeRuns.Met(VolumeAt(w.pvs, p), n, c), n, c.s,
        VolumeRuns.Call(c.now, c.at, c.lost));
    JudgedByNotes(judged, VolumeAt(s4.world.pvs, p), n, c.now, c.s, c.at);
    hide EarlySteps, FinishSteps, EvacuateStep, RemainingStep, Judges, Cleaned, VolumeRuns.After, VolumeRuns.Met,
      TargetsOf;
  }

  // ---- The passes of a run ----

  /** The event is an evacuation pass of satellite n. */
  ghost predicate IsPass(w: World, e: Event, n: string) {
    match e
    case Tended(m, x) => m == n && TendAsks(w, n, x) && Admits(w, n, x)
    case Removed(m, x) => m == n && RemoveAsks(w, n, x) && Admits(w, n, x)
    case Elsewhere(_) => false
  }

  /** The state in which the steps of the evacuation begin. */
  ghost function Begun(w: World, e: Event): World {
    match e
    case Tended(n, x) => ReadyStep(w, n, x).world
    case _ => w
  }

  lemma BegunKeeps(w: World, e: Event)
    requires !e.Elsewhere?
    ensures Begun(w, e).pvs == w.pvs && Begun(w, e).board == w.board
    ensures Begun(w, e).linstor == w.linstor.(nodes := Begun(w, e).linstor.nodes)
  {
    if e.Tended? { ReadyKeeps(w, e.n, e.x); }
    hide ReadyStep;
  }

  lemma BegunAdmits(w: World, e: Event, n: string)
    requires IsPass(w, e, n)
    ensures Admits(Begun(w, e), n, e.x)
  {
    BegunKeeps(w, e);
    Waiting.AdmitsByBoard(w, Begun(w, e), n, e.x);
    hide ReadyStep, Admits;
  }

  lemma PassHappens(w: World, e: Event, n: string)
    requires IsPass(w, e, n)
    ensures EvacuateSatellite(Begun(w, e), n, e.x).progress == EvacuateSteps(Begun(w, e), n, e.x).progress
    ensures Happen(w, e).pvs == EvacuateSteps(Begun(w, e), n, e.x).world.pvs
  {
    hide EvacuateSteps, ReadyStep, Record, Admitted, Forget, HooksStep, RemoveWithoutCluster;
    BegunAdmits(w, e, n);
    AdmittedSteps(Begun(w, e), n, e.x);
    hide EvacuateSatellite, Admits;
  }

  lemma AdmittedSteps(w: World, n: string, x: Script)
    requires Admits(w, n, x)
    ensures EvacuateSatellite(w, n, x).progress == EvacuateSteps(w, n, x).progress
    ensures EvacuateSatellite(w, n, x).world.pvs == EvacuateSteps(w, n, x).world.pvs
  {
    hide EvacuateSteps, Record, Admitted;
  }

  lemma NoPassHappens(w: World, e: Event, n: string)
    requires !e.Elsewhere? && e.n == n && !IsPass(w, e, n)
    ensures Happen(w, e).pvs == w.pvs
  {
    BegunKeeps(w, e);
    Waiting.AdmitsByBoard(w, Begun(w, e), n, e.x);
    AdmittedPass(Begun(w, e), n, e.x);
    RemoveWithoutClusterKeeps(w, n, e.x);
    hide EvacuateSatellite, ReadyStep, Admits, Forget, VolumesKept, RestKept, FreeOf, Empty, RemoveWithoutCluster;
  }

  /** What an event is to volume p, if it is an evacuation pass of n. */
  ghost function PassIn(w: World, e: Event, n: string, p: string): Option<VolumeRuns.Pass> {
    if IsPass(w, e, n) then Some(PassOf(Begun(w, e), n, e.x, p)) else None
  }

  lemma StepMarks(w: World, e: Event, n: string, p: string)
    requires !e.Elsewhere?
    ensures var was := VolumeAt(w.pvs, p);
            var expected := if IsPass(w, e, n) then VolumeRuns.AfterPass(was, n, PassIn(w, e, n, p).value) else was;
            VolumeRuns.SameMarks(expected, VolumeAt(Happen(w, e).pvs, p), n)
  {
    if IsPass(w, e, n) {
      BegunKeeps(w, e);
      PassHappens(w, e, n);
      PassOnVolume(Begun(w, e), n, e.x, p);
    } else if e.n == n {
      NoPassHappens(w, e, n);
    } else {
      Waiting.OthersStepTouchesNothing(w, e, n);
      assert p in w.pvs ==> VolumeRuns.SameOwned(w.pvs[p].notes, Happen(w, e).pvs[p].notes, n);
    }
    hide IsPass, Begun, Happen, PassOf, VolumeRuns.AfterPass, EvacuateSteps;
  }

  /** The passes of n over a run, as p meets them. */
  ghost function Passes(w: World, es: seq<Event>, n: string, p: string): seq<VolumeRuns.Pass> {
    if es == [] then []
    else
      var front, e := es[..|es| - 1], es[|es| - 1];
      Passes(w, front, n, p) + (if IsPass(Run(w, front), e, n) then [PassIn(Run(w, front), e, n, p).value] else [])
  }

  /** Others leave the marks of n on p alone; a volume they add has none. */
  ghost predicate Undisturbed(w: World, es: seq<Event>, n: string, p: string) {
    es == [] ||
    var front, e := es[..|es| - 1], es[|es| - 1];
    && Undisturbed(w, front, n, p)
    && (e.Elsewhere? ==> VolumeRuns.SameMarks(VolumeAt(Run(w, front).pvs, p), VolumeAt(e.after.pvs, p), n))
  }

  lemma {:induction false} SpellPrefix(passes: seq<VolumeRuns.Pass>, c: VolumeRuns.Pass, n: string, i: nat)
    requires i <= |passes|
    ensures VolumeRuns.SpellBefore(passes + [c], n, i) == VolumeRuns.SpellBefore(passes, n, i)
    ensures i < |passes| ==> VolumeRuns.SpellAt(passes + [c], n, i) == VolumeRuns.SpellAt(passes, n, i)
  {
    if i > 0 { SpellPrefix(passes, c, n, i - 1); }
  }

  lemma MarksExtend(pv: Pv, passes: seq<VolumeRuns.Pass>, c: VolumeRuns.Pass, n: string)
    requires VolumeRuns.MarksAt(pv, passes, n, |passes|)
    ensures VolumeRuns.MarksAt(pv, passes + [c], n, |passes|)
  {
    SpellPrefix(passes, c, n, |passes|);
    hide VolumeRuns.SpellBefore, VolumeRuns.HasMarks;
  }

  /** Over every run, however the passes of different satellites interleave and fail, the two marks of n on a
      volume say exactly in which wait it is. */
  lemma {:induction false} MarksOverRuns(w: World, es: seq<Event>, n: string, p: string)
    requires VolumeRuns.HasMarks(VolumeAt(w.pvs, p), n, None, None) && Undisturbed(w, es, n, p)
    ensures VolumeRuns.MarksAt(VolumeAt(Run(w, es).pvs, p), Passes(w, es, n, p), n, |Passes(w, es, n, p)|)
  {
    if es != [] {
      hide VolumeRuns.MarksAt, VolumeRuns.HasMarks, VolumeRuns.AfterPass, VolumeRuns.SameMarks, IsPass, Happen, PassOf;
      var front, e := es[..|es| - 1], es[|es| - 1];
      var before := Run(w, front);
      var passes, was := Passes(w, front, n, p), VolumeAt(before.pvs, p);
      MarksOverRuns(w, front, n, p);
      if e.Elsewhere? {
        NoPassElsewhere(before, e, n);
        assert Passes(w, es, n, p) == passes;
        VolumeRuns.MarksFollow(was, VolumeAt(e.after.pvs, p), passes, n, |passes|);
        assert Run(w, es) == e.after by { ElsewhereHappens(before, e); }
      } else {
        StepMarks(before, e, n, p);
        if IsPass(before, e, n) {
          var c := PassIn(before, e, n, p).value;
          MarksExtend(was, passes, c, n);
          VolumeRuns.PassJudged(was, passes + [c], n, |passes|);
          var pv := VolumeAt(Happen(before, e).pvs, p);
          VolumeRuns.MarksFollow(VolumeRuns.AfterPass(was, n, c), pv, passes + [c], n, |passes| + 1);
        } else {
          assert Passes(w, es, n, p) == passes;
          VolumeRuns.MarksFollow(was, VolumeAt(Happen(before, e).pvs, p), passes, n, |passes|);
        }
      }
    }
  }

  lemma NoPassElsewhere(w: World, e: Event, n: string)
    requires e.Elsewhere?
    ensures !IsPass(w, e, n)
  {
  }

  lemma PassIsOperators(w: World, e: Event, n: string)
    requires IsPass(w, e, n)
    ensures !e.Elsewhere? && e.n == n
  {
  }

  lemma ElsewhereHappens(w: World, e: Event)
    requires e.Elsewhere?
    ensures Happen(w, e) == e.after
  {
  }

  /** Volume p is waited for in the next pass and not in use on another node. */
  ghost predicate HoldsUp(w: World, es: seq<Event>, e: Event, n: string, p: string)
    requires IsPass(Run(w, es), e, n)
  {
    var passes := Passes(w, es, n, p) + [PassIn(Run(w, es), e, n, p).value];
    var i := |passes| - 1;
    VolumeRuns.Waits(passes, i, VolumeRuns.SpellAt(passes, n, i)) && !VolumeRuns.AttachedElsewhere(passes[i].at, n)
  }

  /** The wait law over runs: what step 4 finds is decided by the history of the passes. */
  lemma WaitLaw(w: World, es: seq<Event>, e: Event, n: string, p: string)
    requires VolumeRuns.HasMarks(VolumeAt(w.pvs, p), n, None, None) && Undisturbed(w, es, n, p)
    requires IsPass(Run(w, es), e, n)
    ensures var v := PrepareStep(Begun(Run(w, es), e), n, e.x).world.pvs;
            var verdict := Judge(VolumeAt(v, p), n, e.x.now, e.x.strategy, AttachedTo(e.x.facts.attachments, p));
            verdict != Broken && (verdict == Blocked <==> HoldsUp(w, es, e, n, p))
  {
    hide Judge, VolumeRuns.Met, PrepareStep, Begun, IsPass, Judges, Cleans, TargetsOf, VolumeRuns.MarksAt,
      VolumeRuns.SpellAt, VolumeRuns.Waits, VolumeRuns.AfterPass, Undisturbed, Run, Passes, VolumeRuns.HasMarks;
    var before := Run(w, es);
    var passes, was, c := Passes(w, es, n, p), VolumeAt(before.pvs, p), PassIn(before, e, n, p).value;
    MarksOverRuns(w, es, n, p);
    MarksExtend(was, passes, c, n);
    VolumeRuns.PassJudged(was, passes + [c], n, |passes|);
    PassIsOperators(before, e, n);
    BegunKeeps(before, e);
    var v := Begun(before, e);
    PreparedVolume(v, n, e.x, p);
    JudgedByNotes(VolumeAt(PrepareStep(v, n, e.x).world.pvs, p), VolumeRuns.Met(was, n, c), n, c.now, c.s, c.at);
  }

  // ---- When a pass is done ----

  /** No call of the evacuation steps fails. */
  ghost predicate Healthy(x: Script) {
    && Preparation !in x.broken && Peers !in x.broken && Reattachment !in x.broken
    && NodeResources !in x.broken && Remaining !in x.broken && VolumesToClean !in x.broken
    && x.refused == NOTHING_REFUSED && x.faulty == {} && x.unclean == {}
    && !Failing(x.drain) && !Failing(x.terminate) && !Failing(x.evacuate) && !SyncUnreadable(x.view)
  }

  /** The resources that LINSTOR lists are there. */
  ghost predicate Truthful(w: World, n: string, x: Script) {
    forall name :: name in Diskful(x.view) ==> Placement(n, name) in w.linstor.replicas
  }

  ghost predicate AllReady(n: string, x: Script) {
    forall i :: 0 <= i < |x.peers| ==> Ready(x.peers[i], n)
  }

  lemma EmptyMeetsNothing(w: World, n: string, x: Script)
    requires Empty(w.linstor, n) && Truthful(w, n, x)
    ensures TargetsOf(w, x) == {}
  {
    hide ByResource, Empty;
    if Diskful(x.view) != [] {
      NotEmptyWith(w.linstor, n, Diskful(x.view)[0]);
    }
  }

  lemma NotEmptyWith(l: Linstor, n: string, name: string)
    requires Placement(n, name) in l.replicas
    ensures !Empty(l, n)
  {
    assert On(n, Placement(n, name));
  }

  lemma PrepareNothing(w: World, n: string, x: Script)
    requires Preparation !in x.broken && TargetsOf(w, x) == {}
    ensures PrepareStep(w, n, x) == Step(w, Done)
  {
    hide TargetsOf, PrepareFails, NeedsOverride, Wrote;
    assert PreparedAll(w.pvs, {}, n, x.facts, x.refused) == w.pvs;
  }

  lemma NothingFails(pvs: Pvs, n: string, now: int, s: Strategy, f: Facts)
    requires forall p :: p in pvs ==> JudgeIn(pvs, p, n, now, s, f) != Broken
    ensures !AnyReattachFails(pvs, n, now, s, f, {})
  {
    hide JudgeIn, Reattached;
  }

  lemma FinishDone(w: World, n: string, x: Script)
    requires Healthy(x)
    ensures FinishSteps(w, n, x).progress == Done <==> Empty(w.linstor, n)
  {
    var s5 := EvacuateStep(w, n, x);
    EvacuateRest(w, n, x);
    EmptySame(w.linstor, s5.world.linstor, n);
    hide StillSyncing, Empty, CleanedAll, RestKept;
  }

  /** Without failing calls, a pass is done exactly if nothing is left on the node, all other satellites are
      configured, and no volume blocks it. */
  lemma PassDoneIff(w: World, n: string, x: Script)
    requires Healthy(x) && Truthful(w, n, x)
    requires forall p :: p in w.pvs ==> JudgeIn(w.pvs, p, n, x.now, x.strategy, x.facts) != Broken
    ensures EvacuateSteps(w, n, x).progress == Done
       <==> Empty(w.linstor, n) && AllReady(n, x) && !AnyBlocked(w.pvs, n, x.now, x.strategy, x.facts)
  {
    PassHooks(w, n, x);
    if Empty(w.linstor, n) {
      EmptyMeetsNothing(w, n, x);
      PrepareNothing(w, n, x);
      SkippedSteps(w, n, x);
      var s3 := DrainStep(w, n, x);
      assert s3.progress == Done && s3.world.pvs == w.pvs && s3.world.linstor == w.linstor;
      EarlyDone(w, n, x);
      FinishDone(EarlySteps(w, n, x).world, n, x);
      EarlyHooks(w, n, x);
    }
    hide EarlySteps, FinishSteps, AnyBlocked, Empty, TargetsOf, PrepareStep, FreeOf, RestKept;
  }

  lemma EarlyDone(w: World, n: string, x: Script)
    requires Healthy(x) && PrepareStep(w, n, x) == Step(w, Done)
    requires forall p :: p in w.pvs ==> JudgeIn(w.pvs, p, n, x.now, x.strategy, x.facts) != Broken
    ensures EarlySteps(w, n, x).progress == Done
       <==> AllReady(n, x) && !AnyBlocked(w.pvs, n, x.now, x.strategy, x.facts)
  {
    NothingFails(w.pvs, n, x.now, x.strategy, x.facts);
    SkippedSteps(w, n, x);
    assert DrainStep(w, n, x).progress == Done;
    hide PrepareStep, AnyBlocked, AnyReattachFails, ReattachedAll, DrainStep, JudgeIn;
  }

  /** When a satellite is evacuated, over runs: without failing calls the next pass is done exactly if nothing
      is left on the node, the others are configured, and no volume is both waited for and not in use on
      another node. */
  lemma NextPassDoneIff(w: World, es: seq<Event>, e: Event, n: string)
    requires IsPass(Run(w, es), e, n) && Healthy(e.x) && Truthful(Run(w, es), n, e.x)
    requires forall p :: p in Run(w, es).pvs ==>
               VolumeRuns.HasMarks(VolumeAt(w.pvs, p), n, None, None) && Undisturbed(w, es, n, p)
    ensures EvacuateSatellite(Begun(Run(w, es), e), n, e.x).progress == Done
       <==> && Empty(Run(w, es).linstor, n) && AllReady(n, e.x)
            && forall p :: p in Run(w, es).pvs ==> !HoldsUp(w, es, e, n, p)
  {
    var before, x := Run(w, es), e.x;
    var v := Begun(before, e);
    BegunKeeps(before, e);
    PassHappens(before, e, n);
    if Empty(before.linstor, n) {
      EmptySame(before.linstor, v.linstor, n);
      EmptyMeetsNothing(v, n, x);
      PrepareNothing(v, n, x);
      forall p | p in before.pvs
        ensures JudgeIn(v.pvs, p, n, x.now, x.strategy, x.facts) != Broken
        ensures JudgeIn(v.pvs, p, n, x.now, x.strategy, x.facts) == Blocked <==> HoldsUp(w, es, e, n, p)
      {
        WaitLaw(w, es, e, n, p);
      }
      PassDoneIff(v, n, x);
    } else {
      EmptySame(before.linstor, v.linstor, n);
      PassHooks(v, n, x);
    }
    hide IsPass, Begun, EvacuateSteps, EvacuateSatellite, HoldsUp, Judge, Undisturbed, Run, PrepareStep, TargetsOf,
      Empty, RestKept, FreeOf, Truthful, Healthy, AllReady;
  }

  // ---- Evacuations come to an end ----

  /** Whatever stamp the volume has is not later than t. */
  ghost predicate StampedBy(pv: Pv, n: string, t: int) {
    SinceKey(n) in pv.notes ==> pv.notes[SinceKey(n)].Instant? && pv.notes[SinceKey(n)].at <= t
  }

  /** The clock of the volume has been running since t, if it can block at all. */
  ghost predicate Clocked(pv: Pv, n: string, s: Strategy, t: int) {
    && StampedBy(pv, n, t)
    && (Timeout(pv, n, s).Some? && Timeout(pv, n, s).value > 0 ==> SinceKey(n) in pv.notes)
  }

  ghost predicate AllClocked(pvs: Pvs, n: string, s: Strategy, t: int) {
    forall p :: p in pvs ==> Clocked(pvs[p], n, s, t)
  }

  lemma ReattachClocks(pv: Pv, n: string, now: int, s: Strategy, at: set<string>, t: int)
    requires StampedBy(pv, n, t)
    ensures now <= t || Clocked(pv, n, s, t) ==> Clocked(Reattached(pv, n, now, s, at), n, s, t)
    ensures Clocked(pv, n, s, t) ==> Clocked(Cleaned(pv, n), n, s, t)
  {
  }

  /** A pass that meets nothing starts the clocks that do not run, and never sets one back. */
  lemma PassClocks(pv: Pv, n: string, c: VolumeRuns.Pass, t: int)
    requires !c.met && StampedBy(pv, n, t)
    requires (!c.lost && c.now <= t) || Clocked(pv, n, c.s, t)
    ensures Clocked(VolumeRuns.AfterPass(pv, n, c), n, c.s, t)
  {
    ReattachClocks(pv, n, c.now, c.s, c.at, t);
    ReattachClocks(VolumeRuns.After(pv, n, c.s, VolumeRuns.Call(c.now, c.at, c.lost)), n, c.now, c.s, c.at, t);
    hide Reattached, Clocked, Cleaned;
  }

  lemma SameMarksClocked(a: Pv, b: Pv, n: string, s: Strategy, t: int)
    requires VolumeRuns.SameMarks(a, b, n)
    ensures Clocked(a, n, s, t) <==> Clocked(b, n, s, t)
  {
  }

  lemma ClockedPasses(pv: Pv, n: string, now: int, s: Strategy, at: set<string>, t: int)
    requires Clocked(pv, n, s, t) && now >= t + s.attachedTimeout && now >= t + s.unattachedTimeout
    ensures Judge(pv, n, now, s, at) == Idle
  {
  }

  /** Nothing new is to be waited for: no pass of n meets a volume, and others leave its marks alone. */
  ghost predicate NothingNew(w: World, es: seq<Event>, n: string, s: Strategy) {
    es == [] ||
    var front, e := es[..|es| - 1], es[|es| - 1];
    var before := Run(w, front);
    && NothingNew(w, front, n, s)
    && (e.Elsewhere? ==> forall p :: p in e.after.pvs ==>
        VolumeRuns.SameMarks(VolumeAt(before.pvs, p), e.after.pvs[p], n))
    && (IsPass(before, e, n) ==> TargetsOf(Begun(before, e), e.x) == {} && e.x.strategy == s)
  }

  lemma UnmarkedIsClocked(n: string, s: Strategy, t: int)
    ensures Clocked(Pv(map[], None, None, false), n, s, t)
  {
  }

  lemma StepStaysClocked(w: World, e: Event, n: string, s: Strategy, t: int)
    requires !e.Elsewhere? && AllClocked(w.pvs, n, s, t)
    requires IsPass(w, e, n) ==> TargetsOf(Begun(w, e), e.x) == {} && e.x.strategy == s
    ensures AllClocked(Happen(w, e).pvs, n, s, t)
  {
    forall p | p in Happen(w, e).pvs
      ensures Clocked(Happen(w, e).pvs[p], n, s, t)
    {
      hide Happen, IsPass, Begun, TargetsOf, VolumeRuns.AfterPass, VolumeRuns.SameMarks, Judges, Cleans, Clocked;
      StepMarks(w, e, n, p);
      UnmarkedIsClocked(n, s, t);
      var was := VolumeAt(w.pvs, p);
      if IsPass(w, e, n) {
        var c := PassIn(w, e, n, p).value;
        assert Clocked(was, n, s, t);
        ClockedIsStamped(was, n, s, t);
        PassClocks(was, n, c, t);
        SameMarksClocked(VolumeRuns.AfterPass(was, n, c), VolumeAt(Happen(w, e).pvs, p), n, s, t);
      } else {
        SameMarksClocked(was, VolumeAt(Happen(w, e).pvs, p), n, s, t);
      }
    }
  }

  lemma ClockedIsStamped(pv: Pv, n: string, s: Strategy, t: int)
    requires Clocked(pv, n, s, t)
    ensures StampedBy(pv, n, t)
  {
  }

  lemma {:induction false} StaysClocked(w: World, es: seq<Event>, n: string, s: Strategy, t: int)
    requires NothingNew(w, es, n, s) && AllClocked(w.pvs, n, s, t)
    ensures AllClocked(Run(w, es).pvs, n, s, t)
  {
    if es != [] {
      var front, e := es[..|es| - 1], es[|es| - 1];
      var before := Run(w, front);
      StaysClocked(w, front, n, s, t);
      hide Clocked, IsPass, Begun, TargetsOf;
      if e.Elsewhere? {
        ElsewhereHappens(before, e);
        UnmarkedIsClocked(n, s, t);
        forall p | p in e.after.pvs ensures Clocked(e.after.pvs[p], n, s, t) {
          SameMarksClocked(VolumeAt(before.pvs, p), e.after.pvs[p], n, s, t);
        }
      } else {
        StepStaysClocked(before, e, n, s, t);
      }
    }
  }

  /** A pass without failing calls on an empty node starts all clocks. */
  lemma HealthyPassClocks(w: World, e: Event, n: string)
    requires IsPass(w, e, n) && Healthy(e.x) && Truthful(w, n, e.x) && Empty(w.linstor, n) && AllReady(n, e.x)
    requires forall p :: p in w.pvs ==> StampedBy(w.pvs[p], n, e.x.now)
    ensures AllClocked(Happen(w, e).pvs, n, e.x.strategy, e.x.now)
  {
    var v, x := Begun(w, e), e.x;
    BegunKeeps(w, e);
    EmptySame(w.linstor, v.linstor, n);
    EmptyMeetsNothing(v, n, x);
    PrepareNothing(v, n, x);
    HealthyReaches(v, n, x);
    forall p | p in Happen(w, e).pvs
      ensures Clocked(Happen(w, e).pvs[p], n, x.strategy, x.now)
    {
      hide Happen, IsPass, Begun, TargetsOf, VolumeRuns.AfterPass, VolumeRuns.SameMarks, Judges, Cleans, Clocked,
        PrepareStep, Empty, Healthy, Truthful, AllReady;
      StepMarks(w, e, n, p);
      var was, c := VolumeAt(w.pvs, p), PassIn(w, e, n, p).value;
      PassClocks(was, n, c, x.now);
      SameMarksClocked(VolumeRuns.AfterPass(was, n, c), VolumeAt(Happen(w, e).pvs, p), n, x.strategy, x.now);
    }
  }

  lemma HealthyReaches(w: World, n: string, x: Script)
    requires Healthy(x) && AllReady(n, x) && PrepareStep(w, n, x) == Step(w, Done)
    requires forall p :: p in w.pvs ==> StampedBy(w.pvs[p], n, x.now)
    ensures forall p :: Judges(w, n, x, p)
  {
    forall p | p in w.pvs ensures JudgeIn(w.pvs, p, n, x.now, x.strategy, x.facts) != Broken {
      assert StampedBy(w.pvs[p], n, x.now);
    }
    NothingFails(w.pvs, n, x.now, x.strategy, x.facts);
    assert DrainStep(w, n, x).progress == Done;
    hide PrepareStep, AnyReattachFails, DrainStep, JudgeIn;
  }

  /** Evacuations come to an end: once LINSTOR has emptied the node, the first pass without failing calls
      starts all clocks, and the first such pass a timeout later is done, whatever happens to other
      satellites and however often this one is tried in between. */
  lemma EvacuationEnds(w: World, e: Event, es: seq<Event>, last: Event, n: string)
    requires IsPass(w, e, n) && Healthy(e.x) && Truthful(w, n, e.x) && Empty(w.linstor, n) && AllReady(n, e.x)
    requires forall p :: p in w.pvs ==> StampedBy(w.pvs[p], n, e.x.now)
    requires NothingNew(Happen(w, e), es, n, e.x.strategy)
    requires var end := Run(Happen(w, e), es);
             && IsPass(end, last, n) && Healthy(last.x) && Truthful(end, n, last.x)
             && Empty(end.linstor, n) && AllReady(n, last.x)
    requires var s := last.x.strategy;
             && s == e.x.strategy
             && last.x.now >= e.x.now + s.attachedTimeout && last.x.now >= e.x.now + s.unattachedTimeout
    ensures EvacuateSatellite(Begun(Run(Happen(w, e), es), last), n, last.x).progress == Done
  {
    var first := Happen(w, e);
    var end, x := Run(first, es), last.x;
    var v := Begun(end, last);
    HealthyPassClocks(w, e, n);
    StaysClocked(first, es, n, x.strategy, e.x.now);
    BegunKeeps(end, last);
    PassHappens(end, last, n);
    EmptySame(end.linstor, v.linstor, n);
    hide Happen, IsPass, Begun, EvacuateSteps, EvacuateSatellite, Empty, Healthy, AllReady, NothingNew, StampedBy,
      Judge;
    forall p | p in v.pvs ensures JudgeIn(v.pvs, p, n, x.now, x.strategy, x.facts) == Idle {
      ClockedPasses(v.pvs[p], n, x.now, x.strategy, AttachedTo(x.facts.attachments, p), e.x.now);
    }
    PassDoneIff(v, n, x);
  }
}
