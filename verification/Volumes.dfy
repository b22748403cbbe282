/** PersistentVolumes during an evacuation: the annotations that steps 1, 4 and 7 write
    (pkg/evacuation/evacuation.go). */
module Volumes {
  import opened Wrappers
  import opened Ordering
  import opened Clock

  /** Annotation keys. The three evacuation prefixes differ and hold no slash, so prefix + "/" + node
      never gives the same key twice. */
  datatype Key =
    | WaitKey(node: string) | SinceKey(node: string) | OverrideKey(node: string)
    | ActionKey | OtherKey(name: string)

  /** An annotation's text; an RFC 3339 timestamp is the instant it denotes, in nanoseconds. */
  datatype Value = Text(text: string) | Instant(at: int)

  type Notes = map<Key, Value>

  /** The CSI source: driver, volume handle and the two volume attributes that matter here. */
  datatype Csi = Csi(driver: string, handle: string, marker: string, remoteAccess: string)

  /** `affinity` names the nodes that match the required node affinity, if there is one. */
  datatype Pv = Pv(notes: Notes, csi: Option<Csi>, affinity: Option<set<string>>, deleting: bool)

  type Pvs = map<string, Pv>

  const DRIVER := "linstor.csi.linbit.com"

  datatype Attachment = Attachment(pv: Option<string>, node: string)

  datatype Definition = Definition(action: Option<string>, group: string)

  /** Evacuation actions configured in LINSTOR, on resource definitions and resource groups. */
  datatype Catalog = Catalog(definitions: map<string, Definition>, groups: map<string, Option<string>>)

  /** What one reconcile reads: PVs in list order, attachments, nodes and the LINSTOR configuration. */
  datatype Facts = Facts(order: seq<string>, attachments: seq<Attachment>, nodes: set<string>, catalog: Catalog)

  datatype Progress = Done | Pending | Failed

  // ---- Step 1: make volumes reschedulable ----

  datatype Action = NoAction | Delete | AffinityOverride | Unrecognized

  function ParseAction(s: string): Action {
    if s == "None" then NoAction
    else if s == "Delete" then Delete
    else if s == "AffinityOverride" then AffinityOverride
    else Unrecognized
  }

  /** The action someone asked for: on the PV, then the resource definition, then its group. */
  function ExplicitAction(pv: Pv, c: Catalog): Option<Action> {
    if ActionKey in pv.notes then
      match pv.notes[ActionKey]
      case Text(s) => Some(ParseAction(s))
      case Instant(_) => Some(Unrecognized)
    else if pv.csi.None? then None
    else
      var rd := Lookup(c.definitions, pv.csi.value.handle).GetOr(Definition(None, ""));
      if rd.action.Some? then Some(ParseAction(rd.action.value))
      else if rd.group in c.groups && c.groups[rd.group].Some? then Some(ParseAction(c.groups[rd.group].value))
      else None
  }

  predicate LocalAttributes(pv: Pv) {
    pv.csi.Some? && pv.csi.value.marker == "true" && pv.csi.value.remoteAccess == "false"
  }

  predicate HasLocalOnlyAccessPolicy(pv: Pv, n: string) {
    Lookup(pv.notes, OverrideKey(n)) != Some(Text("true")) && LocalAttributes(pv)
  }

  predicate IsAttachableOnOtherNode(pv: Pv, n: string, nodes: set<string>) {
    pv.affinity.None? || exists m :: m in nodes && m != n && m in pv.affinity.value
  }

  function ActionFor(pv: Pv, n: string, f: Facts): Action {
    match ExplicitAction(pv, f.catalog)
    case Some(a) => a
    case None =>
      if HasLocalOnlyAccessPolicy(pv, n) && !IsAttachableOnOtherNode(pv, n, f.nodes) then AffinityOverride else NoAction
  }

  ghost function AttachedTo(attachments: seq<Attachment>, pv: string): set<string> {
    set i | 0 <= i < |attachments| && attachments[i].pv == Some(pv) :: attachments[i].node
  }

  function Marked(pv: Pv, n: string, attached: bool): Pv {
    if WaitKey(n) in pv.notes then pv
    else pv.(notes := pv.notes[WaitKey(n) := Text(if attached then "true" else "false")])
  }

  /** One volume after a preparation pass. */
  function Prepared(pv: Pv, n: string, attached: bool, f: Facts): Pv {
    var m := Marked(pv, n, attached);
    match ActionFor(m, n, f)
    case AffinityOverride =>
      if OverrideKey(n) in m.notes then m else m.(notes := m.notes[OverrideKey(n) := Text("true")])
    case Delete => m.(deleting := true)
    case _ => m
  }

  /** LINSTOR resource names and the PV listed last for each. */
  function ByResource(order: seq<string>, pvs: Pvs): (r: map<string, string>)
    requires forall p :: p in order ==> p in pvs
    ensures forall h :: h in r ==> r[h] in order && pvs[r[h]].csi.Some? && pvs[r[h]].csi.value.handle == h
  {
    if order == [] then map[]
    else
      var p := order[|order| - 1];
      var rest := ByResource(order[..|order| - 1], pvs);
      if pvs[p].csi.Some? && pvs[p].csi.value.driver == DRIVER then rest[pvs[p].csi.value.handle := p] else rest
  }

  /** A volume of the CSI driver with this handle. */
  predicate Serves(pv: Pv, handle: string) {
    pv.csi.Some? && pv.csi.value.driver == DRIVER && pv.csi.value.handle == handle
  }

  ghost predicate LastServing(order: seq<string>, pvs: Pvs, h: string, i: int)
    requires forall p :: p in order ==> p in pvs
  {
    0 <= i < |order| && Serves(pvs[order[i]], h) && forall j :: i < j < |order| ==> !Serves(pvs[order[j]], h)
  }

  lemma LastServingNext(order: seq<string>, pvs: Pvs, h: string, i: int)
    requires forall p :: p in order ==> p in pvs
    requires order != [] && !Serves(pvs[order[|order| - 1]], h)
    ensures LastServing(order, pvs, h, i) <==> LastServing(order[..|order| - 1], pvs, h, i)
  {
    var front := order[..|order| - 1];
    assert forall j :: 0 <= j < |front| ==> front[j] == order[j];
    hide Serves;
  }

  /** Exactly the handles that some listed volume of the driver has are found, and of several volumes with
      one handle the one listed last counts. */
  lemma {:induction false} ByResourceIsLast(order: seq<string>, pvs: Pvs, h: string)
    requires forall p :: p in order ==> p in pvs
    ensures h in ByResource(order, pvs) <==> exists i :: 0 <= i < |order| && Serves(pvs[order[i]], h)
    ensures h in ByResource(order, pvs) ==>
            exists i :: LastServing(order, pvs, h, i) && ByResource(order, pvs)[h] == order[i]
  {
    if order != [] {
      var n := |order| - 1;
      var front := order[..n];
      ByResourceIsLast(front, pvs, h);
      ByResourceNext(order, pvs, h);
      if Serves(pvs[order[n]], h) {
        assert LastServing(order, pvs, h, n);
      } else {
        hide Serves, ByResource;
        if h in ByResource(front, pvs) {
          var i :| LastServing(front, pvs, h, i) && ByResource(front, pvs)[h] == front[i];
          LastServingNext(order, pvs, h, i);
        } else {
          assert forall j :: 0 <= j < n ==> front[j] == order[j];
        }
      }
    }
  }

  lemma ByResourceNext(order: seq<string>, pvs: Pvs, h: string)
    requires order != [] && forall p :: p in order ==> p in pvs
    ensures var p := order[|order| - 1];
            Lookup(ByResource(order, pvs), h) ==
              if Serves(pvs[p], h) then Some(p) else Lookup(ByResource(order[..|order| - 1], pvs), h)
  {
  }

  /** The PVs behind the diskful resources on the node. */
  function Targets(resources: seq<string>, pvOf: map<string, string>): set<string> {
    set r | r in resources && r in pvOf :: pvOf[r]
  }

  /** Which calls of step 1 are refused, by volume: its update, its deletion, and the deletion of its claim. */
  datatype Refusals = Refusals(updates: set<string>, deletions: set<string>, claims: set<string>)

  const NOTHING_REFUSED := Refusals({}, {}, {})

  /** One volume after a preparation pass whose update and deletion may each not happen. */
  function Wrote(pv: Pv, n: string, attached: bool, f: Facts, updated: bool, deleted: bool): Pv {
    var after := Prepared(pv, n, attached, f);
    pv.(notes := if updated then after.notes else pv.notes, deleting := if deleted then after.deleting else pv.deleting)
  }

  ghost function PreparedAll(pvs: Pvs, targets: set<string>, n: string, f: Facts, r: Refusals): Pvs {
    map p | p in pvs ::
      if p in targets
      then Wrote(pvs[p], n, AttachedTo(f.attachments, p) != {}, f, p !in r.updates, p !in r.deletions) else pvs[p]
  }

  /** A call for this PV fails that there is something to call for. */
  ghost predicate PrepareFails(pvs: Pvs, p: string, n: string, f: Facts, r: Refusals)
    requires p in pvs
  {
    var attached := AttachedTo(f.attachments, p) != {};
    var after := Prepared(pvs[p], n, attached, f);
    || (p in r.updates && after.notes != pvs[p].notes)
    || (p in r.deletions && after.deleting != pvs[p].deleting)
    || (p in r.claims && ActionFor(Marked(pvs[p], n, attached), n, f) == Delete)
  }

  /** The PV is not schedulable elsewhere yet. */
  ghost predicate NeedsOverride(pvs: Pvs, p: string, n: string, f: Facts)
    requires p in pvs
  {
    ActionFor(Marked(pvs[p], n, AttachedTo(f.attachments, p) != {}), n, f) == AffinityOverride
  }

  ghost predicate AnyFails(pvs: Pvs, targets: set<string>, n: string, f: Facts, r: Refusals) {
    exists p :: p in targets && p in pvs && PrepareFails(pvs, p, n, f, r)
  }

  ghost predicate AnyNeedsOverride(pvs: Pvs, targets: set<string>, n: string, f: Facts) {
    exists p :: p in targets && p in pvs && NeedsOverride(pvs, p, n, f)
  }

  ghost function PrepareResult(pvs: Pvs, targets: set<string>, n: string, f: Facts, r: Refusals): Progress {
    if AnyFails(pvs, targets, n, f, r) then Failed
    else if AnyNeedsOverride(pvs, targets, n, f) then Pending
    else Done
  }

  lemma PrepareOneMore(pvs: Pvs, targets: set<string>, p: string, n: string, f: Facts, r: Refusals)
    requires p in pvs && p !in targets
    ensures PreparedAll(pvs, targets, n, f, r)[p] == pvs[p]
    ensures PreparedAll(pvs, targets + {p}, n, f, r) == PreparedAll(pvs, targets, n, f, r)[p :=
              Wrote(pvs[p], n, AttachedTo(f.attachments, p) != {}, f, p !in r.updates, p !in r.deletions)]
    ensures AnyFails(pvs, targets + {p}, n, f, r) <==> AnyFails(pvs, targets, n, f, r) || PrepareFails(pvs, p, n, f, r)
    ensures AnyNeedsOverride(pvs, targets + {p}, n, f)
       <==> AnyNeedsOverride(pvs, targets, n, f) || NeedsOverride(pvs, p, n, f)
  {
    hide PrepareFails, NeedsOverride, Wrote;
    var all := targets + {p};
    if AnyFails(pvs, targets, n, f, r) {
      var q :| q in targets && q in pvs && PrepareFails(pvs, q, n, f, r);
      assert q in all;
    }
    if AnyNeedsOverride(pvs, targets, n, f) {
      var q :| q in targets && q in pvs && NeedsOverride(pvs, q, n, f);
      assert q in all;
    }
    assert p in all;
  }

  // ---- Step 4: wait until volumes are attached elsewhere ----

  datatype Strategy = Strategy(attachedTimeout: int, unattachedTimeout: int)

  /** How long this volume may block, if it is waited for at all. */
  function Timeout(pv: Pv, n: string, s: Strategy): Option<int> {
    if Lookup(pv.notes, WaitKey(n)) == Some(Text("true")) then Some(s.attachedTimeout)
    else if Lookup(pv.notes, WaitKey(n)) == Some(Text("false")) then Some(s.unattachedTimeout)
    else None
  }

  datatype Wait = Broken | Idle | Blocked | Released

  function Judge(pv: Pv, n: string, now: int, s: Strategy, at: set<string>): Wait {
    if SinceKey(n) in pv.notes && pv.notes[SinceKey(n)].Text? then Broken
    else
      var since := if SinceKey(n) in pv.notes then pv.notes[SinceKey(n)].at else now;
      match Timeout(pv, n, s)
      case None => Idle
      case Some(limit) =>
        if now - since >= limit then Idle else if at == {} || n in at then Blocked else Released
  }

  /** One volume after a reattachment pass. */
  function Reattached(pv: Pv, n: string, now: int, s: Strategy, at: set<string>): Pv {
    match Judge(pv, n, now, s, at)
    case Released => pv.(notes := pv.notes - {SinceKey(n), WaitKey(n)})
    case Blocked =>
      if SinceKey(n) in pv.notes then pv else pv.(notes := pv.notes[SinceKey(n) := Instant(ToSecond(now))])
    case _ => pv
  }

  ghost function ReattachedAll(pvs: Pvs, n: string, now: int, s: Strategy, f: Facts): Pvs {
    map p | p in pvs :: Reattached(pvs[p], n, now, s, AttachedTo(f.attachments, p))
  }

  ghost function JudgeIn(pvs: Pvs, p: string, n: string, now: int, s: Strategy, f: Facts): Wait
    requires p in pvs
  {
    Judge(pvs[p], n, now, s, AttachedTo(f.attachments, p))
  }

  ghost predicate AnyReattachFails(pvs: Pvs, n: string, now: int, s: Strategy, f: Facts, faulty: set<string>) {
    exists p :: p in pvs && ReattachFails(pvs, p, n, now, s, f, faulty)
  }

  ghost predicate AnyBlocked(pvs: Pvs, n: string, now: int, s: Strategy, f: Facts) {
    exists p :: p in pvs && JudgeIn(pvs, p, n, now, s, f) == Blocked
  }

  ghost predicate ReattachFails(pvs: Pvs, p: string, n: string, now: int, s: Strategy, f: Facts, faulty: set<string>)
    requires p in pvs
  {
    || JudgeIn(pvs, p, n, now, s, f) == Broken
    || (p in faulty && Reattached(pvs[p], n, now, s, AttachedTo(f.attachments, p)) != pvs[p])
  }

  // ---- Step 7: clean up ----

  function Cleaned(pv: Pv, n: string): Pv {
    pv.(notes := pv.notes - {SinceKey(n), WaitKey(n), OverrideKey(n)})
  }

  ghost function CleanedAll(pvs: Pvs, seen: set<string>, n: string, faulty: set<string>): Pvs {
    map p | p in pvs :: if p in seen && p !in faulty then Cleaned(pvs[p], n) else pvs[p]
  }

  ghost predicate AnyCleanFails(pvs: Pvs, seen: set<string>, n: string, faulty: set<string>) {
    exists p :: p in seen && p in pvs && p in faulty && Cleaned(pvs[p], n) != pvs[p]
  }

  // ---- The steps on the API server's objects ----

  class Cluster {
    var pvs: Pvs

    constructor (pvs: Pvs)
      ensures this.pvs == pvs
    {
      this.pvs := pvs;
    }

    ghost predicate Lists(f: Facts)
      reads this
    {
      Distinct(f.order) && Elements(f.order) == pvs.Keys
    }

    /** PV name to attached nodes. */
    static method ToAttachedNodes(attachments: seq<Attachment>) returns (nodes: map<string, set<string>>)
      ensures forall p :: (if p in nodes then nodes[p] else {}) == AttachedTo(attachments, p)
    {
      nodes := map[];
      for i := 0 to |attachments|
        invariant forall p :: (if p in nodes then nodes[p] else {}) == AttachedTo(attachments[..i], p)
      {
        var a := attachments[i];
        forall p ensures AttachedTo(attachments[..i + 1], p)
                      == AttachedTo(attachments[..i], p) + (if a.pv == Some(p) then {a.node} else {}) {
          AttachedToAppend(attachments[..i], a, p);
          assert attachments[..i + 1] == attachments[..i] + [a];
        }
        if a.pv.Some? {
          nodes := nodes[a.pv.value := (if a.pv.value in nodes then nodes[a.pv.value] else {}) + {a.node}];
        }
      }
      assert attachments[..|attachments|] == attachments;
    }

    /** One volume in step 1: delete it if its action says so, then write the copy back if its annotations changed. */
    method PrepareOne(p: string, n: string, isAttached: bool, f: Facts, r: Refusals)
      returns (err: bool, unschedulable: bool)
      requires p in pvs && isAttached == (AttachedTo(f.attachments, p) != {})
      modifies this
      ensures pvs == old(pvs)[p := Wrote(old(pvs)[p], n, isAttached, f, p !in r.updates, p !in r.deletions)]
      ensures err == PrepareFails(old(pvs), p, n, f, r)
      ensures unschedulable == NeedsOverride(old(pvs), p, n, f)
    {
      var pv := pvs[p];
      var next := Marked(pv, n, isAttached);
      var toUpdate := WaitKey(n) !in pv.notes;
      var action := ActionFor(next, n, f);
      unschedulable, err := action == AffinityOverride, false;
      var after := pv;
      if action == AffinityOverride && OverrideKey(n) !in next.notes {
        toUpdate := true;
        next := next.(notes := next.notes[OverrideKey(n) := Text("true")]);
      } else if action == Delete {
        err := p in r.claims;
        if !pv.deleting {
          err := err || p in r.deletions;
          after := after.(deleting := p !in r.deletions);
        }
      }
      assert next.notes == Prepared(pv, n, isAttached, f).notes;
      NotesDiffer(pv.notes, next.notes);
      if toUpdate {
        err := err || p in r.updates;
        after := after.(notes := if p in r.updates then pv.notes else next.notes);
      }
      pvs := pvs[p := after];
    }

    method PreparePVsForEvacuation(n: string, resources: seq<string>, f: Facts, r: Refusals)
      returns (progress: Progress)
      requires Lists(f) && Distinct(resources)
      modifies this
      ensures var targets := Targets(resources, ByResource(f.order, old(pvs)));
              && pvs == PreparedAll(old(pvs), targets, n, f, r)
              && progress == PrepareResult(old(pvs), targets, n, f, r)
    {
      assert forall p :: p in f.order ==> p in Elements(f.order);
      var attached := ToAttachedNodes(f.attachments);
      ghost var was := pvs;
      var pvOf := ByResource(f.order, pvs);
      var unschedulable, errs := false, false;
      ghost var targets: set<string> := {};
      assert pvs == PreparedAll(was, {}, n, f, r);
      for i := 0 to |resources|
        invariant targets == Targets(resources[..i], pvOf)
        invariant pvs == PreparedAll(was, targets, n, f, r)
        invariant errs == AnyFails(was, targets, n, f, r)
        invariant unschedulable == AnyNeedsOverride(was, targets, n, f)
      {
        var rd := resources[i];
        TargetsAppend(resources, i, pvOf, was);
        if rd in pvOf {
          var p := pvOf[rd];
          PrepareOneMore(was, targets, p, n, f, r);
          var err, needs := PrepareOne(p, n, p in attached && attached[p] != {}, f, r);
          errs, unschedulable := errs || err, unschedulable || needs;
          targets := targets + {p};
        }
      }
      assert resources[..|resources|] == resources;
      return if errs then Failed else if unschedulable then Pending else Done;
    }

    /** The first loop of step 4: releases what is attached elsewhere, collects what is not. On failure,
        `seen` are the volumes it got to. */
    method ReleaseAttached(n: string, now: int, s: Strategy, f: Facts, faulty: set<string>)
      returns (blocked: seq<string>, failed: bool, ghost seen: set<string>)
      requires Lists(f)
      modifies this
      ensures pvs == ReleasedAll(old(pvs), seen, n, now, s, f)
      ensures failed ==> AnyReleaseFails(old(pvs), old(pvs).Keys, n, now, s, f, faulty)
      ensures !failed ==> seen == old(pvs).Keys && !AnyReleaseFails(old(pvs), seen, n, now, s, f, faulty)
      ensures !failed ==> Elements(blocked) == BlockedIn(old(pvs), seen, n, now, s, f)
    {
      ghost var was := pvs;
      var nodes := ToAttachedNodes(f.attachments);
      blocked, failed, seen := [], false, {};
      assert pvs == ReleasedAll(was, {}, n, now, s, f);
      hide ReleasedAll, BlockedIn, Judge;
      for i := 0 to |f.order|
        invariant seen == Elements(f.order[..i])
        invariant pvs == ReleasedAll(was, seen, n, now, s, f)
        invariant !AnyReleaseFails(was, seen, n, now, s, f, faulty)
        invariant Elements(blocked) == BlockedIn(was, seen, n, now, s, f)
      {
        var p := f.order[i];
        ElementsAppend(f.order, i);
        assert p in Elements(f.order);
        ReleaseOneMore(was, seen, p, n, now, s, f, faulty);
        var verdict, err := ReleaseOne(p, n, now, s, if p in nodes then nodes[p] else {}, faulty);
        if err {
          assert ReleaseFails(was, p, n, now, s, f, faulty);
          return blocked, true, seen;
        }
        if verdict == Blocked {
          BlockedAppend(blocked, p);
          blocked := blocked + [p];
        }
        seen := seen + {p};
      }
      assert f.order[..|f.order|] == f.order;
    }

    /** One volume in the first loop of step 4. */
    method ReleaseOne(p: string, n: string, now: int, s: Strategy, at: set<string>, faulty: set<string>)
      returns (verdict: Wait, err: bool)
      requires p in pvs
      modifies this
      ensures verdict == Judge(old(pvs)[p], n, now, s, at)
      ensures err <==> verdict == Broken || (verdict == Released && p in faulty)
      ensures err ==> pvs == old(pvs)
      ensures !err ==> pvs == old(pvs)[p := if verdict == Released
                then old(pvs)[p].(notes := old(pvs)[p].notes - {SinceKey(n), WaitKey(n)}) else old(pvs)[p]]
    {
      verdict := Judge(pvs[p], n, now, s, at);
      hide Judge;
      assert pvs[p := pvs[p]] == pvs;
      if verdict == Broken || (verdict == Released && p in faulty) {
        return verdict, true;
      }
      err := false;
      if verdict == Released {
        pvs := pvs[p := pvs[p].(notes := pvs[p].notes - {SinceKey(n), WaitKey(n)})];
      }
    }

    /** The second loop of step 4: the first pass that finds a volume blocked starts its clock. */
    method StampBlocked(n: string, now: int, blocked: seq<string>, faulty: set<string>)
      returns (failed: bool, ghost seen: set<string>)
      requires Elements(blocked) <= pvs.Keys
      modifies this
      ensures seen <= Elements(blocked) && pvs == StampedAll(old(pvs), seen, n, now)
      ensures failed ==> exists p :: p in Elements(blocked) && StampFails(old(pvs), p, n, faulty)
      ensures !failed ==> seen == Elements(blocked) && forall p :: p in seen ==> !StampFails(old(pvs), p, n, faulty)
    {
      ghost var was := pvs;
      failed, seen := false, {};
      assert pvs == StampedAll(was, {}, n, now);
      for i := 0 to |blocked|
        invariant seen == Elements(blocked[..i])
        invariant pvs == StampedAll(was, seen, n, now)
        invariant forall p :: p in seen ==> !StampFails(was, p, n, faulty)
      {
        var p := blocked[i];
        ElementsAppend(blocked, i);
        assert p in Elements(blocked);
        if SinceKey(n) !in pvs[p].notes {
          if p in faulty {
            assert StampFails(was, p, n, faulty);
            return true, seen;
          }
          pvs := pvs[p := pvs[p].(notes := pvs[p].notes[SinceKey(n) := Instant(ToSecond(now))])];
        }
        seen := seen + {p};
        assert pvs == StampedAll(was, seen, n, now);
      }
      assert blocked[..|blocked|] == blocked;
    }

    method WaitForReattach(n: string, now: int, s: Strategy, f: Facts, faulty: set<string>) returns (r: Progress)
      requires Lists(f)
      modifies this
      ensures r == Failed <==> AnyReattachFails(old(pvs), n, now, s, f, faulty)
      ensures r != Failed ==> pvs == ReattachedAll(old(pvs), n, now, s, f)
      ensures r != Failed ==> (r == Pending <==> AnyBlocked(old(pvs), n, now, s, f))
      ensures pvs.Keys == old(pvs).Keys
      ensures forall p :: p in pvs ==>
                pvs[p] == old(pvs)[p] || pvs[p] == Reattached(old(pvs)[p], n, now, s, AttachedTo(f.attachments, p))
    {
      ghost var was := pvs;
      var blocked, failed, seen := ReleaseAttached(n, now, s, f, faulty);
      if failed {
        ReleaseFailsFail(was, was.Keys, n, now, s, f, faulty);
        return Failed;
      }
      ghost var released := pvs;
      var stampFailed, stamped := StampBlocked(n, now, blocked, faulty);
      StampAfterRelease(was, stamped, n, now, s, f, faulty);
      if stampFailed {
        return Failed;
      }
      BlockedSet(was, n, now, s, f);
      if |blocked| > 0 {
        assert blocked[0] in Elements(blocked);
        return Pending;
      }
      assert Elements(blocked) == {};
      return Done;
    }

    method CleanPVsAfterEvacuation(n: string, f: Facts, faulty: set<string>) returns (failed: bool)
      requires Lists(f)
      modifies this
      ensures pvs == CleanedAll(old(pvs), old(pvs).Keys, n, faulty)
      ensures failed == AnyCleanFails(old(pvs), old(pvs).Keys, n, faulty)
    {
      ghost var was := pvs;
      ghost var seen: set<string> := {};
      failed := false;
      assert pvs == CleanedAll(was, {}, n, faulty);
      for i := 0 to |f.order|
        invariant seen == Elements(f.order[..i])
        invariant pvs == CleanedAll(was, seen, n, faulty)
        invariant failed == AnyCleanFails(was, seen, n, faulty)
      {
        var p := f.order[i];
        ElementsAppend(f.order, i);
        assert p in Elements(f.order);
        CleanOneMore(was, seen, p, n, faulty);
        var notes := pvs[p].notes;
        CleanedDiffers(was[p], n);
        if SinceKey(n) in notes || OverrideKey(n) in notes || WaitKey(n) in notes {
          if p in faulty {
            failed := true;
          } else {
            pvs := pvs[p := pvs[p].(notes := notes - {SinceKey(n), WaitKey(n), OverrideKey(n)})];
          }
        }
        seen := seen + {p};
        assert pvs == CleanedAll(was, seen, n, faulty);
      }
      assert f.order[..|f.order|] == f.order;
    }
  }

  lemma NotesDiffer(a: Notes, b: Notes)
    requires a.Keys <= b.Keys && forall k :: k in a ==> a[k] == b[k]
    ensures a != b <==> exists k :: k in b && k !in a
  {
  }

  lemma BlockedSet(pvs: Pvs, n: string, now: int, s: Strategy, f: Facts)
    ensures AnyBlocked(pvs, n, now, s, f) <==> BlockedIn(pvs, pvs.Keys, n, now, s, f) != {}
  {
    if AnyBlocked(pvs, n, now, s, f) {
      var p :| p in pvs && JudgeIn(pvs, p, n, now, s, f) == Blocked;
      assert p in BlockedIn(pvs, pvs.Keys, n, now, s, f);
    }
  }

  lemma CleanedDiffers(pv: Pv, n: string)
    ensures Cleaned(pv, n) != pv <==> SinceKey(n) in pv.notes || OverrideKey(n) in pv.notes || WaitKey(n) in pv.notes
  {
    var rest := pv.notes - {SinceKey(n), WaitKey(n), OverrideKey(n)};
    if SinceKey(n) in pv.notes || OverrideKey(n) in pv.notes || WaitKey(n) in pv.notes {
      assert rest.Keys != pv.notes.Keys;
    } else {
      assert rest == pv.notes;
    }
  }

  lemma CleanOneMore(pvs: Pvs, seen: set<string>, p: string, n: string, faulty: set<string>)
    requires p in pvs && p !in seen
    ensures CleanedAll(pvs, seen, n, faulty)[p] == pvs[p]
    ensures CleanedAll(pvs, seen + {p}, n, faulty)
         == CleanedAll(pvs, seen, n, faulty)[p := if p in faulty then pvs[p] else Cleaned(pvs[p], n)]
    ensures AnyCleanFails(pvs, seen + {p}, n, faulty)
       <==> AnyCleanFails(pvs, seen, n, faulty) || (p in faulty && Cleaned(pvs[p], n) != pvs[p])
  {
    var all := seen + {p};
    assert p in all;
    if AnyCleanFails(pvs, seen, n, faulty) {
      var q :| q in seen && q in pvs && q in faulty && Cleaned(pvs[q], n) != pvs[q];
      assert q in all;
    }
  }

  ghost function StampedAll(pvs: Pvs, seen: set<string>, n: string, now: int): Pvs {
    map p | p in pvs ::
      if p in seen && SinceKey(n) !in pvs[p].notes
      then pvs[p].(notes := pvs[p].notes[SinceKey(n) := Instant(ToSecond(now))]) else pvs[p]
  }

  ghost predicate StampFails(pvs: Pvs, p: string, n: string, faulty: set<string>) {
    p in pvs && p in faulty && SinceKey(n) !in pvs[p].notes
  }

  lemma ReleasedDiffers(pv: Pv, n: string, now: int, s: Strategy, at: set<string>)
    requires Judge(pv, n, now, s, at) == Released
    ensures Reattached(pv, n, now, s, at) != pv
  {
    assert WaitKey(n) in pv.notes && WaitKey(n) !in Reattached(pv, n, now, s, at).notes;
  }

  lemma ReleaseFailsFail(pvs: Pvs, seen: set<string>, n: string, now: int, s: Strategy, f: Facts, faulty: set<string>)
    requires AnyReleaseFails(pvs, seen, n, now, s, f, faulty)
    ensures AnyReattachFails(pvs, n, now, s, f, faulty)
  {
    var p :| p in seen && p in pvs && ReleaseFails(pvs, p, n, now, s, f, faulty);
    if JudgeIn(pvs, p, n, now, s, f) == Released {
      ReleasedDiffers(pvs[p], n, now, s, AttachedTo(f.attachments, p));
    }
    assert ReattachFails(pvs, p, n, now, s, f, faulty);
  }

  lemma StampAfterReleaseFails(pvs: Pvs, n: string, now: int, s: Strategy, f: Facts, faulty: set<string>, p: string)
    requires !AnyReleaseFails(pvs, pvs.Keys, n, now, s, f, faulty) && p in pvs
    ensures ReattachFails(pvs, p, n, now, s, f, faulty)
       <==> && p in BlockedIn(pvs, pvs.Keys, n, now, s, f)
            && StampFails(ReleasedAll(pvs, pvs.Keys, n, now, s, f), p, n, faulty)
  {
    assert !ReleaseFails(pvs, p, n, now, s, f, faulty);
    if JudgeIn(pvs, p, n, now, s, f) == Blocked && SinceKey(n) !in pvs[p].notes {
      assert SinceKey(n) in Reattached(pvs[p], n, now, s, AttachedTo(f.attachments, p)).notes;
    }
    hide Judge;
  }

  lemma StampAfterReleaseAt(pvs: Pvs, stamped: set<string>, n: string, now: int, s: Strategy, f: Facts,
      faulty: set<string>, p: string)
    requires !AnyReleaseFails(pvs, pvs.Keys, n, now, s, f, faulty) && p in pvs
    requires stamped <= BlockedIn(pvs, pvs.Keys, n, now, s, f)
    ensures var released := ReleasedAll(pvs, pvs.Keys, n, now, s, f);
            var blocked := BlockedIn(pvs, pvs.Keys, n, now, s, f);
            && StampedAll(released, stamped, n, now)[p]
               in {pvs[p], Reattached(pvs[p], n, now, s, AttachedTo(f.attachments, p))}
            && StampedAll(released, blocked, n, now)[p] == Reattached(pvs[p], n, now, s, AttachedTo(f.attachments, p))
  {
    hide Judge;
  }

  /** Both loops together treat each volume as Reattached says, and fail where it says. */
  lemma StampAfterRelease(pvs: Pvs, stamped: set<string>, n: string, now: int, s: Strategy, f: Facts,
      faulty: set<string>)
    requires !AnyReleaseFails(pvs, pvs.Keys, n, now, s, f, faulty)
    requires stamped <= BlockedIn(pvs, pvs.Keys, n, now, s, f)
    ensures var released := ReleasedAll(pvs, pvs.Keys, n, now, s, f);
            var blocked := BlockedIn(pvs, pvs.Keys, n, now, s, f);
            && (forall p :: p in pvs ==>
                  StampedAll(released, stamped, n, now)[p]
                    in {pvs[p], Reattached(pvs[p], n, now, s, AttachedTo(f.attachments, p))})
            && StampedAll(released, blocked, n, now) == ReattachedAll(pvs, n, now, s, f)
            && (AnyReattachFails(pvs, n, now, s, f, faulty)
                <==> exists p :: p in blocked && StampFails(released, p, n, faulty))
  {
    hide Judge, Reattached, ReattachFails, StampFails, JudgeIn;
    var released := ReleasedAll(pvs, pvs.Keys, n, now, s, f);
    var blocked := BlockedIn(pvs, pvs.Keys, n, now, s, f);
    forall p | p in pvs
      ensures ReattachFails(pvs, p, n, now, s, f, faulty) <==> p in blocked && StampFails(released, p, n, faulty)
    {
      StampAfterReleaseFails(pvs, n, now, s, f, faulty, p);
    }
    forall p | p in pvs
      ensures StampedAll(released, stamped, n, now)[p]
           in {pvs[p], Reattached(pvs[p], n, now, s, AttachedTo(f.attachments, p))}
      ensures StampedAll(released, blocked, n, now)[p] == Reattached(pvs[p], n, now, s, AttachedTo(f.attachments, p))
    {
      StampAfterReleaseAt(pvs, stamped, n, now, s, f, faulty, p);
    }
    assert blocked <= pvs.Keys;
  }

  ghost predicate ReleaseFails(pvs: Pvs, p: string, n: string, now: int, s: Strategy, f: Facts, faulty: set<string>)
    requires p in pvs
  {
    JudgeIn(pvs, p, n, now, s, f) == Broken || (JudgeIn(pvs, p, n, now, s, f) == Released && p in faulty)
  }

  ghost predicate AnyReleaseFails(pvs: Pvs, seen: set<string>, n: string, now: int, s: Strategy, f: Facts,
      faulty: set<string>) {
    exists p :: p in seen && p in pvs && ReleaseFails(pvs, p, n, now, s, f, faulty)
  }

  ghost function BlockedIn(pvs: Pvs, seen: set<string>, n: string, now: int, s: Strategy, f: Facts): set<string> {
    set p | p in seen && p in pvs && JudgeIn(pvs, p, n, now, s, f) == Blocked
  }

  ghost function ReleasedAll(pvs: Pvs, seen: set<string>, n: string, now: int, s: Strategy, f: Facts): Pvs {
    map p | p in pvs ::
      if p in seen && JudgeIn(pvs, p, n, now, s, f) == Released
      then pvs[p].(notes := pvs[p].notes - {SinceKey(n), WaitKey(n)}) else pvs[p]
  }

  lemma ReleaseOneMore(pvs: Pvs, seen: set<string>, p: string, n: string, now: int, s: Strategy, f: Facts,
      faulty: set<string>)
    requires p in pvs && p !in seen
    ensures ReleasedAll(pvs, seen, n, now, s, f)[p] == pvs[p]
    ensures AnyReleaseFails(pvs, seen + {p}, n, now, s, f, faulty)
       <==> AnyReleaseFails(pvs, seen, n, now, s, f, faulty) || ReleaseFails(pvs, p, n, now, s, f, faulty)
    ensures BlockedIn(pvs, seen + {p}, n, now, s, f)
         == BlockedIn(pvs, seen, n, now, s, f) + (if JudgeIn(pvs, p, n, now, s, f) == Blocked then {p} else {})
    ensures ReleasedAll(pvs, seen + {p}, n, now, s, f) == ReleasedAll(pvs, seen, n, now, s, f)[p :=
              if JudgeIn(pvs, p, n, now, s, f) == Released
              then pvs[p].(notes := pvs[p].notes - {SinceKey(n), WaitKey(n)}) else pvs[p]]
  {
    var all := seen + {p};
    assert p in all;
    if AnyReleaseFails(pvs, seen, n, now, s, f, faulty) {
      var q :| q in seen && q in pvs && ReleaseFails(pvs, q, n, now, s, f, faulty);
      assert q in all;
    }
  }

  lemma BlockedAppend(q: seq<string>, p: string)
    ensures Elements(q + [p]) == Elements(q) + {p}
  {
    assert (q + [p])[..|q|] == q && (q + [p])[..|q| + 1] == q + [p];
    ElementsAppend(q + [p], |q|);
  }

  lemma ElementsAppend(q: seq<string>, i: nat)
    requires i < |q|
    ensures Elements(q[..i + 1]) == Elements(q[..i]) + {q[i]}
    ensures Distinct(q) ==> q[i] !in Elements(q[..i])
  {
    assert q[..i + 1] == q[..i] + [q[i]];
  }

  lemma TargetsAppend(resources: seq<string>, i: nat, pvOf: map<string, string>, pvs: Pvs)
    requires i < |resources| && Distinct(resources)
    requires forall h :: h in pvOf ==> pvOf[h] in pvs && pvs[pvOf[h]].csi.Some? && pvs[pvOf[h]].csi.value.handle == h
    ensures Targets(resources[..i + 1], pvOf)
         == Targets(resources[..i], pvOf) + (if resources[i] in pvOf then {pvOf[resources[i]]} else {})
    ensures resources[i] in pvOf ==> pvOf[resources[i]] !in Targets(resources[..i], pvOf)
  {
    assert resources[..i + 1] == resources[..i] + [resources[i]];
  }

  lemma AttachedToAppend(attachments: seq<Attachment>, a: Attachment, p: string)
    ensures AttachedTo(attachments + [a], p) == AttachedTo(attachments, p) + (if a.pv == Some(p) then {a.node} else {})
  {
    var all := attachments + [a];
    forall x ensures x in AttachedTo(all, p) <==> x in AttachedTo(attachments, p) || (a.pv == Some(p) && x == a.node) {
      if x in AttachedTo(attachments, p) {
        var i :| 0 <= i < |attachments| && attachments[i].pv == Some(p) && attachments[i].node == x;
        assert all[i].node == x && all[i].pv == Some(p);
      }
      if a.pv == Some(p) && x == a.node {
        assert all[|attachments|].node == x;
      }
    }
  }
}
