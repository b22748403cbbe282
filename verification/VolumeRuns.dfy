/** What the annotations guarantee across repeated passes and across nodes. */
module VolumeRuns {
  import opened Wrappers
  import opened Clock
  import opened Volumes

  // ---- The second preparation pass ----

  /** Preparing this volume never comes to an end: an explicit override action, or an override
      annotation with another value on a volume that needs overriding. */
  ghost predicate Stuck(pv: Pv, n: string, f: Facts) {
    match ExplicitAction(pv, f.catalog)
    case Some(a) => a == AffinityOverride
    case None =>
      && OverrideKey(n) in pv.notes && pv.notes[OverrideKey(n)] != Text("true")
      && LocalAttributes(pv) && !IsAttachableOnOtherNode(pv, n, f.nodes)
  }

  lemma PreparedAgain(pv: Pv, n: string, attached: bool, f: Facts)
    ensures var after := Prepared(pv, n, attached, f);
            && Prepared(after, n, attached, f) == after
            && (ActionFor(Marked(after, n, attached), n, f) == AffinityOverride <==> Stuck(pv, n, f))
  {
    var m, after := Marked(pv, n, attached), Prepared(pv, n, attached, f);
    assert ExplicitAction(m, f.catalog) == ExplicitAction(pv, f.catalog);
    assert ExplicitAction(after, f.catalog) == ExplicitAction(pv, f.catalog);
    assert WaitKey(n) in after.notes && Marked(after, n, attached) == after;
  }

  lemma {:induction false} SameResources(order: seq<string>, pvs: Pvs, after: Pvs)
    requires forall p :: p in order ==> p in pvs && p in after && after[p].csi == pvs[p].csi
    ensures ByResource(order, after) == ByResource(order, pvs)
  {
    if order != [] {
      SameResources(order[..|order| - 1], pvs, after);
    }
  }

  lemma SecondPassOnOne(pvs: Pvs, targets: set<string>, n: string, f: Facts, p: string)
    requires p in targets && p in pvs
    ensures var after := PreparedAll(pvs, targets, n, f, NOTHING_REFUSED);
            && p in after && Prepared(after[p], n, AttachedTo(f.attachments, p) != {}, f) == after[p]
            && (NeedsOverride(after, p, n, f) <==> Stuck(pvs[p], n, f))
  {
    PreparedAgain(pvs[p], n, AttachedTo(f.attachments, p) != {}, f);
    hide Prepared, Stuck, ActionFor, Marked;
  }

  lemma SecondPassOnTargets(pvs: Pvs, targets: set<string>, n: string, f: Facts)
    requires targets <= pvs.Keys
    ensures var after := PreparedAll(pvs, targets, n, f, NOTHING_REFUSED);
            && PreparedAll(after, targets, n, f, NOTHING_REFUSED) == after
            && (AnyNeedsOverride(after, targets, n, f) <==> exists p :: p in targets && Stuck(pvs[p], n, f))
            && !AnyFails(after, targets, n, f, NOTHING_REFUSED)
  {
    hide Stuck, NeedsOverride, ActionFor, Marked, AttachedTo;
    forall p | p in targets { SecondPassOnOne(pvs, targets, n, f, p); }
    hide Prepared;
  }

  lemma PreparedKeepsCsi(pvs: Pvs, targets: set<string>, n: string, f: Facts, p: string)
    requires p in pvs
    ensures var after := PreparedAll(pvs, targets, n, f, NOTHING_REFUSED); p in after && after[p].csi == pvs[p].csi
  {
  }

  /** After one preparation pass without errors, a second one writes nothing, and it reports completion
      exactly when no volume on the node was stuck to begin with. */
  lemma SecondPass(pvs: Pvs, resources: seq<string>, n: string, f: Facts)
    requires forall p :: p in f.order ==> p in pvs
    ensures var targets := Targets(resources, ByResource(f.order, pvs));
            var after := PreparedAll(pvs, targets, n, f, NOTHING_REFUSED);
            && Targets(resources, ByResource(f.order, after)) == targets
            && PreparedAll(after, targets, n, f, NOTHING_REFUSED) == after
            && (PrepareResult(after, targets, n, f, NOTHING_REFUSED) == Done
                <==> !exists p :: p in targets && Stuck(pvs[p], n, f))
  {
    var targets := Targets(resources, ByResource(f.order, pvs));
    var after := PreparedAll(pvs, targets, n, f, NOTHING_REFUSED);
    hide PreparedAll, Stuck, AnyNeedsOverride, AnyFails, ByResource;
    SecondPassOnTargets(pvs, targets, n, f);
    forall p | p in pvs { PreparedKeepsCsi(pvs, targets, n, f, p); }
    SameResources(f.order, pvs, after);
  }

  /** A volume that nothing holds back can be used on another node after one preparation pass: its
      access is not restricted, or its affinity allows another node, or the restriction is lifted. */
  lemma PreparedVolumesCanMove(pv: Pv, n: string, attached: bool, f: Facts)
    requires ExplicitAction(pv, f.catalog) == None && !Stuck(pv, n, f)
    ensures var after := Prepared(pv, n, attached, f);
            && (HasLocalOnlyAccessPolicy(after, n) ==> IsAttachableOnOtherNode(after, n, f.nodes))
            && (OverrideKey(n) in after.notes && OverrideKey(n) !in pv.notes ==>
                  LocalAttributes(pv) && !IsAttachableOnOtherNode(pv, n, f.nodes))
            && after.deleting == pv.deleting
  {
    MarkedAsks(pv, n, attached, f);
  }

  // ---- What step 1 does, by what was asked for ----

  /** The definition LINSTOR has for the volume. */
  ghost function DefinitionOf(pv: Pv, c: Catalog): Definition {
    match pv.csi
    case None => Definition(None, "")
    case Some(csi) => if csi.handle in c.definitions then c.definitions[csi.handle] else Definition(None, "")
  }

  /** The action asked for is this text: on the volume itself, or else on its resource definition, or else on
      the resource group of that. */
  ghost predicate Asks(pv: Pv, c: Catalog, text: string) {
    var rd := DefinitionOf(pv, c);
    || Lookup(pv.notes, ActionKey) == Some(Text(text))
    || (&& ActionKey !in pv.notes && pv.csi.Some?
        && (rd.action == Some(text) || (rd.action == None && Lookup(c.groups, rd.group) == Some(Some(text)))))
  }

  /** Nobody asked for an action. */
  ghost predicate Silent(pv: Pv, c: Catalog) {
    var rd := DefinitionOf(pv, c);
    && ActionKey !in pv.notes
    && (pv.csi.Some? ==> rd.action == None && (rd.group in c.groups ==> c.groups[rd.group] == None))
  }

  /** The volume may only be used on its node: its attributes say so, and its affinity names no other node. */
  ghost predicate BoundTo(pv: Pv, n: string, nodes: set<string>) {
    && pv.csi.Some? && pv.csi.value.marker == "true" && pv.csi.value.remoteAccess == "false"
    && pv.affinity.Some? && forall m :: m in nodes && m in pv.affinity.value ==> m == n
  }

  /** Its affinity has to be lifted, were there no override yet. */
  ghost predicate WantsOverride(pv: Pv, n: string, f: Facts) {
    Asks(pv, f.catalog, "AffinityOverride") || (Silent(pv, f.catalog) && BoundTo(pv, n, f.nodes))
  }

  lemma ActionIsAsked(pv: Pv, c: Catalog)
    ensures ExplicitAction(pv, c) == Some(Delete) <==> Asks(pv, c, "Delete")
    ensures ExplicitAction(pv, c) == Some(AffinityOverride) <==> Asks(pv, c, "AffinityOverride")
    ensures ExplicitAction(pv, c) == None <==> Silent(pv, c)
  {
  }

  lemma MarkedAsks(pv: Pv, n: string, attached: bool, f: Facts)
    ensures var m := Marked(pv, n, attached);
            && ExplicitAction(m, f.catalog) == ExplicitAction(pv, f.catalog)
            && HasLocalOnlyAccessPolicy(m, n) == HasLocalOnlyAccessPolicy(pv, n)
            && IsAttachableOnOtherNode(m, n, f.nodes) == IsAttachableOnOtherNode(pv, n, f.nodes)
            && m.notes == pv.notes[WaitKey(n) := if WaitKey(n) in pv.notes then pv.notes[WaitKey(n)]
                                                 else Text(if attached then "true" else "false")]
            && m.(notes := pv.notes) == pv
  {
  }

  lemma BoundIsLocal(pv: Pv, n: string, f: Facts)
    ensures HasLocalOnlyAccessPolicy(pv, n) && !IsAttachableOnOtherNode(pv, n, f.nodes)
       <==> BoundTo(pv, n, f.nodes) && Lookup(pv.notes, OverrideKey(n)) != Some(Text("true"))
  {
  }

  /** What one preparation pass does to a volume: it is marked by whether it is attached, unless it was marked
      before; it is deleted exactly if "Delete" was asked for; and it gets an override exactly if it has none
      and wants one. Everything else stays. */
  lemma StepOneDoes(pv: Pv, n: string, attached: bool, f: Facts)
    ensures var after := Prepared(pv, n, attached, f);
            && (after.deleting <==> pv.deleting || Asks(pv, f.catalog, "Delete"))
            && Lookup(after.notes, WaitKey(n)) ==
                 (if WaitKey(n) in pv.notes then Some(pv.notes[WaitKey(n)])
                  else Some(Text(if attached then "true" else "false")))
            && Lookup(after.notes, OverrideKey(n)) ==
                 (if OverrideKey(n) in pv.notes then Some(pv.notes[OverrideKey(n)])
                  else if WantsOverride(pv, n, f) then Some(Text("true")) else None)
            && (forall k :: k != WaitKey(n) && k != OverrideKey(n) ==> Lookup(after.notes, k) == Lookup(pv.notes, k))
            && after.csi == pv.csi && after.affinity == pv.affinity
  {
    ActionIsAsked(pv, f.catalog);
    MarkedAsks(pv, n, attached, f);
    BoundIsLocal(pv, n, f);
    hide ExplicitAction, Asks, Silent, BoundTo, Marked, HasLocalOnlyAccessPolicy, IsAttachableOnOtherNode;
  }

  /** The volume holds the preparation up: an override is asked for, or it is needed and not in effect. */
  ghost predicate HoldsUpStepOne(pv: Pv, n: string, f: Facts) {
    || Asks(pv, f.catalog, "AffinityOverride")
    || (Silent(pv, f.catalog) && BoundTo(pv, n, f.nodes) && Lookup(pv.notes, OverrideKey(n)) != Some(Text("true")))
  }

  lemma NeedsOverrideIff(pvs: Pvs, p: string, n: string, f: Facts)
    requires p in pvs
    ensures NeedsOverride(pvs, p, n, f) <==> HoldsUpStepOne(pvs[p], n, f)
  {
    var attached := AttachedTo(f.attachments, p) != {};
    ActionIsAsked(pvs[p], f.catalog);
    MarkedAsks(pvs[p], n, attached, f);
    BoundIsLocal(pvs[p], n, f);
    hide ExplicitAction, Asks, Silent, BoundTo, Marked, HasLocalOnlyAccessPolicy, IsAttachableOnOtherNode;
  }

  /** A call of step 1 for the volume fails: a mark or an override to write, a deletion, or that of a claim. */
  ghost predicate CallFails(pv: Pv, p: string, n: string, f: Facts, r: Refusals) {
    || (p in r.updates && (WaitKey(n) !in pv.notes || (OverrideKey(n) !in pv.notes && WantsOverride(pv, n, f))))
    || (p in r.deletions && !pv.deleting && Asks(pv, f.catalog, "Delete"))
    || (p in r.claims && Asks(pv, f.catalog, "Delete"))
  }

  lemma PrepareFailsIff(pvs: Pvs, p: string, n: string, f: Facts, r: Refusals)
    requires p in pvs
    ensures PrepareFails(pvs, p, n, f, r) <==> CallFails(pvs[p], p, n, f, r)
  {
    var pv, attached := pvs[p], AttachedTo(f.attachments, p) != {};
    var after := Prepared(pv, n, attached, f);
    StepOneDoes(pv, n, attached, f);
    ActionIsAsked(pv, f.catalog);
    MarkedAsks(pv, n, attached, f);
    assert ActionFor(Marked(pv, n, attached), n, f) == Delete <==> Asks(pv, f.catalog, "Delete");
    hide ExplicitAction, Asks, Silent, BoundTo, Marked, Prepared, ActionFor, WantsOverride;
    if WaitKey(n) in pv.notes && !(OverrideKey(n) !in pv.notes && WantsOverride(pv, n, f)) {
      forall k ensures Lookup(after.notes, k) == Lookup(pv.notes, k) {}
      SameNotes(after.notes, pv.notes);
    }
  }

  /** The outcome of a preparation pass: it fails exactly if a call that is due for a volume on the node fails,
      and otherwise is pending exactly if a volume holds it up, also one whose override says something else. */
  lemma StepOneEnds(pvs: Pvs, targets: set<string>, n: string, f: Facts, r: Refusals)
    requires targets <= pvs.Keys
    ensures var result := PrepareResult(pvs, targets, n, f, r);
            && (result == Failed <==> exists p :: p in targets && CallFails(pvs[p], p, n, f, r))
            && (result == Done <==> forall p :: p in targets ==>
                  !CallFails(pvs[p], p, n, f, r) && !HoldsUpStepOne(pvs[p], n, f))
  {
    hide PrepareFails, CallFails, NeedsOverride, HoldsUpStepOne;
    forall p | p in targets
      ensures PrepareFails(pvs, p, n, f, r) <==> CallFails(pvs[p], p, n, f, r)
      ensures NeedsOverride(pvs, p, n, f) <==> HoldsUpStepOne(pvs[p], n, f)
    {
      PrepareFailsIff(pvs, p, n, f, r);
      NeedsOverrideIff(pvs, p, n, f);
    }
  }

  /** The pass writes to the volumes on the node, each as far as it is not refused, and to no others. */
  lemma StepOneWrites(pvs: Pvs, targets: set<string>, n: string, f: Facts, r: Refusals, p: string)
    requires p in pvs
    ensures var after := PreparedAll(pvs, targets, n, f, r); var full := Prepared(pvs[p], n, Attached(f, p), f);
            && after.Keys == pvs.Keys
            && after[p].notes == (if p in targets && p !in r.updates then full.notes else pvs[p].notes)
            && after[p].deleting == (if p in targets && p !in r.deletions then full.deleting else pvs[p].deleting)
            && after[p].csi == pvs[p].csi && after[p].affinity == pvs[p].affinity
  {
    hide Prepared;
    if Attached(f, p) {
      var i :| 0 <= i < |f.attachments| && f.attachments[i].pv == Some(p);
      assert f.attachments[i].node in AttachedTo(f.attachments, p);
    } else {
      assert AttachedTo(f.attachments, p) == {};
    }
  }

  ghost predicate Attached(f: Facts, p: string) {
    exists i :: 0 <= i < |f.attachments| && f.attachments[i].pv == Some(p)
  }

  /** A volume is on the node exactly if a resource there has its handle and it is the last listed volume of
      the driver with that handle. */
  lemma TargetsAre(resources: seq<string>, order: seq<string>, pvs: Pvs, p: string)
    requires forall q :: q in order ==> q in pvs
    ensures p in Targets(resources, ByResource(order, pvs))
       <==> exists i, h :: 0 <= i < |order| && order[i] == p && h in resources && LastServing(order, pvs, h, i)
  {
    var pvOf := ByResource(order, pvs);
    hide ByResource, LastServing;
    if p in Targets(resources, pvOf) {
      var h :| h in resources && h in pvOf && pvOf[h] == p;
      ByResourceIsLast(order, pvs, h);
      var i :| LastServing(order, pvs, h, i) && pvOf[h] == order[i];
      LastServingOnce(order, pvs, h, i);
    }
    if i, h :| 0 <= i < |order| && order[i] == p && h in resources && LastServing(order, pvs, h, i) {
      ByResourceIsLast(order, pvs, h);
      LastServingOnce(order, pvs, h, i);
    }
  }

  lemma LastServingOnce(order: seq<string>, pvs: Pvs, h: string, i: int)
    requires forall q :: q in order ==> q in pvs
    requires LastServing(order, pvs, h, i)
    ensures 0 <= i < |order| && Serves(pvs[order[i]], h)
    ensures forall j :: LastServing(order, pvs, h, j) ==> j == i
  {
    hide Serves;
  }

  // ---- The clock of a blocked volume ----

  /** One call of step 4 as one volume meets it; its write may not happen. */
  datatype Call = Call(now: int, at: set<string>, lost: bool)

  ghost function After(pv: Pv, n: string, s: Strategy, c: Call): Pv {
    if c.lost then pv else Reattached(pv, n, c.now, s, c.at)
  }

  ghost predicate SameMarks(a: Pv, b: Pv, n: string) {
    && Lookup(a.notes, WaitKey(n)) == Lookup(b.notes, WaitKey(n))
    && Lookup(a.notes, SinceKey(n)) == Lookup(b.notes, SinceKey(n))
  }

  /** The volume as each call finds it: between calls everything may change but its two marks. */
  ghost predicate History(pvs: seq<Pv>, calls: seq<Call>, n: string, s: Strategy) {
    && |pvs| == |calls|
    && forall i :: 0 < i < |pvs| ==> SameMarks(After(pvs[i - 1], n, s, calls[i - 1]), pvs[i], n)
  }

  /** The volume is never seen attached to other nodes only. */
  ghost predicate NeverElsewhere(calls: seq<Call>, n: string) {
    forall i :: 0 <= i < |calls| ==> calls[i].at == {} || n in calls[i].at
  }

  /** A stamp, once there, stays as it is, and so does the kind of wait. */
  lemma {:induction false} StampNeverMoves(pvs: seq<Pv>, calls: seq<Call>, n: string, s: Strategy, i: nat, j: nat)
    requires History(pvs, calls, n, s) && NeverElsewhere(calls, n)
    requires i <= j < |pvs| && SinceKey(n) in pvs[i].notes
    ensures SameMarks(pvs[i], pvs[j], n)
    decreases j
  {
    if i < j {
      StampNeverMoves(pvs, calls, n, s, i, j - 1);
      assert SameMarks(After(pvs[j - 1], n, s, calls[j - 1]), pvs[j], n);
    }
  }

  /** From its stamp on, a volume blocks exactly the calls before stamp plus timeout: never again after. */
  lemma BlocksUntilTimeout(pvs: seq<Pv>, calls: seq<Call>, n: string, s: Strategy, i: nat, j: nat)
    requires History(pvs, calls, n, s) && NeverElsewhere(calls, n)
    requires i <= j < |pvs| && SinceKey(n) in pvs[i].notes && pvs[i].notes[SinceKey(n)].Instant?
    requires Timeout(pvs[i], n, s).Some?
    ensures Judge(pvs[j], n, calls[j].now, s, calls[j].at) == Blocked
       <==> calls[j].now < pvs[i].notes[SinceKey(n)].at + Timeout(pvs[i], n, s).value
  {
    StampNeverMoves(pvs, calls, n, s, i, j);
  }

  /** A volume without a stamp blocks exactly when its timeout is positive, and then gets the second of
      that call as its stamp; so a timeout of 0 never blocks. */
  lemma FirstCallStamps(pv: Pv, n: string, s: Strategy, c: Call)
    requires SinceKey(n) !in pv.notes && Timeout(pv, n, s).Some? && !c.lost && (c.at == {} || n in c.at)
    ensures Judge(pv, n, c.now, s, c.at) == Blocked <==> Timeout(pv, n, s).value > 0
    ensures Timeout(pv, n, s).value > 0 ==>
              && Lookup(After(pv, n, s, c).notes, SinceKey(n)) == Some(Instant(ToSecond(c.now)))
              && c.now - SECOND < ToSecond(c.now) <= c.now
    ensures Timeout(pv, n, s).value <= 0 ==> After(pv, n, s, c) == pv
  {
  }

  /** A first call that finds a volume blocked bounds the wait: no call a full timeout later is blocked. */
  lemma WaitIsBounded(pvs: seq<Pv>, calls: seq<Call>, n: string, s: Strategy, j: nat)
    requires History(pvs, calls, n, s) && NeverElsewhere(calls, n)
    requires 0 < j < |pvs| && !calls[0].lost && SinceKey(n) !in pvs[0].notes && Timeout(pvs[0], n, s).Some?
    requires calls[j].now >= calls[0].now + Timeout(pvs[0], n, s).value
    ensures Judge(pvs[j], n, calls[j].now, s, calls[j].at) != Blocked
  {
    FirstCallStamps(pvs[0], n, s, calls[0]);
    assert SameMarks(After(pvs[0], n, s, calls[0]), pvs[1], n);
    if Timeout(pvs[0], n, s).value > 0 {
      assert Lookup(pvs[1].notes, SinceKey(n)) == Some(Instant(ToSecond(calls[0].now)));
      assert Timeout(pvs[1], n, s) == Timeout(pvs[0], n, s);
      BlocksUntilTimeout(pvs, calls, n, s, 1, j);
    } else {
      UnstampedStays(pvs, calls, n, s, j);
    }
  }

  lemma {:induction false} UnstampedStays(pvs: seq<Pv>, calls: seq<Call>, n: string, s: Strategy, j: nat)
    requires History(pvs, calls, n, s) && j < |pvs|
    requires SinceKey(n) !in pvs[0].notes && Timeout(pvs[0], n, s).Some? && Timeout(pvs[0], n, s).value <= 0
    ensures SameMarks(pvs[0], pvs[j], n)
    ensures Judge(pvs[j], n, calls[j].now, s, calls[j].at) == Idle
  {
    if j > 0 {
      UnstampedStays(pvs, calls, n, s, j - 1);
      assert SameMarks(After(pvs[j - 1], n, s, calls[j - 1]), pvs[j], n);
    }
  }

  // ---- Whole passes ----

  /** One pass as one volume meets it. Step 1 marks the volume if its resource is on the node and nothing
      fails (`met`), by whether it is attached then; step 4 may judge it and write what follows, or not get
      that far (`lost`); step 7 may clean it up. */
  datatype Pass = Pass(
    met: bool, attached: bool, f: Facts, now: int, s: Strategy, at: set<string>, lost: bool, cleaned: bool)

  ghost function Met(pv: Pv, n: string, c: Pass): Pv {
    if c.met then Prepared(pv, n, c.attached, c.f) else pv
  }

  ghost function AfterPass(pv: Pv, n: string, c: Pass): Pv {
    var judged := After(Met(pv, n, c), n, c.s, Call(c.now, c.at, c.lost));
    if c.cleaned then Cleaned(judged, n) else judged
  }

  /** Step 4's verdict in this pass. */
  ghost function Verdict(pv: Pv, n: string, c: Pass): Wait {
    Judge(Met(pv, n, c), n, c.now, c.s, c.at)
  }

  /** A volume without marks, as each pass finds it: between passes everything may change but its two marks. */
  ghost predicate PassHistory(pvs: seq<Pv>, passes: seq<Pass>, n: string) {
    && |pvs| == |passes|
    && (|pvs| > 0 ==> HasMarks(pvs[0], n, None, None))
    && forall i :: 0 < i < |pvs| ==> SameMarks(AfterPass(pvs[i - 1], n, passes[i - 1]), pvs[i], n)
  }

  ghost predicate HasMarks(pv: Pv, n: string, attached: Option<bool>, since: Option<int>) {
    && Lookup(pv.notes, WaitKey(n))
        == (match attached case None => None case Some(a) => Some(Text(if a then "true" else "false")))
    && Lookup(pv.notes, SinceKey(n)) == (match since case None => None case Some(t) => Some(Instant(t)))
  }

  /** The wait a pass is part of: the pass that began it by marking the volume, if there is one, and the
      first one since, but before this one, that was blocked and could say so. */
  datatype Spell = Spell(start: Option<nat>, first: Option<nat>)

  function Limit(attached: bool, s: Strategy): int {
    if attached then s.attachedTimeout else s.unattachedTimeout
  }

  predicate AttachedElsewhere(at: set<string>, n: string) {
    at != {} && n !in at
  }

  /** The time of the wait is not over; without a stamp it starts now. */
  predicate InTime(now: int, limit: int, since: Option<int>) {
    now - since.GetOr(now) < limit
  }

  predicate Within(r: Spell, count: nat) {
    && (r.start.Some? ==> r.start.value < count)
    && (r.first.Some? ==> r.start.Some? && r.start.value <= r.first.value < count)
  }

  /** The wait as pass i finds it. */
  function SpellBefore(passes: seq<Pass>, n: string, i: nat): (r: Spell)
    requires i <= |passes|
    ensures Within(r, i)
    decreases i, 0
  {
    if i == 0 then Spell(None, None)
    else
      var r := SpellAt(passes, n, i - 1);
      if Ends(passes, n, i - 1, r) then Spell(None, None)
      else if r.first.None? && Waits(passes, i - 1, r) && !passes[i - 1].lost then Spell(r.start, Some(i - 1))
      else r
  }

  /** The wait that pass i is part of: step 1 may begin one. */
  function SpellAt(passes: seq<Pass>, n: string, i: nat): (r: Spell)
    requires i < |passes|
    ensures Within(r, i + 1)
    ensures r.first.Some? ==> r.first.value < i
    decreases i, 1
  {
    var r := SpellBefore(passes, n, i);
    if r.start.None? && passes[i].met then Spell(Some(i), None) else r
  }

  /** The second of the first blocked pass of the wait. */
  function Since(passes: seq<Pass>, r: Spell): Option<int>
    requires Within(r, |passes|)
  {
    if r.first.None? then None else Some(ToSecond(passes[r.first.value].now))
  }

  /** The volume is waited for in pass i. */
  predicate Waits(passes: seq<Pass>, i: nat, r: Spell)
    requires i < |passes| && Within(r, |passes|)
  {
    r.start.Some? && InTime(passes[i].now, Limit(passes[r.start.value].attached, passes[i].s), Since(passes, r))
  }

  /** The pass ends the wait: it cleans up, or it lets the volume go because it is in use on another node
      before its time was over. */
  predicate Ends(passes: seq<Pass>, n: string, i: nat, r: Spell)
    requires i < |passes| && Within(r, |passes|)
  {
    passes[i].cleaned || (Waits(passes, i, r) && AttachedElsewhere(passes[i].at, n) && !passes[i].lost)
  }

  predicate EndedAt(passes: seq<Pass>, n: string, j: nat)
    requires j < |passes|
  {
    Ends(passes, n, j, SpellAt(passes, n, j))
  }

  /** From the end of a wait, or the beginning, to pass i no pass meets the volume. */
  ghost predicate NotMetSince(passes: seq<Pass>, n: string, k: nat, i: nat)
    requires k <= i <= |passes|
  {
    (k == 0 || EndedAt(passes, n, k - 1)) && forall j: nat :: k <= j < i ==> !passes[j].met
  }

  ghost predicate Unwaited(passes: seq<Pass>, n: string, i: nat)
    requires i <= |passes|
  {
    exists k: nat :: k <= i && NotMetSince(passes, n, k, i)
  }

  lemma {:induction false} NoSpellMeaning(passes: seq<Pass>, n: string, i: nat)
    requires i <= |passes| && SpellBefore(passes, n, i).start.None?
    ensures Unwaited(passes, n, i)
  {
    hide Ends, Waits;
    if i == 0 || EndedAt(passes, n, i - 1) {
      assert NotMetSince(passes, n, i, i);
    } else {
      NoSpellMeaning(passes, n, i - 1);
      var k: nat :| k <= i - 1 && NotMetSince(passes, n, k, i - 1);
      assert NotMetSince(passes, n, k, i);
    }
  }

  /** A wait begins with the first pass that meets the volume after the one that ended the wait before, it
      lasts until a pass ends it, and its clock starts with its first pass that was blocked and could say so. */
  lemma {:induction false} SpellMeaning(passes: seq<Pass>, n: string, i: nat)
    requires i < |passes|
    ensures var r := SpellAt(passes, n, i);
            match r.start
            case None => Unwaited(passes, n, i) && !passes[i].met
            case Some(start) =>
              && Unwaited(passes, n, start) && passes[start].met
              && (forall j: nat :: start <= j < i ==> !EndedAt(passes, n, j))
              && (forall j: nat :: start <= j < i && (r.first.Some? ==> j < r.first.value) ==>
                    passes[j].lost || !Waits(passes, j, Spell(r.start, None)))
              && (r.first.Some? ==> !passes[r.first.value].lost && Waits(passes, r.first.value, Spell(r.start, None)))
  {
    hide Ends, Waits, Unwaited;
    if SpellBefore(passes, n, i).start.None? {
      NoSpellMeaning(passes, n, i);
    } else {
      SpellMeaning(passes, n, i - 1);
    }
  }

  /** The marks of a volume at the beginning of pass i. */
  ghost predicate MarksAt(pv: Pv, passes: seq<Pass>, n: string, i: nat)
    requires i <= |passes|
  {
    MarkedAs(pv, passes, n, SpellBefore(passes, n, i))
  }

  ghost predicate MarkedAs(pv: Pv, passes: seq<Pass>, n: string, r: Spell)
    requires Within(r, |passes|)
  {
    HasMarks(pv, n, if r.start.None? then None else Some(passes[r.start.value].attached), Since(passes, r))
  }

  /** Step 1 marks a volume once, by whether it was attached then, and leaves the marks alone afterwards. */
  lemma MarkedOnce(pv: Pv, n: string, c: Pass, attached: Option<bool>, since: Option<int>)
    requires HasMarks(pv, n, attached, since)
    ensures HasMarks(Met(pv, n, c), n, if attached.None? && c.met then Some(c.attached) else attached, since)
  {
  }

  lemma JudgedByMarks(pv: Pv, n: string, now: int, s: Strategy, at: set<string>, attached: Option<bool>,
      since: Option<int>)
    requires HasMarks(pv, n, attached, since)
    ensures Judge(pv, n, now, s, at) ==
              if attached.None? || !InTime(now, Limit(attached.value, s), since) then Idle
              else if AttachedElsewhere(at, n) then Released else Blocked
    ensures var after := Reattached(pv, n, now, s, at);
            match Judge(pv, n, now, s, at)
            case Released => HasMarks(after, n, None, None)
            case Blocked => HasMarks(after, n, attached, Some(since.GetOr(ToSecond(now))))
            case _ => after == pv
  {
  }

  lemma CleanedMarks(pv: Pv, n: string)
    ensures HasMarks(Cleaned(pv, n), n, None, None)
  {
  }

  lemma SpellNext(passes: seq<Pass>, n: string, i: nat)
    requires i < |passes|
    ensures var r := SpellAt(passes, n, i);
            SpellBefore(passes, n, i + 1) ==
              if Ends(passes, n, i, r) then Spell(None, None)
              else if r.first.None? && Waits(passes, i, r) && !passes[i].lost then Spell(r.start, Some(i))
              else r
  {
  }

  lemma MetAs(pv: Pv, passes: seq<Pass>, n: string, i: nat)
    requires i < |passes| && MarksAt(pv, passes, n, i)
    ensures MarkedAs(Met(pv, n, passes[i]), passes, n, SpellAt(passes, n, i))
  {
    var r := SpellBefore(passes, n, i);
    var attached := if r.start.None? then None else Some(passes[r.start.value].attached);
    MarkedOnce(pv, n, passes[i], attached, Since(passes, r));
    hide HasMarks, Met;
  }

  /** How the marks decide a pass, and what they are after it. */
  lemma PassJudged(pv: Pv, passes: seq<Pass>, n: string, i: nat)
    requires i < |passes| && MarksAt(pv, passes, n, i)
    ensures Verdict(pv, n, passes[i]) ==
              if !Waits(passes, i, SpellAt(passes, n, i)) then Idle
              else if AttachedElsewhere(passes[i].at, n) then Released else Blocked
    ensures MarksAt(AfterPass(pv, n, passes[i]), passes, n, i + 1)
  {
    var c := passes[i];
    MetAs(pv, passes, n, i);
    hide Judge, Met, Reattached, SpellBefore, SpellAt, HasMarks, Cleaned;
    var r := SpellAt(passes, n, i);
    var attached := if r.start.None? then None else Some(passes[r.start.value].attached);
    var met := Met(pv, n, c);
    JudgedByMarks(met, n, c.now, c.s, c.at, attached, Since(passes, r));
    CleanedMarks(After(met, n, c.s, Call(c.now, c.at, c.lost)), n);
    SpellNext(passes, n, i);
  }

  lemma MarksFollow(a: Pv, b: Pv, passes: seq<Pass>, n: string, i: nat)
    requires i <= |passes| && MarksAt(a, passes, n, i) && SameMarks(a, b, n)
    ensures MarksAt(b, passes, n, i)
  {
    hide SpellBefore, Since;
  }

  lemma {:induction false} MarksTellTheWait(pvs: seq<Pv>, passes: seq<Pass>, n: string, i: nat)
    requires PassHistory(pvs, passes, n) && i < |passes|
    ensures MarksAt(pvs[i], passes, n, i)
  {
    hide AfterPass, SameMarks, HasMarks;
    if i > 0 {
      hide MarksAt;
      MarksTellTheWait(pvs, passes, n, i - 1);
      PassJudged(pvs[i - 1], passes, n, i - 1);
      MarksFollow(AfterPass(pvs[i - 1], n, passes[i - 1]), pvs[i], passes, n, i);
    }
  }

  /** Over any series of passes, a volume blocks one exactly if it is waited for and not attached elsewhere,
      and is let go exactly if it is waited for and attached elsewhere. It is waited for while the timeout
      since the second of the wait's first blocked pass is not over; the timeout is the one for attached
      volumes exactly if the pass that began the wait found it attached. */
  lemma WaitLaw(pvs: seq<Pv>, passes: seq<Pass>, n: string, i: nat)
    requires PassHistory(pvs, passes, n) && i < |passes|
    ensures var waits := Waits(passes, i, SpellAt(passes, n, i)); var verdict := Verdict(pvs[i], n, passes[i]);
            && (verdict == Blocked <==> waits && !AttachedElsewhere(passes[i].at, n))
            && (verdict == Released <==> waits && AttachedElsewhere(passes[i].at, n))
            && verdict != Broken
  {
    hide Verdict, SpellAt, Waits, MarksAt;
    MarksTellTheWait(pvs, passes, n, i);
    PassJudged(pvs[i], passes, n, i);
  }

  /** A volume that is let go does not stay free: if it is then found detached while its resource is still
      on the node, it blocks again, however long ago the first wait was over. */
  lemma WaitStartsAgain(pvs: seq<Pv>, passes: seq<Pass>, n: string)
    requires PassHistory(pvs, passes, n) && |passes| == 3
    requires forall i :: 0 <= i < 3 ==>
               var c := passes[i]; c.met && !c.lost && !c.cleaned && c.s == Strategy(10 * SECOND, 10 * SECOND)
    requires passes[0].now == 0 && passes[1].now == SECOND && passes[2].now > 100 * SECOND
    requires passes[0].at == {} && AttachedElsewhere(passes[1].at, n) && passes[2].at == {}
    ensures Verdict(pvs[0], n, passes[0]) == Blocked
    ensures Verdict(pvs[1], n, passes[1]) == Released
    ensures Verdict(pvs[2], n, passes[2]) == Blocked
  {
    hide Verdict, PassHistory;
    WaitLaw(pvs, passes, n, 0);
    WaitLaw(pvs, passes, n, 1);
    WaitLaw(pvs, passes, n, 2);
    assert SpellAt(passes, n, 0) == Spell(Some(0), None);
    assert SpellAt(passes, n, 1) == Spell(Some(0), Some(0));
    assert SpellAt(passes, n, 2) == Spell(Some(2), None);
  }

  /** Once its resource has left the node, a volume that is let go stays free. */
  lemma FreeOnceGone(pvs: seq<Pv>, passes: seq<Pass>, n: string, k: nat, i: nat)
    requires PassHistory(pvs, passes, n) && k < i < |passes|
    requires EndedAt(passes, n, k) && forall j: nat :: k < j <= i ==> !passes[j].met
    ensures Verdict(pvs[i], n, passes[i]) == Idle
  {
    hide Verdict, PassHistory;
    WaitLaw(pvs, passes, n, i);
    StaysFree(passes, n, k, i);
  }

  lemma {:induction false} StaysFree(passes: seq<Pass>, n: string, k: nat, i: nat)
    requires k < i < |passes|
    requires EndedAt(passes, n, k) && forall j: nat :: k < j <= i ==> !passes[j].met
    ensures SpellAt(passes, n, i).start.None?
  {
    hide Waits;
    if k + 1 < i {
      StaysFree(passes, n, k, i - 1);
    }
  }

  // ---- Evacuations of different nodes ----

  /** A write to one volume by the evacuation of some node; step 1 may only delete or only update it. */
  datatype Write =
    | Prepare(attached: bool, f: Facts, updated: bool, deleted: bool)
    | Reattach(now: int, s: Strategy, at: set<string>)
    | Clean

  ghost function Do(w: Write, n: string, pv: Pv): Pv {
    match w
    case Prepare(attached, f, updated, deleted) => Wrote(pv, n, attached, f, updated, deleted)
    case Reattach(now, s, at) => Reattached(pv, n, now, s, at)
    case Clean => Cleaned(pv, n)
  }

  ghost predicate Owns(n: string, k: Key) {
    k == WaitKey(n) || k == SinceKey(n) || k == OverrideKey(n)
  }

  /** A write touches the keys of its node only. */
  lemma DoFrame(w: Write, n: string, pv: Pv, k: Key)
    requires !Owns(n, k)
    ensures Lookup(Do(w, n, pv).notes, k) == Lookup(pv.notes, k)
    ensures Do(w, n, pv).csi == pv.csi && Do(w, n, pv).affinity == pv.affinity
    ensures pv.deleting ==> Do(w, n, pv).deleting
  {
  }

  ghost predicate SameOwned(a: Notes, b: Notes, n: string) {
    && Lookup(a, WaitKey(n)) == Lookup(b, WaitKey(n))
    && Lookup(a, SinceKey(n)) == Lookup(b, SinceKey(n))
    && Lookup(a, OverrideKey(n)) == Lookup(b, OverrideKey(n))
  }

  ghost predicate Alike(a: Pv, b: Pv, n: string) {
    a.csi == b.csi && a.affinity == b.affinity && Lookup(a.notes, ActionKey) == Lookup(b.notes, ActionKey)
    && SameOwned(a.notes, b.notes, n)
  }

  lemma ActionLocal(f: Facts, n: string, a: Pv, b: Pv)
    requires Alike(a, b, n)
    ensures ActionFor(a, n, f) == ActionFor(b, n, f)
    ensures ExplicitAction(a, f.catalog) == ExplicitAction(b, f.catalog)
    ensures ActionFor(a, n, f) == Delete <==> ExplicitAction(a, f.catalog) == Some(Delete)
  {
    assert ExplicitAction(a, f.catalog) == ExplicitAction(b, f.catalog);
    hide ExplicitAction;
  }

  lemma MarkedAlike(attached: bool, n: string, a: Pv, b: Pv)
    requires Alike(a, b, n)
    ensures Alike(Marked(a, n, attached), Marked(b, n, attached), n)
    ensures Alike(Marked(a, n, attached), Marked(a, n, attached), n)
  {
  }

  lemma PrepareLocal(attached: bool, f: Facts, n: string, a: Pv, b: Pv)
    requires Alike(a, b, n)
    ensures SameOwned(Prepared(a, n, attached, f).notes, Prepared(b, n, attached, f).notes, n)
    ensures Prepared(a, n, attached, f).deleting == (a.deleting || ExplicitAction(b, f.catalog) == Some(Delete))
  {
    hide ExplicitAction, ActionFor;
    MarkedAlike(attached, n, a, b);
    ActionLocal(f, n, Marked(a, n, attached), Marked(b, n, attached));
    MarkedAsks(b, n, attached, f);
  }

  lemma ReattachLocal(now: int, s: Strategy, at: set<string>, n: string, a: Pv, b: Pv)
    requires Alike(a, b, n)
    ensures SameOwned(Reattached(a, n, now, s, at).notes, Reattached(b, n, now, s, at).notes, n)
  {
    assert Judge(a, n, now, s, at) == Judge(b, n, now, s, at);
  }

  /** Whether a write asks for the deletion of the volume. */
  ghost predicate Deletes(w: Write, pv: Pv) {
    w.Prepare? && w.deleted && ExplicitAction(pv, w.f.catalog) == Some(Delete)
  }

  /** A write depends on the keys of its node only, beside what evacuations never change. */
  lemma DoLocal(w: Write, n: string, a: Pv, b: Pv)
    requires Alike(a, b, n)
    ensures SameOwned(Do(w, n, a).notes, Do(w, n, b).notes, n)
    ensures Do(w, n, a).deleting == (a.deleting || Deletes(w, b))
  {
    match w {
      case Prepare(attached, f, updated, deleted) => PrepareLocal(attached, f, n, a, b);
      case Reattach(now, s, at) => ReattachLocal(now, s, at, n, a, b);
      case Clean =>
    }
  }

  lemma DoKeepsOthers(v: Write, m: string, n: string, pv: Pv)
    requires m != n
    ensures Alike(Do(v, m, pv), pv, n)
  {
    DoFrame(v, m, pv, ActionKey);
    DoFrame(v, m, pv, WaitKey(n));
    DoFrame(v, m, pv, SinceKey(n));
    DoFrame(v, m, pv, OverrideKey(n));
  }

  /** Writes of two evacuations commute. */
  lemma WritesCommute(v: Write, m: string, w: Write, n: string, pv: Pv)
    requires m != n
    ensures Do(w, n, Do(v, m, pv)) == Do(v, m, Do(w, n, pv))
  {
    var a, b := Do(v, m, pv), Do(w, n, pv);
    DoKeepsOthers(v, m, n, pv);
    DoKeepsOthers(w, n, m, pv);
    DoLocal(w, n, a, pv);
    DoLocal(v, m, b, pv);
    DoLocal(w, n, pv, pv);
    DoLocal(v, m, pv, pv);
    forall k
      ensures Lookup(Do(w, n, a).notes, k) == Lookup(Do(v, m, b).notes, k)
    {
      if !Owns(n, k) { DoFrame(w, n, a, k); DoFrame(w, n, pv, k); }
      if !Owns(m, k) { DoFrame(v, m, b, k); DoFrame(v, m, pv, k); }
    }
    SameNotes(Do(w, n, a).notes, Do(v, m, b).notes);
    DoFrame(w, n, a, ActionKey);
    DoFrame(v, m, b, ActionKey);
  }

  lemma SameNotes(a: Notes, b: Notes)
    requires forall k :: Lookup(a, k) == Lookup(b, k)
    ensures a == b
  {
    forall k ensures k in a <==> k in b { assert Lookup(a, k) == Lookup(b, k); }
    forall k | k in a ensures a[k] == b[k] { assert Lookup(a, k) == Lookup(b, k); }
  }

  /** The writes of any number of evacuations, in order. */
  ghost function DoAll(ws: seq<(Write, string)>, pv: Pv): Pv {
    if ws == [] then pv else Do(ws[|ws| - 1].0, ws[|ws| - 1].1, DoAll(ws[..|ws| - 1], pv))
  }

  /** No number of writes changes an annotation that belongs to none of their nodes. */
  lemma {:induction false} OthersUntouched(ws: seq<(Write, string)>, pv: Pv, k: Key)
    requires forall i :: 0 <= i < |ws| ==> !Owns(ws[i].1, k)
    ensures Lookup(DoAll(ws, pv).notes, k) == Lookup(pv.notes, k)
  {
    if ws != [] {
      OthersUntouched(ws[..|ws| - 1], pv, k);
      DoFrame(ws[|ws| - 1].0, ws[|ws| - 1].1, DoAll(ws[..|ws| - 1], pv), k);
    }
  }
}
