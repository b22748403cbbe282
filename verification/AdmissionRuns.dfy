/** What the admission order guarantees on one snapshot and over whole runs of reconciles. */
module AdmissionRuns {
  import opened Wrappers
  import opened Ordering
  import opened Clock
  import opened Admission

  // ---- One snapshot ----

  /** The candidates named in `s`, in the order of admission. */
  ghost function Line(b: Board, s: set<string>): (q: seq<Candidate>)
    ensures Ordered(q)
    ensures Names(q) == s
    ensures forall c :: c in q ==> c == AsCandidate(b, c.name, 0)
    ensures |q| == |s|
    decreases |s|
  {
    if s == {} then []
    else
      var n :| n in s;
      var rest := Line(b, s - {n});
      var q := InsertCandidate(AsCandidate(b, n, 0), rest);
      assert Names(q) == s by {
        forall m ensures m in Names(q) <==> m in s {
          if m in s - {n} {
            var i :| 0 <= i < |rest| && rest[i].name == m;
            assert rest[i] in q;
          }
          if m == n { assert AsCandidate(b, n, 0) in q; }
          if m in Names(q) {
            var i :| 0 <= i < |q| && q[i].name == m;
            assert q[i] in q && (q[i] in rest ==> m in Names(rest));
          }
        }
      }
      q
  }

  lemma PositionIgnoresClock(b: Board, n: string, now: int, later: int)
    requires n in b
    ensures Position(b, n, now) == Position(b, n, later)
  {
    assert Ahead(b, n, now) == Ahead(b, n, later);
  }

  lemma LineIndex(b: Board, q: seq<Candidate>, i: nat, now: int)
    requires q == Line(b, Competitors(b)) && i < |q|
    ensures q[i].name in Competitors(b)
    ensures Position(b, q[i].name, now) == i
  {
    assert q[i] in q && q[i].name in Names(q);
    IndexIsPosition(q, b, i, 0);
    PositionIgnoresClock(b, q[i].name, 0, now);
  }

  ghost predicate Taken(b: Board, now: map<string, int>, i: nat)
    requires Competitors(b) <= now.Keys
  {
    exists n :: n in Competitors(b) && Position(b, n, now[n]) == i
  }

  /** Positions found by separate calls number the competitors from 0 without gaps or repetition. */
  lemma PositionsAreABijection(b: Board, now: map<string, int>)
    requires Competitors(b) <= now.Keys
    ensures forall n :: n in Competitors(b) ==> Position(b, n, now[n]) < |Competitors(b)|
    ensures forall m, n :: m in Competitors(b) && n in Competitors(b) && m != n ==>
              Position(b, m, now[m]) != Position(b, n, now[n])
    ensures forall i: nat :: i < |Competitors(b)| ==> Taken(b, now, i)
  {
    var q := Line(b, Competitors(b));
    forall i | 0 <= i < |q|
      ensures q[i].name in Competitors(b) && Position(b, q[i].name, now[q[i].name]) == i
    {
      LineIndex(b, q, i, 0);
      PositionIgnoresClock(b, q[i].name, 0, now[q[i].name]);
    }
    forall n | n in Competitors(b)
      ensures exists i :: 0 <= i < |q| && q[i].name == n && Position(b, n, now[n]) == i
    {
      assert n in Names(q);
    }
    forall i: nat | i < |q|
      ensures Taken(b, now, i)
    {
      assert q[i].name in Competitors(b) && Position(b, q[i].name, now[q[i].name]) == i;
    }
  }

  lemma LineHead(b: Board, q: seq<Candidate>, count: nat, n: string)
    requires q == Line(b, Competitors(b)) && count <= |q|
    ensures n in Names(q[..count]) <==> n in Competitors(b) && Position(b, n, 0) < count
  {
    if n in Names(q[..count]) {
      var i :| 0 <= i < count && q[..count][i].name == n;
      LineIndex(b, q, i, 0);
    }
    if n in Competitors(b) {
      assert n in Names(q);
      var i :| 0 <= i < |q| && q[i].name == n;
      LineIndex(b, q, i, 0);
      if i < count { assert q[..count][i].name == n; }
    }
  }

  /** Of the competitors, exactly as many are admitted as the limit allows. */
  lemma ExactlyTheLimit(b: Board, limit: int, now: int)
    requires limit > 0
    ensures var admitted := set n | n in Competitors(b) && Admitted(b, limit, n, now);
            |admitted| == if limit < |Competitors(b)| then limit else |Competitors(b)|
  {
    var q := Line(b, Competitors(b));
    var count := if limit < |q| then limit else |q|;
    var admitted := set n | n in Competitors(b) && Admitted(b, limit, n, now);
    forall n ensures n in admitted <==> n in Names(q[..count]) {
      LineHead(b, q, count, n);
      LineHead(b, q, |q|, n);
      assert q[..|q|] == q;
      if n in Competitors(b) { PositionIgnoresClock(b, n, 0, now); }
    }
    assert admitted == Names(q[..count]);
    OrderedOneEach(q, b, 0);
    NamesSize(q[..count]);
  }

  // ---- The bound ----

  ghost function Active(b: Board): set<string> {
    set n | n in b && b[n].reason == InProgress
  }

  lemma ActiveAhead(b: Board, n: string, now: int)
    ensures n in Active(b) ==> Position(b, n, now) < |Active(b)|
    ensures n !in Active(b) ==> Position(b, n, now) >= |Active(b)|
  {
    if n in Active(b) {
      SubsetSize(Ahead(b, n, now), Active(b) - {n});
    } else {
      SubsetSize(Active(b), Ahead(b, n, now));
    }
  }

  /** Whoever is evacuating is admitted again, for everyone at once, exactly while the limit is kept. */
  lemma AllActiveAdmittedIffBounded(b: Board, limit: int, now: int)
    requires limit > 0
    ensures (forall n :: n in Active(b) ==> Admitted(b, limit, n, now)) <==> |Active(b)| <= limit
  {
    forall n | n in Active(b) ensures Position(b, n, now) < |Active(b)| { ActiveAhead(b, n, now); }
    if |Active(b)| > limit {
      var q := Line(b, Competitors(b));
      SubsetSize(Active(b), Competitors(b));
      LineIndex(b, q, limit, now);
      var n := q[limit].name;
      ActiveAhead(b, n, now);
      assert !Admitted(b, limit, n, now);
    }
  }

  // ---- Runs ----

  /** How the evacuation steps of an admitted satellite end. */
  datatype Outcome = Failed | Unfinished | Finished

  datatype Event =
    | Ask(sat: string, now: int, outcome: Outcome)  // a reconcile that wants to evacuate
    | ListFails(sat: string, now: int)              // it could not list the satellites
    | Vanish(sat: string)                           // the satellite object is gone

  /** The reason EvacuateSatellite records. */
  ghost function Verdict(b: Board, limit: int, n: string, now: int, outcome: Outcome): Reason {
    if !Admitted(b, limit, n, now) then Waiting
    else match outcome
      case Failed => Error
      case Unfinished => InProgress
      case Finished => Completed
  }

  ghost function Next(b: Board, limit: int, e: Event): Board {
    match e
    case Ask(n, now, outcome) => Record(b, n, Verdict(b, limit, n, now, outcome), now)
    case ListFails(n, now) => if limit > 0 then Record(b, n, Error, now) else b
    case Vanish(n) => b - {n}
  }

  ghost function Run(b: Board, limit: int, es: seq<Event>): Board {
    if es == [] then b else Next(Run(b, limit, es[..|es| - 1]), limit, es[|es| - 1])
  }

  lemma {:induction false} RunConcat(b: Board, limit: int, xs: seq<Event>, ys: seq<Event>)
    ensures Run(b, limit, xs + ys) == Run(Run(b, limit, xs), limit, ys)
  {
    if ys == [] {
      assert xs + ys == xs;
    } else {
      var all := xs + ys;
      assert all[..|all| - 1] == xs + ys[..|ys| - 1];
      RunConcat(b, limit, xs, ys[..|ys| - 1]);
    }
  }

  lemma StepKeepsBound(b: Board, limit: int, e: Event)
    requires limit > 0 && |Active(b)| <= limit
    ensures |Active(Next(b, limit, e))| <= limit
  {
    var after := Active(Next(b, limit, e));
    if e.Ask? && e.sat !in Active(b) && e.sat in after {
      ActiveAhead(b, e.sat, e.now);
      SubsetSize(after, Active(b) + {e.sat});
    } else {
      SubsetSize(after, Active(b));
    }
  }

  /** Every state a run reaches keeps the limit, and whoever is evacuating in it would be admitted
      again at any time: work that started is not preempted. */
  lemma {:induction false} RunsKeepTheLimit(b: Board, limit: int, es: seq<Event>)
    requires limit > 0 && |Active(b)| <= limit
    ensures |Active(Run(b, limit, es))| <= limit
    ensures forall n, now :: n in Active(Run(b, limit, es)) ==> Admitted(Run(b, limit, es), limit, n, now)
  {
    if es != [] {
      RunsKeepTheLimit(b, limit, es[..|es| - 1]);
      StepKeepsBound(Run(b, limit, es[..|es| - 1]), limit, es[|es| - 1]);
    }
    forall n, now | n in Active(Run(b, limit, es))
      ensures Admitted(Run(b, limit, es), limit, n, now)
    {
      ActiveAhead(Run(b, limit, es), n, now);
    }
  }

  /** While the limit is kept, a running evacuation loses its place in exactly these ways: it finishes, it
      fails, its list call fails, or its object goes away. */
  lemma SlotLostExactlyWhen(b: Board, limit: int, n: string, e: Event)
    requires limit > 0 && |Active(b)| <= limit && n in Active(b)
    ensures n !in Active(Next(b, limit, e))
       <==> e.sat == n && (e.Ask? ==> e.outcome != Unfinished)
  {
    if e.Ask? && e.sat == n {
      ActiveAhead(b, n, e.now);
    }
  }

  /** Nothing that happens frees the slot of a running evacuation. */
  ghost predicate NoneFreed(b: Board, limit: int, es: seq<Event>) {
    es == [] ||
    var before, e := Run(b, limit, es[..|es| - 1]), es[|es| - 1];
    NoneFreed(b, limit, es[..|es| - 1]) && !(e.sat in Active(before) && (e.Ask? ==> e.outcome != Unfinished))
  }

  lemma HeldStep(b: Board, limit: int, e: Event)
    requires limit > 0 && |Active(b)| == limit
    requires !(e.sat in Active(b) && (e.Ask? ==> e.outcome != Unfinished))
    ensures Active(Next(b, limit, e)) == Active(b)
  {
    if e.Ask? { ActiveAhead(b, e.sat, e.now); }
    hide Position;
    forall n ensures n in Active(Next(b, limit, e)) <==> n in Active(b) {}
  }

  /** A slot is freed by what happens to its holder alone: with all slots taken, and however often the
      others ask, nobody else is admitted until a holder finishes, fails or goes away. Holders that just
      stop asking keep everyone out for good. */
  lemma {:induction false} HeldSlotsBlock(b: Board, limit: int, es: seq<Event>)
    requires limit > 0 && |Active(b)| == limit && NoneFreed(b, limit, es)
    ensures Active(Run(b, limit, es)) == Active(b)
    ensures forall n, now :: Admitted(Run(b, limit, es), limit, n, now) <==> n in Active(b)
  {
    if es != [] {
      var before, e := Run(b, limit, es[..|es| - 1]), es[|es| - 1];
      HeldSlotsBlock(b, limit, es[..|es| - 1]);
      HeldStep(before, limit, e);
    }
    forall n, now ensures Admitted(Run(b, limit, es), limit, n, now) <==> n in Active(b) {
      ActiveAhead(Run(b, limit, es), n, now);
    }
  }

  /** Holders that are never heard of again keep their slots, whoever else asks. */
  lemma {:induction false} SilentHoldersBlock(b: Board, limit: int, es: seq<Event>)
    requires limit > 0 && |Active(b)| == limit
    requires forall e :: e in es ==> e.sat !in Active(b)
    ensures NoneFreed(b, limit, es)
    ensures forall n, now :: n !in Active(b) ==> !Admitted(Run(b, limit, es), limit, n, now)
  {
    if es != [] {
      assert forall e :: e in es[..|es| - 1] ==> e in es;
      assert es[|es| - 1] in es;
      SilentHoldersBlock(b, limit, es[..|es| - 1]);
      HeldSlotsBlock(b, limit, es[..|es| - 1]);
    }
    HeldSlotsBlock(b, limit, es);
  }

  /** An error does give the slot away: the condition no longer counts as in progress, the next in line
      is let in, and the satellite whose evacuation had already started has to wait. */
  lemma ErrorGivesSlotAway()
    ensures var b := map["a" := Condition(InProgress, 1), "b" := Condition(Waiting, 2)];
            var es := [Ask("a", 3, Failed), Ask("b", 4, Unfinished), Ask("a", 5, Unfinished)];
            && Run(b, 1, es[..1]) == map["a" := Condition(Error, 1), "b" := Condition(Waiting, 2)]
            && Run(b, 1, es[..2]) == map["a" := Condition(Error, 1), "b" := Condition(InProgress, 2)]
            && Run(b, 1, es) == map["a" := Condition(Waiting, 1), "b" := Condition(InProgress, 2)]
  {
    var b := map["a" := Condition(InProgress, 1), "b" := Condition(Waiting, 2)];
    var es := [Ask("a", 3, Failed), Ask("b", 4, Unfinished), Ask("a", 5, Unfinished)];
    var b1 := map["a" := Condition(Error, 1), "b" := Condition(Waiting, 2)];
    var b2 := map["a" := Condition(Error, 1), "b" := Condition(InProgress, 2)];
    assert Ahead(b, "a", 3) == {};
    assert Next(b, 1, es[0]) == b1;
    assert Ahead(b1, "b", 4) == {};
    assert Next(b1, 1, es[1]) == b2;
    assert Ahead(b2, "a", 5) == {"b"};
    assert es[..1][..0] == [] && es[..2][..1] == es[..1] && es[..3] == es;
    assert Run(b, 1, es[..1]) == b1;
    assert Run(b, 1, es[..2]) == b2;
  }

  // ---- The times on record ----

  /** The event writes the condition of n. */
  predicate Writes(e: Event, limit: int, n: string) {
    e.sat == n && (e.Ask? || (e.ListFails? && limit > 0))
  }

  /** Both are complete, or both are under way. */
  predicate SameStretch(a: Reason, b: Reason) {
    || (a in {Completed, AsExpected} && b in {Completed, AsExpected})
    || (a in {Waiting, InProgress, Error} && b in {Waiting, InProgress, Error})
    || (a in {NotObserved, Unknown} && b in {NotObserved, Unknown})
  }

  /** Event i is the first of a stretch: n was not on record before it, or on record as something else. */
  ghost predicate Begins(b: Board, limit: int, es: seq<Event>, n: string, i: nat)
    requires i < |es|
  {
    var before, after := Run(b, limit, es[..i]), Run(b, limit, es[..i + 1]);
    Writes(es[i], limit, n) && n in after && (n in before ==> !SameStretch(before[n].reason, after[n].reason))
  }

  /** From event i on nothing begins another stretch of n or takes it off the record. */
  ghost predicate GoesOn(b: Board, limit: int, es: seq<Event>, n: string, i: nat)
    requires i <= |es|
  {
    forall j: nat :: i <= j < |es| ==> !Begins(b, limit, es, n, j) && es[j] != Vanish(n)
  }

  lemma RunPrefix(b: Board, limit: int, es: seq<Event>, i: nat)
    requires es != [] && i < |es|
    ensures es[..|es| - 1][..i] == es[..i]
    ensures i < |es| - 1 ==> es[..|es| - 1][..i + 1] == es[..i + 1]
  {
  }

  lemma GoesOnOneMore(b: Board, limit: int, es: seq<Event>, n: string, i: nat)
    requires es != [] && i < |es| && GoesOn(b, limit, es[..|es| - 1], n, i)
    requires !Begins(b, limit, es, n, |es| - 1) && es[|es| - 1] != Vanish(n)
    ensures GoesOn(b, limit, es, n, i)
  {
    forall j: nat | i <= j < |es| ensures !Begins(b, limit, es, n, j) && es[j] != Vanish(n) {
      RunPrefix(b, limit, es, j);
      if j < |es| - 1 {
        assert es[..|es| - 1][j] == es[j];
        assert !Begins(b, limit, es[..|es| - 1], n, j);
      }
    }
    hide Run;
  }

  lemma TimeAfter(b: Board, limit: int, e: Event, n: string)
    requires n in Next(b, limit, e)
    ensures var after := Next(b, limit, e);
            if Writes(e, limit, n) && (n in b ==> !SameStretch(b[n].reason, after[n].reason))
            then after[n].since == e.now - e.now % SECOND
            else n in b && after[n].since == b[n].since && e != Vanish(n)
  {
    hide Position;
  }

  /** The time is that of the beginning of the last stretch, or the one it was at the start. */
  ghost predicate SinceStretch(b: Board, limit: int, es: seq<Event>, n: string, since: int) {
    || (n in b && since == b[n].since && GoesOn(b, limit, es, n, 0))
    || exists i: nat :: i < |es| && Begins(b, limit, es, n, i) && GoesOn(b, limit, es, n, i + 1)
         && since == es[i].now - es[i].now % SECOND
  }

  lemma StretchGoesOn(b: Board, limit: int, es: seq<Event>, n: string, since: int)
    requires es != [] && SinceStretch(b, limit, es[..|es| - 1], n, since)
    requires !Begins(b, limit, es, n, |es| - 1) && es[|es| - 1] != Vanish(n)
    ensures SinceStretch(b, limit, es, n, since)
  {
    hide GoesOn, Run, SameStretch;
    var m := |es| - 1;
    if n in b && since == b[n].since && GoesOn(b, limit, es[..m], n, 0) {
      GoesOnOneMore(b, limit, es, n, 0);
    } else {
      var i: nat :| i < m && Begins(b, limit, es[..m], n, i) && GoesOn(b, limit, es[..m], n, i + 1)
        && since == es[..m][i].now - es[..m][i].now % SECOND;
      RunPrefix(b, limit, es, i);
      assert Begins(b, limit, es, n, i) && es[..m][i] == es[i];
      GoesOnOneMore(b, limit, es, n, i + 1);
    }
  }

  /** Over every run the time on record of a satellite is the second of the first event of its last stretch
      of being complete, or of being under way; it is the one it had if that stretch goes back to the start. */
  lemma {:induction false} TimeOnRecord(b: Board, limit: int, es: seq<Event>, n: string)
    requires n in Run(b, limit, es)
    ensures SinceStretch(b, limit, es, n, Run(b, limit, es)[n].since)
  {
    if es != [] {
      var m := |es| - 1;
      assert es[..m + 1] == es;
      TimeAfter(Run(b, limit, es[..m]), limit, es[m], n);
      hide Next, SameStretch, Writes, GoesOn;
      if Begins(b, limit, es, n, m) {
        StretchEnds(b, limit, es, n);
      } else {
        TimeOnRecord(b, limit, es[..m], n);
        hide SinceStretch, Begins;
        StretchGoesOn(b, limit, es, n, Run(b, limit, es)[n].since);
      }
    }
  }

  lemma StretchEnds(b: Board, limit: int, es: seq<Event>, n: string)
    ensures GoesOn(b, limit, es, n, |es|)
  {
  }

  /** What an event puts on record. */
  lemma ReasonOnRecord(b: Board, limit: int, e: Event)
    ensures e.Ask? ==>
              var after := Next(b, limit, e);
              && after.Keys == b.Keys + {e.sat}
              && (after[e.sat].reason == Waiting <==> limit > 0 && Position(b, e.sat, e.now) >= limit)
              && (after[e.sat].reason != Waiting ==>
                    && (after[e.sat].reason == Error <==> e.outcome == Failed)
                    && (after[e.sat].reason == InProgress <==> e.outcome == Unfinished)
                    && (after[e.sat].reason == Completed <==> e.outcome == Finished))
    ensures e.ListFails? && limit > 0 ==> e.sat in Next(b, limit, e) && Next(b, limit, e)[e.sat].reason == Error
    ensures e.ListFails? && limit <= 0 ==> Next(b, limit, e) == b
    ensures forall m :: m != e.sat ==> Lookup(Next(b, limit, e), m) == Lookup(b, m)
    ensures e.Vanish? ==> e.sat !in Next(b, limit, e)
  {
    hide Position;
  }

  // ---- First come, first served ----

  /** The exact effect of another satellite's record on a position. */
  lemma PositionMoves(b: Board, after: Board, w: string, v: string, now: int)
    requires w in b && w != v && w in after && after[w] == b[w]
    requires after - {v} == b - {v}
    ensures Position(after, w, now) == Position(b, w, now)
              - (if v in Ahead(b, w, now) then 1 else 0) + (if v in Ahead(after, w, now) then 1 else 0)
  {
    var old', new' := Ahead(b, w, now), Ahead(after, w, now);
    forall m | m != v ensures m in b <==> m in after { assert m in b - {v} <==> m in after - {v}; }
    forall m | m != v && m in b
      ensures b[m] == after[m]
    {
      assert b[m] == (b - {v})[m];
      assert after[m] == (after - {v})[m];
    }
    assert old' - {v} == new' - {v};
    WithOrWithout(old', v);
    WithOrWithout(new', v);
  }

  lemma WithOrWithout<T>(s: set<T>, v: T)
    ensures |s| == |s - {v}| + (if v in s then 1 else 0)
  {
    if v !in s {
      assert s - {v} == s;
    }
  }

  /** Being ahead of a candidate means having a smaller position. */
  lemma AheadIsSmaller(b: Board, w: string, v: string, now: int)
    requires w in Ahead(b, v, now)
    ensures Position(b, w, now) < Position(b, v, now)
  {
    var c := AsCandidate(b, w, now);
    forall m | m in Ahead(b, w, now) ensures m in Ahead(b, v, now) {
      BeforeTransitive(AsCandidate(b, m, now), c, AsCandidate(b, v, now));
      BeforeIsStrict(AsCandidate(b, v, now), c);
    }
    SubsetSize(Ahead(b, w, now), Ahead(b, v, now) - {w});
  }

  /** The satellite is in line after the event, and was not before. */
  ghost predicate Joins(b: Board, limit: int, e: Event) {
    !Competes(b, e.sat) && Competes(Next(b, limit, e), e.sat)
  }

  /** Whoever joins the line is recorded with a later time than everyone in it, and if it starts at once
      it also ranked behind all of them. */
  ghost predicate Orderly(b: Board, limit: int, e: Event) {
    Joins(b, limit, e) ==>
      var joined := Next(b, limit, e)[e.sat];
      forall m :: Competes(b, m) ==>
        && b[m].since < joined.since
        && (joined.reason == InProgress ==> b[m].since < AsCandidate(b, e.sat, e.now).since)
  }

  ghost predicate IsWaiting(b: Board, w: string) {
    w in b && b[w].reason == Waiting
  }

  /** One of the running evacuations leaves the line: it is complete, fails, or its object goes away. */
  ghost predicate Departure(b: Board, limit: int, e: Event) {
    e.sat in Active(b) && !Competes(Next(b, limit, e), e.sat)
  }

  /** Only joiners and those that are let in can get ahead of a waiting satellite; neither passes one that
      is to come before them. */
  lemma NewlyAhead(b: Board, limit: int, e: Event, w: string)
    requires limit > 0 && Orderly(b, limit, e) && IsWaiting(b, w) && e.sat != w
    requires e.sat !in Ahead(b, w, 0) && e.sat in Ahead(Next(b, limit, e), w, 0)
    ensures Position(b, w, 0) + 1 < limit
  {
    var v, after := e.sat, Next(b, limit, e);
    var mine, theirs := AsCandidate(b, w, 0), AsCandidate(b, v, e.now);
    assert after[v].reason == InProgress;
    assert Before(mine, theirs) by { BeforeIsStrict(mine, theirs); }
    assert w in Ahead(b, v, e.now);
    AheadIsSmaller(b, w, v, e.now);
    PositionIgnoresClock(b, w, 0, e.now);
  }

  lemma OthersKeepPlace(b: Board, limit: int, e: Event, w: string)
    requires limit > 0 && Orderly(b, limit, e) && IsWaiting(b, w) && e.sat != w
    ensures IsWaiting(Next(b, limit, e), w)
    ensures Position(b, w, 0) < limit ==> Position(Next(b, limit, e), w, 0) < limit
    ensures Position(b, w, 0) >= limit ==> Position(Next(b, limit, e), w, 0) <= Position(b, w, 0)
    ensures Departure(b, limit, e) ==> Position(Next(b, limit, e), w, 0) == Position(b, w, 0) - 1
  {
    var v, after := e.sat, Next(b, limit, e);
    assert after - {v} == b - {v};
    PositionMoves(b, after, w, v, 0);
    if v !in Ahead(b, w, 0) && v in Ahead(after, w, 0) {
      NewlyAhead(b, limit, e, w);
    }
  }

  const OVERTAKING: seq<Event> := [
    Ask("a", 2 * SECOND, Finished), Ask("r", 3 * SECOND, Unfinished), Ask("w", 4 * SECOND, Unfinished),
    Ask("r", 5 * SECOND, Finished), Ask("a", 6 * SECOND, Unfinished)]

  /** The order of arrival does not bind a satellite that comes back after its evacuation was complete: it
      ranks by the time of its completion. So it passes whoever began to wait after that, if it has something
      left to do, and waits behind whoever began before. */
  lemma CompletedOvertakes()
    ensures var b := map["a" := Condition(InProgress, SECOND)];
            var es := OVERTAKING;
            var done, end := Run(b, 1, es[..4]), Run(b, 1, es);
            && done == map["a" := Condition(Completed, 2 * SECOND), "r" := Condition(Completed, 5 * SECOND),
                           "w" := Condition(Waiting, 4 * SECOND)]
            && end == done["a" := Condition(InProgress, 6 * SECOND)]
            && Position(done, "w", 0) == 0 && Position(end, "w", 0) == 1 && !Orderly(done, 1, es[4])
    ensures var b := map["a" := Condition(InProgress, SECOND), "w" := Condition(Waiting, 50 * SECOND)];
            var done := Next(b, 1, Ask("a", 100 * SECOND, Finished));
            Next(done, 1, Ask("a", 200 * SECOND, Unfinished))
              == map["a" := Condition(Waiting, 200 * SECOND), "w" := Condition(Waiting, 50 * SECOND)]
  {
    OvertakesEarly();
    OvertakesLate();
    OvertakesNot();
  }

  lemma OvertakesStart()
    ensures var b := map["a" := Condition(InProgress, SECOND)];
            var b1 := map["a" := Condition(Completed, 2 * SECOND)];
            && Next(b, 1, OVERTAKING[0]) == b1
            && Next(b1, 1, OVERTAKING[1]) == b1["r" := Condition(InProgress, 3 * SECOND)]
  {
    var b := map["a" := Condition(InProgress, SECOND)];
    var b1 := map["a" := Condition(Completed, 2 * SECOND)];
    assert Ahead(b, "a", 2 * SECOND) == {} && Ahead(b1, "r", 3 * SECOND) == {};
  }

  lemma OvertakesMiddle()
    ensures var b2 := map["a" := Condition(Completed, 2 * SECOND)]["r" := Condition(InProgress, 3 * SECOND)];
            var b3 := b2["w" := Condition(Waiting, 4 * SECOND)];
            && Next(b2, 1, OVERTAKING[2]) == b3
            && Next(b3, 1, OVERTAKING[3]) == b3["r" := Condition(Completed, 5 * SECOND)]
  {
    var b2 := map["a" := Condition(Completed, 2 * SECOND)]["r" := Condition(InProgress, 3 * SECOND)];
    var b3 := b2["w" := Condition(Waiting, 4 * SECOND)];
    assert Ahead(b2, "w", 4 * SECOND) == {"r"} && Ahead(b3, "r", 5 * SECOND) == {};
  }

  lemma OvertakesEarly()
    ensures var b := map["a" := Condition(InProgress, SECOND)];
            var es := OVERTAKING;
            Run(b, 1, es[..4]) == map["a" := Condition(Completed, 2 * SECOND), "r" := Condition(Completed, 5 * SECOND),
                                      "w" := Condition(Waiting, 4 * SECOND)]
  {
    var b := map["a" := Condition(InProgress, SECOND)];
    var es := OVERTAKING;
    var b1 := map["a" := Condition(Completed, 2 * SECOND)];
    var b2 := b1["r" := Condition(InProgress, 3 * SECOND)];
    var b3 := b2["w" := Condition(Waiting, 4 * SECOND)];
    OvertakesStart();
    OvertakesMiddle();
    hide Next;
    assert es[..1][..0] == [] && es[..2][..1] == es[..1] && es[..3][..2] == es[..2] && es[..4][..3] == es[..3];
    assert Run(b, 1, es[..1]) == b1;
    assert Run(b, 1, es[..2]) == b2;
    assert Run(b, 1, es[..3]) == b3;
  }

  lemma OvertakesLate()
    ensures var done := map["a" := Condition(Completed, 2 * SECOND), "r" := Condition(Completed, 5 * SECOND),
                            "w" := Condition(Waiting, 4 * SECOND)];
            var e := Ask("a", 6 * SECOND, Unfinished);
            var end := Next(done, 1, e);
            && end == done["a" := Condition(InProgress, 6 * SECOND)]
            && Position(done, "w", 0) == 0 && Position(end, "w", 0) == 1 && !Orderly(done, 1, e)
  {
    var done := map["a" := Condition(Completed, 2 * SECOND), "r" := Condition(Completed, 5 * SECOND),
                    "w" := Condition(Waiting, 4 * SECOND)];
    var e := Ask("a", 6 * SECOND, Unfinished);
    assert Ahead(done, "w", 0) == {} && Ahead(done, "a", 6 * SECOND) == {};
    var end := Next(done, 1, e);
    assert Competes(done, "w") && end["a"].reason == InProgress;
    assert Ahead(end, "w", 0) == {"a"};
  }

  lemma OvertakesNot()
    ensures var b := map["a" := Condition(InProgress, SECOND), "w" := Condition(Waiting, 50 * SECOND)];
            var done := Next(b, 1, Ask("a", 100 * SECOND, Finished));
            Next(done, 1, Ask("a", 200 * SECOND, Unfinished))
              == map["a" := Condition(Waiting, 200 * SECOND), "w" := Condition(Waiting, 50 * SECOND)]
  {
    var b := map["a" := Condition(InProgress, SECOND), "w" := Condition(Waiting, 50 * SECOND)];
    assert Ahead(b, "a", 100 * SECOND) == {};
    var done := b["a" := Condition(Completed, 100 * SECOND)];
    assert Next(b, 1, Ask("a", 100 * SECOND, Finished)) == done;
    assert Ahead(done, "a", 200 * SECOND) == {"w"};
  }

  /** Times are kept to the second: of two satellites that begin to wait in the same second the one with the
      smaller name comes first, whoever arrived first. */
  lemma SameSecondByName()
    ensures var b := map["r" := Condition(InProgress, 0)];
            var b1 := Next(b, 1, Ask("w", SECOND, Unfinished)); var b2 := Next(b1, 1, Ask("v", SECOND + 1, Unfinished));
            && Position(b1, "w", SECOND) == 1 && IsWaiting(b2, "v") && Position(b2, "v", SECOND) == 1
            && IsWaiting(b2, "w") && Position(b2, "w", SECOND) == 2
  {
    var b := map["r" := Condition(InProgress, 0)];
    assert Ahead(b, "w", SECOND) == {"r"};
    var b1 := Next(b, 1, Ask("w", SECOND, Unfinished));
    assert b1 == map["r" := Condition(InProgress, 0), "w" := Condition(Waiting, SECOND)];
    assert Less("v", "w") && !Less("w", "v");
    assert Ahead(b1, "w", SECOND) == {"r"};
    assert Ahead(b1, "v", SECOND + 1) == {"r", "w"};
    assert ToSecond(SECOND + 1) == SECOND;
    var b2 := Next(b1, 1, Ask("v", SECOND + 1, Unfinished));
    assert b2 == b1["v" := Condition(Waiting, SECOND)];
    assert Ahead(b2, "v", SECOND) == {"r"} && Ahead(b2, "w", SECOND) == {"r", "v"};
  }

  // A run is orderly when each of its events is, where it happens.
  ghost predicate OrderlyRun(b: Board, limit: int, es: seq<Event>) {
    es == [] || (OrderlyRun(b, limit, es[..|es| - 1]) && Orderly(Run(b, limit, es[..|es| - 1]), limit, es[|es| - 1]))
  }

  ghost function Departures(b: Board, limit: int, es: seq<Event>): nat {
    if es == [] then 0
    else
      var count := if Departure(Run(b, limit, es[..|es| - 1]), limit, es[|es| - 1]) then 1 else 0;
      Departures(b, limit, es[..|es| - 1]) + count
  }

  /** At some point of the run `w` asked and was admitted, or its object went away. */
  ghost predicate Served(b: Board, limit: int, es: seq<Event>, w: string) {
    es != [] &&
    var before, e := Run(b, limit, es[..|es| - 1]), es[|es| - 1];
    Served(b, limit, es[..|es| - 1], w)
    || (e.sat == w && (e.Vanish? || (e.Ask? && Admitted(before, limit, w, e.now))))
  }

  /** The list calls of `w` do not fail. */
  ghost predicate Lists(es: seq<Event>, w: string) {
    forall e :: e in es && e.ListFails? ==> e.sat != w
  }

  /** Whatever the others do, a waiting satellite keeps a place below the limit, and above it every
      evacuation that ends brings it one place forward: after `position - limit + 1` of them it is in. */
  lemma {:induction false} FirstComeFirstServed(b: Board, limit: int, es: seq<Event>, w: string)
    requires limit > 0 && OrderlyRun(b, limit, es) && IsWaiting(b, w) && Lists(es, w)
    ensures var end := Run(b, limit, es);
            || Served(b, limit, es, w)
            || (&& IsWaiting(end, w) && end[w] == b[w]
                && (Position(end, w, 0) < limit
                    || Position(end, w, 0) + Departures(b, limit, es) <= Position(b, w, 0)))
    ensures Position(b, w, 0) < limit && !Served(b, limit, es, w) ==> Position(Run(b, limit, es), w, 0) < limit
  {
    if es != [] {
      var n := |es| - 1;
      var before, e := Run(b, limit, es[..n]), es[n];
      assert e in es && forall d :: d in es[..n] ==> d in es;
      FirstComeFirstServed(b, limit, es[..n], w);
      if !Served(b, limit, es, w) {
        if e.sat != w {
          OthersKeepPlace(before, limit, e, w);
        } else {
          assert Next(before, limit, e) == before;
          assert w !in Active(before);
        }
      }
    }
  }

  /** Enough evacuations that end let a waiting satellite in the next time it asks, at the latest. */
  lemma EnoughCompletionsAdmit(b: Board, limit: int, es: seq<Event>, w: string, now: int)
    requires limit > 0 && OrderlyRun(b, limit, es) && IsWaiting(b, w) && Lists(es, w)
    requires Departures(b, limit, es) > Position(b, w, 0) - limit
    ensures Served(b, limit, es, w) || Admitted(Run(b, limit, es), limit, w, now)
  {
    FirstComeFirstServed(b, limit, es, w);
    if !Served(b, limit, es, w) {
      PositionIgnoresClock(Run(b, limit, es), w, 0, now);
    }
  }
}
