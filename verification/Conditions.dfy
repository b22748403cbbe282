/** Conditions collected during one reconcile (pkg/conditions/conditions.go). */
module Conditions {
  import opened Admission

  datatype Entry = Entry(status: Status, reason: Reason, messages: seq<string>)

  const FRESH := Entry(Undetermined, NotObserved, [])

  function Priority(r: Reason): nat {
    match r
    case NotObserved => 0
    case AsExpected => 1
    case Completed => 2
    case Waiting => 3
    case InProgress => 4
    case Unknown => 5
    case Error => 6
  }

  /** Adding a reason counts only when it outranks what is there; its message is kept in any case. */
  function Raised(e: Entry, r: Reason, message: string): Entry {
    if Priority(e.reason) < Priority(r) then Entry(StatusOf(r), r, e.messages + [message])
    else e.(messages := e.messages + [message])
  }

  class Collection {
    var entries: map<string, Entry>

    constructor ()
      ensures entries == map["Applied" := FRESH, "Available" := FRESH, "Configured" := FRESH]
    {
      entries := map["Applied" := FRESH, "Available" := FRESH, "Configured" := FRESH];
    }

    function At(kind: string): Entry
      reads this
    {
      if kind in entries then entries[kind] else FRESH
    }

    /** AddSuccess, AddCompleted, AddWaiting, AddInProgress, AddUnknown and AddError, by their reasons. */
    method Add(kind: string, r: Reason, message: string)
      modifies this
      ensures entries == old(entries)[kind := Raised(old(At(kind)), r, message)]
    {
      if kind !in entries {
        entries := entries[kind := FRESH];
      }
      var e := entries[kind].(messages := entries[kind].messages + [message]);
      if Priority(e.reason) < Priority(r) {
        e := e.(status := StatusOf(r), reason := r);
      }
      entries := entries[kind := e];
    }
  }

  function AllRaised(e: Entry, rs: seq<(Reason, string)>): Entry {
    if rs == [] then e else Raised(AllRaised(e, rs[..|rs| - 1]), rs[|rs| - 1].0, rs[|rs| - 1].1)
  }

  /** However many reasons are added, the entry ends with the one of highest priority, and with its status. */
  lemma {:induction false} HighestReasonWins(rs: seq<(Reason, string)>)
    ensures var e := AllRaised(FRESH, rs);
            && e.status == StatusOf(e.reason)
            && (e.reason == NotObserved || exists i :: 0 <= i < |rs| && rs[i].0 == e.reason)
            && (forall i :: 0 <= i < |rs| ==> Priority(rs[i].0) <= Priority(e.reason))
            && |e.messages| == |rs|
            && forall i :: 0 <= i < |rs| ==> e.messages[i] == rs[i].1
  {
    if rs != [] {
      var n := |rs| - 1;
      HighestReasonWins(rs[..n]);
      var e := AllRaised(FRESH, rs[..n]);
      assert forall i :: 0 <= i < n ==> rs[i] == rs[..n][i];
      if e.reason != NotObserved && Priority(rs[n].0) <= Priority(e.reason) {
        var i :| 0 <= i < n && rs[..n][i].0 == e.reason;
        assert rs[i].0 == e.reason;
      }
    }
  }

  ghost predicate Added(rs: seq<(Reason, string)>, r: Reason) {
    exists i :: 0 <= i < |rs| && rs[i].0 == r
  }

  /** The reasons spelled out: an error outranks everything, then come unknown, in progress, waiting, completed
      and as expected; the status is true only for the last two, and undetermined only for unknown or nothing. */
  lemma RankingOfReasons(rs: seq<(Reason, string)>)
    ensures var e := AllRaised(FRESH, rs);
            && (e.reason == Error <==> Added(rs, Error))
            && (e.reason == Unknown <==> Added(rs, Unknown) && !Added(rs, Error))
            && (e.reason == InProgress <==> Added(rs, InProgress) && !Added(rs, Unknown) && !Added(rs, Error))
            && (e.reason == Waiting ==> Added(rs, Waiting))
            && (Added(rs, Waiting) ==> e.reason in {Waiting, InProgress, Unknown, Error})
            && (e.reason == Completed ==> Added(rs, Completed))
            && (Added(rs, Completed) ==> e.reason in {Completed, Waiting, InProgress, Unknown, Error})
            && (e.reason == AsExpected ==> Added(rs, AsExpected))
            && (Added(rs, AsExpected) ==> e.reason != NotObserved)
            && (e.status == True <==> e.reason in {AsExpected, Completed})
            && (e.status == False <==> e.reason in {Waiting, InProgress, Error})
  {
    HighestReasonWins(rs);
    hide AllRaised;
    var e := AllRaised(FRESH, rs);
    forall r | Added(rs, r) ensures Priority(r) <= Priority(e.reason) {
      var i :| 0 <= i < |rs| && rs[i].0 == r;
    }
    if e.reason != NotObserved {
      assert Added(rs, e.reason);
    }
  }

  /** So the order of the additions does not matter. */
  lemma OrderOfAdditionsIsIrrelevant(xs: seq<(Reason, string)>, ys: seq<(Reason, string)>)
    requires forall x :: x in xs <==> x in ys
    ensures AllRaised(FRESH, xs).reason == AllRaised(FRESH, ys).reason
    ensures AllRaised(FRESH, xs).status == AllRaised(FRESH, ys).status
  {
    HighestReasonWins(xs);
    HighestReasonWins(ys);
    Dominated(xs, ys);
    Dominated(ys, xs);
  }

  lemma Dominated(xs: seq<(Reason, string)>, ys: seq<(Reason, string)>)
    requires forall x :: x in xs ==> x in ys
    ensures Priority(AllRaised(FRESH, xs).reason) <= Priority(AllRaised(FRESH, ys).reason)
  {
    HighestReasonWins(xs);
    HighestReasonWins(ys);
    hide AllRaised;
    var e := AllRaised(FRESH, xs);
    if e.reason != NotObserved {
      var i :| 0 <= i < |xs| && xs[i].0 == e.reason;
      assert xs[i] in xs && xs[i] in ys;
    }
  }
}
