/** Who may evacuate now (pkg/evacuation/evacuation.go), and the condition each reconcile records
    (internal/controller/linstorsatellite_controller.go, pkg/conditions/conditions.go). */
module Admission {
  import opened Wrappers
  import opened Ordering
  import opened Clock

  datatype Reason = NotObserved | AsExpected | Completed | Waiting | InProgress | Unknown | Error

  datatype Status = True | False | Undetermined

  function StatusOf(r: Reason): Status {
    match r
    case AsExpected | Completed => True
    case Waiting | InProgress | Error => False
    case NotObserved | Unknown => Undetermined
  }

  /** The SatelliteEvacuated condition: its reason, and when its status last changed. */
  datatype Condition = Condition(reason: Reason, since: int)

  datatype Satellite = Satellite(name: string, evacuated: Option<Condition>)

  /** The SatelliteEvacuated conditions on record, by satellite. */
  type Board = map<string, Condition>

  ghost predicate DistinctNames(list: seq<Satellite>) {
    forall i, j :: 0 <= i < j < |list| ==> list[i].name != list[j].name
  }

  /** What a list of satellites says, whatever its order. */
  ghost function View(list: seq<Satellite>): (b: Board)
    requires DistinctNames(list)
    ensures forall i :: 0 <= i < |list| ==> Lookup(b, list[i].name) == list[i].evacuated
    ensures forall n :: n in b ==> exists i :: 0 <= i < |list| && list[i].name == n
  {
    if list == [] then map[]
    else
      var rest := View(list[1..]);
      assert forall n :: n in rest ==> exists i :: 0 <= i < |list[1..]| && list[1..][i].name == n;
      if list[0].evacuated.Some? then rest[list[0].name := list[0].evacuated.value] else rest
  }

  /** The order of the list does not matter. */
  lemma ViewIgnoresOrder(xs: seq<Satellite>, ys: seq<Satellite>)
    requires DistinctNames(xs) && DistinctNames(ys) && Elements(xs) == Elements(ys)
    ensures View(xs) == View(ys)
  {
    forall n ensures Lookup(View(xs), n) == Lookup(View(ys), n) {
      if s :| s in Elements(xs) && s.name == n {
        var i :| 0 <= i < |xs| && xs[i] == s;
        var j :| 0 <= j < |ys| && ys[j] == s;
        assert Lookup(View(xs), xs[i].name) == Lookup(View(ys), ys[j].name);
      } else {
        assert forall i :: 0 <= i < |xs| ==> xs[i] in Elements(xs);
        assert forall j :: 0 <= j < |ys| ==> ys[j] in Elements(ys);
      }
    }
    assert forall n :: n in View(xs) <==> Lookup(View(xs), n).Some?;
    assert forall n :: n in View(ys) <==> Lookup(View(ys), n).Some?;
  }

  /** meta.SetStatusCondition keeps the time while the status stays the same; times are kept to the second. */
  function Record(b: Board, n: string, r: Reason, now: int): Board {
    b[n := Condition(r, if n in b && StatusOf(b[n].reason) == StatusOf(r) then b[n].since else ToSecond(now))]
  }

  // ---- The order of candidates ----

  datatype Candidate = Candidate(name: string, inProgress: bool, since: int)

  /** Running evacuations first, then those waiting longest, then by name. */
  predicate Before(a: Candidate, b: Candidate) {
    if a.inProgress != b.inProgress then a.inProgress
    else if a.since != b.since then a.since < b.since
    else Less(a.name, b.name)
  }

  lemma BeforeIsStrict(a: Candidate, b: Candidate)
    ensures !Before(a, a)
    ensures Before(a, b) ==> !Before(b, a)
    ensures a.name != b.name ==> Before(a, b) || Before(b, a)
  {
    LessIrreflexive(a.name);
    LessTotal(a.name, b.name);
    if Less(a.name, b.name) {
      LessAsymmetric(a.name, b.name);
    }
  }

  lemma BeforeTransitive(a: Candidate, b: Candidate, c: Candidate)
    requires Before(a, b) && Before(b, c)
    ensures Before(a, c)
  {
    if Less(a.name, b.name) && Less(b.name, c.name) {
      LessTransitive(a.name, b.name, c.name);
    }
  }

  predicate Competes(b: Board, n: string) {
    n in b && (b[n].reason == InProgress || b[n].reason == Waiting)
  }

  function AsCandidate(b: Board, n: string, now: int): Candidate {
    Candidate(n, n in b && b[n].reason == InProgress, if n in b then b[n].since else now)
  }

  ghost function Ahead(b: Board, n: string, now: int): set<string> {
    set m | m in b && m != n && Competes(b, m) && Before(AsCandidate(b, m, now), AsCandidate(b, n, now))
  }

  ghost function Position(b: Board, n: string, now: int): nat {
    |Ahead(b, n, now)|
  }

  ghost function Competitors(b: Board): set<string> {
    set m | m in b && Competes(b, m)
  }

  /** A limit of zero or less admits everyone. */
  ghost predicate Admitted(b: Board, limit: int, n: string, now: int) {
    limit <= 0 || Position(b, n, now) < limit
  }

  // ---- Computing a position by sorting ----

  ghost predicate Ordered(q: seq<Candidate>) {
    forall i, j :: 0 <= i < j < |q| ==> Before(q[i], q[j])
  }

  ghost function Names(q: seq<Candidate>): set<string> {
    set i | 0 <= i < |q| :: q[i].name
  }

  function InsertCandidate(c: Candidate, q: seq<Candidate>): (r: seq<Candidate>)
    requires Ordered(q) && c.name !in Names(q)
    ensures Ordered(r)
    ensures forall x :: x in r <==> x == c || x in q
    ensures |r| == |q| + 1
  {
    if q == [] then [c]
    else
      assert q[0].name in Names(q);
      assert forall i :: 0 <= i < |q| ==> q[i].name in Names(q);
      BeforeIsStrict(c, q[0]);
      if Before(c, q[0]) then
        assert forall j :: 0 <= j < |q| ==> Before(c, q[j]) by {
          forall j | 0 < j < |q| ensures Before(c, q[j]) { BeforeTransitive(c, q[0], q[j]); }
        }
        [c] + q
      else
        assert forall i :: 0 <= i < |q[1..]| ==> q[1..][i].name in Names(q);
        var rest := InsertCandidate(c, q[1..]);
        assert forall y :: y in rest ==> Before(q[0], y);
        [q[0]] + rest
  }

  /** slices.SortFunc on candidates with distinct names. */
  function SortCandidates(q: seq<Candidate>): (r: seq<Candidate>)
    requires forall i, j :: 0 <= i < j < |q| ==> q[i].name != q[j].name
    ensures Ordered(r)
    ensures forall x :: x in r <==> x in q
    ensures |r| == |q|
  {
    if q == [] then []
    else
      var rest := SortCandidates(q[1..]);
      assert q[0].name !in Names(rest) by {
        forall i | 0 <= i < |rest| ensures rest[i].name != q[0].name { assert rest[i] in q[1..]; }
      }
      InsertCandidate(q[0], rest)
  }

  ghost predicate OneEach(q: seq<Candidate>) {
    forall i, j :: 0 <= i < j < |q| ==> q[i].name != q[j].name
  }

  lemma {:induction false} NamesSize(q: seq<Candidate>)
    requires OneEach(q)
    ensures |Names(q)| == |q|
  {
    if q != [] {
      var n := |q| - 1;
      NamesSize(q[..n]);
      assert Names(q) == Names(q[..n]) + {q[n].name};
    }
  }

  /** An ordered list of candidates whose entries are determined by their names names each once. */
  lemma OrderedOneEach(q: seq<Candidate>, b: Board, now: int)
    requires Ordered(q)
    requires forall c :: c in q ==> c == AsCandidate(b, c.name, now)
    ensures OneEach(q)
  {
    forall i, j | 0 <= i < j < |q| ensures q[i].name != q[j].name {
      BeforeIsStrict(q[i], q[j]);
      assert q[i] in q && q[j] in q;
    }
  }

  /** In the ordered list of all competitors (and the caller), the index is the position. */
  lemma IndexIsPosition(q: seq<Candidate>, b: Board, i: nat, now: int)
    requires Ordered(q) && i < |q|
    requires forall c :: c in q ==> c == AsCandidate(b, c.name, now)
    requires Competitors(b) <= Names(q) <= Competitors(b) + {q[i].name}
    ensures Position(b, q[i].name, now) == i
  {
    OrderedOneEach(q, b, now);
    var head := q[..i];
    NamesSize(head);
    assert OneEach(head);
    forall m
      ensures m in Names(head) <==> m in Ahead(b, q[i].name, now)
    {
      if m in Names(head) {
        var j :| 0 <= j < i && q[j].name == m;
        assert q[j] in q && q[i] in q && m in Names(q);
      }
      if m in Ahead(b, q[i].name, now) {
        assert m in Competitors(b);
        var j :| 0 <= j < |q| && q[j].name == m;
        assert q[j] in q && q[i] in q;
        BeforeIsStrict(q[j], q[i]);
        assert head[j] == q[j];
      }
    }
    assert Names(head) == Ahead(b, q[i].name, now);
  }

  lemma NamesAppend(q: seq<Candidate>, c: Candidate)
    ensures Names(q + [c]) == Names(q) + {c.name}
  {
    var r := q + [c];
    forall n | n in Names(q) + {c.name} ensures n in Names(r) {
      if n in Names(q) {
        var i :| 0 <= i < |q| && q[i].name == n;
        assert r[i].name == n;
      } else {
        assert r[|q|].name == n;
      }
    }
  }

  /** All satellites that take or want a slot, and the caller in any case. */
  method CollectCandidates(list: seq<Satellite>, name: string, now: int) returns (candidates: seq<Candidate>)
    requires DistinctNames(list)
    ensures forall c :: c in candidates ==> c == AsCandidate(View(list), c.name, now)
    ensures Names(candidates) == Competitors(View(list)) + {name}
    ensures OneEach(candidates)
  {
    hide View;
    ghost var b := View(list);
    candidates := [];
    var seenSelf := false;
    for i := 0 to |list|
      invariant forall c :: c in candidates ==> c == AsCandidate(b, c.name, now)
      invariant Names(candidates) == set j | 0 <= j < i
                && (Competes(b, list[j].name) || list[j].name == name) :: list[j].name
      invariant OneEach(candidates)
      invariant seenSelf <==> name in Names(candidates)
    {
      var sat := list[i];
      var inProgress := sat.evacuated.Some? && sat.evacuated.value.reason == InProgress;
      var waiting := sat.evacuated.Some? && sat.evacuated.value.reason == Waiting;
      assert Lookup(b, sat.name) == sat.evacuated;
      if inProgress || waiting || sat.name == name {
        var since := if sat.evacuated.Some? then sat.evacuated.value.since else now;
        var c := Candidate(sat.name, inProgress, since);
        NamesAppend(candidates, c);
        OneEachAppend(candidates, c);
        candidates := candidates + [c];
        if sat.name == name {
          seenSelf := true;
        }
      }
    }
    assert Competitors(b) <= Names(candidates) <= Competitors(b) + {name};
    if !seenSelf {
      assert name !in b;
      var c := Candidate(name, false, now);
      NamesAppend(candidates, c);
      OneEachAppend(candidates, c);
      candidates := candidates + [c];
    }
  }

  lemma OneEachAppend(q: seq<Candidate>, c: Candidate)
    requires OneEach(q) && c.name !in Names(q)
    ensures OneEach(q + [c])
  {
    forall i | 0 <= i < |q| ensures q[i].name in Names(q) {}
  }

  method IndexOf(q: seq<Candidate>, name: string) returns (i: nat)
    requires name in Names(q)
    ensures i < |q| && q[i].name == name
  {
    i := 0;
    while q[i].name != name
      invariant i < |q|
      invariant forall j :: 0 <= j < i ==> q[j].name != name
      decreases |q| - i
    {
      i := i + 1;
    }
  }

  /** Decides whether the satellite `name` may start or continue. */
  method AdmitEvacuation(list: seq<Satellite>, name: string, maxConcurrent: int, now: int)
    returns (admitted: bool, position: int, total: nat)
    requires DistinctNames(list)
    ensures admitted == Admitted(View(list), maxConcurrent, name, now)
    ensures maxConcurrent > 0 ==> position == Position(View(list), name, now)
    ensures maxConcurrent > 0 ==> total == |Competitors(View(list)) + {name}|
  {
    if maxConcurrent <= 0 {
      return true, 0, 0;
    }
    var candidates := CollectCandidates(list, name, now);
    var sorted := SortCandidates(candidates);
    SameNames(sorted, candidates);
    OrderedOneEach(sorted, View(list), now);
    NamesSize(sorted);
    position := IndexOf(sorted, name);
    IndexIsPosition(sorted, View(list), position, now);
    return position < maxConcurrent, position, |sorted|;
  }

  lemma SameNames(p: seq<Candidate>, q: seq<Candidate>)
    requires forall c :: c in p <==> c in q
    ensures Names(p) == Names(q)
  {
    forall n ensures n in Names(p) <==> n in Names(q) {
      if n in Names(p) {
        var i :| 0 <= i < |p| && p[i].name == n;
        assert p[i] in q;
      }
      if n in Names(q) {
        var i :| 0 <= i < |q| && q[i].name == n;
        assert q[i] in p;
      }
    }
  }
}
