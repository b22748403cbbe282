/** Properties of the connection between every two satellites
    (internal/controller/linstornodeconnection_controller.go). */
module NodeConnections {
  import opened Wrappers
  import opened Ordering
  import opened Properties

  datatype Op = Exists | DoesNotExist | In | NotIn | Same | NotSame | OtherOp

  datatype Expr = Expr(op: Op, key: string, values: seq<string>)

  datatype Path = Path(name: string, interface: string)

  /** A LinstorNodeConnection: selector terms, properties as name and value, and paths. */
  datatype Connection = Connection(selector: seq<seq<Expr>>, properties: seq<(string, string)>, paths: seq<Path>)

  type Labels = map<string, map<string, string>>

  function LabelsOf(labels: Labels, n: string): map<string, string> {
    if n in labels then labels[n] else map[]
  }

  predicate Evaluate(e: Expr, la: map<string, string>, lb: map<string, string>) {
    match e.op
    case Exists => e.key in la && e.key in lb
    case DoesNotExist => e.key !in la && e.key !in lb
    case In => Get(la, e.key) in e.values && Get(lb, e.key) in e.values
    case NotIn => Get(la, e.key) !in e.values && Get(lb, e.key) !in e.values
    case Same => Get(la, e.key) == Get(lb, e.key)
    case NotSame => Get(la, e.key) != Get(lb, e.key)
    case OtherOp => false
  }

  predicate EvaluateTerm(term: seq<Expr>, la: map<string, string>, lb: map<string, string>) {
    forall i :: 0 <= i < |term| ==> Evaluate(term[i], la, lb)
  }

  predicate Applies(selector: seq<seq<Expr>>, la: map<string, string>, lb: map<string, string>) {
    selector == [] || exists i :: 0 <= i < |selector| && EvaluateTerm(selector[i], la, lb)
  }

  const PATHS := "Paths"

  function PathKey(path: Path, n: string): string {
    PATHS + "/" + path.name + "/" + n
  }

  function WithProperties(props: Props, ps: seq<(string, string)>): Props {
    if ps == [] then props else WithProperties(props, ps[..|ps| - 1])[ps[|ps| - 1].0 := ps[|ps| - 1].1]
  }

  function WithPaths(props: Props, paths: seq<Path>, a: string, b: string): Props {
    if paths == [] then props
    else
      var p := paths[|paths| - 1];
      WithPaths(props, paths[..|paths| - 1], a, b)[PathKey(p, a) := p.interface][PathKey(p, b) := p.interface]
  }

  method MergeNodeConnection(props: Props, conn: Connection, a: string, b: string) returns (result: Props)
    ensures result == WithPaths(WithProperties(props, conn.properties), conn.paths, a, b)
  {
    result := props;
    for i := 0 to |conn.properties|
      invariant result == WithProperties(props, conn.properties[..i])
    {
      assert conn.properties[..i + 1][..i] == conn.properties[..i];
      result := result[conn.properties[i].0 := conn.properties[i].1];
    }
    assert conn.properties[..|conn.properties|] == conn.properties;
    ghost var base := result;
    for i := 0 to |conn.paths|
      invariant result == WithPaths(base, conn.paths[..i], a, b)
    {
      assert conn.paths[..i + 1][..i] == conn.paths[..i];
      var path := conn.paths[i];
      result := result[PathKey(path, a) := path.interface][PathKey(path, b) := path.interface];
    }
    assert conn.paths[..|conn.paths|] == conn.paths;
  }

  /** The properties between two nodes: the connections that apply, later ones overriding earlier ones. */
  function Between(conns: seq<Connection>, a: string, b: string, labels: Labels): Props {
    if conns == [] then map[]
    else
      var c := conns[|conns| - 1];
      var earlier := Between(conns[..|conns| - 1], a, b, labels);
      if Applies(c.selector, LabelsOf(labels, a), LabelsOf(labels, b))
      then WithPaths(WithProperties(earlier, c.properties), c.paths, a, b) else earlier
  }

  // ---- Which connections apply ----

  ghost function LabelOf(labels: Labels, n: string, key: string): Option<string> {
    if n in labels then Lookup(labels[n], key) else None
  }

  /** What the expression asks of two labels; a missing one reads as empty, but does not exist. */
  ghost predicate AsksOf(e: Expr, one: Option<string>, two: Option<string>) {
    && (e.op == Exists ==> one.Some? && two.Some?)
    && (e.op == DoesNotExist ==> one == None && two == None)
    && (e.op == In ==> one.GetOr("") in e.values && two.GetOr("") in e.values)
    && (e.op == NotIn ==> one.GetOr("") !in e.values && two.GetOr("") !in e.values)
    && (e.op == Same ==> one.GetOr("") == two.GetOr(""))
    && (e.op == NotSame ==> one.GetOr("") != two.GetOr(""))
    && e.op != OtherOp
  }

  /** A connection applies to two nodes if it selects nothing, or if all expressions of one of its terms hold
      of their labels. */
  lemma AppliesIff(selector: seq<seq<Expr>>, labels: Labels, a: string, b: string)
    ensures Applies(selector, LabelsOf(labels, a), LabelsOf(labels, b)) <==>
              || |selector| == 0
              || exists term :: term in selector && forall e :: e in term ==>
                   AsksOf(e, LabelOf(labels, a, e.key), LabelOf(labels, b, e.key))
  {
    var la, lb := LabelsOf(labels, a), LabelsOf(labels, b);
    forall e ensures Evaluate(e, la, lb) <==> AsksOf(e, LabelOf(labels, a, e.key), LabelOf(labels, b, e.key)) {}
    hide Evaluate, AsksOf, LabelsOf;
    forall term: seq<Expr>
      ensures EvaluateTerm(term, la, lb)
         <==> forall e :: e in term ==> AsksOf(e, LabelOf(labels, a, e.key), LabelOf(labels, b, e.key))
    {
      if EvaluateTerm(term, la, lb) {
        forall e | e in term ensures Evaluate(e, la, lb) {
          var i :| 0 <= i < |term| && term[i] == e;
        }
      }
    }
    hide EvaluateTerm;
    if Applies(selector, la, lb) && selector != [] {
      var i :| 0 <= i < |selector| && EvaluateTerm(selector[i], la, lb);
      assert selector[i] in selector;
    }
    if term :| term in selector && EvaluateTerm(term, la, lb) {
      var i :| 0 <= i < |selector| && selector[i] == term;
      assert EvaluateTerm(selector[i], la, lb);
    }
  }

  /** Beside each other, the operators of a single node are negations of each other. */
  lemma OppositesOnOneNode(key: string, values: seq<string>, l: map<string, string>)
    ensures Evaluate(Expr(Exists, key, values), l, l) != Evaluate(Expr(DoesNotExist, key, values), l, l)
    ensures Evaluate(Expr(In, key, values), l, l) != Evaluate(Expr(NotIn, key, values), l, l)
    ensures Evaluate(Expr(Same, key, values), l, l) && !Evaluate(Expr(NotSame, key, values), l, l)
  {
  }

  // ---- What decides one property ----

  predicate OnPath(p: Path, a: string, b: string, k: string) {
    k == "Paths/" + p.name + "/" + a || k == "Paths/" + p.name + "/" + b
  }

  /** The index of the last path with the property k. */
  ghost predicate LastPath(paths: seq<Path>, a: string, b: string, k: string, i: int) {
    0 <= i < |paths| && OnPath(paths[i], a, b, k) && forall j :: i < j < |paths| ==> !OnPath(paths[j], a, b, k)
  }

  ghost predicate LastProperty(ps: seq<(string, string)>, k: string, i: int) {
    0 <= i < |ps| && ps[i].0 == k && forall j :: i < j < |ps| ==> ps[j].0 != k
  }

  ghost predicate AnyPath(paths: seq<Path>, a: string, b: string, k: string) {
    exists i :: 0 <= i < |paths| && OnPath(paths[i], a, b, k)
  }

  ghost predicate AnyProperty(ps: seq<(string, string)>, k: string) {
    exists i :: 0 <= i < |ps| && ps[i].0 == k
  }

  ghost predicate Mentions(c: Connection, a: string, b: string, k: string) {
    AnyPath(c.paths, a, b, k) || AnyProperty(c.properties, k)
  }

  /** What a connection says about k: the interface of its last path with that property, or else the value
      of its last property of that name. */
  ghost predicate Says(c: Connection, a: string, b: string, k: string, v: string) {
    || (exists i :: LastPath(c.paths, a, b, k, i) && v == c.paths[i].interface)
    || (!AnyPath(c.paths, a, b, k) && exists i :: LastProperty(c.properties, k, i) && v == c.properties[i].1)
  }

  lemma {:induction false} LastPropertyWins(props: Props, ps: seq<(string, string)>, k: string)
    ensures !AnyProperty(ps, k) ==> Lookup(WithProperties(props, ps), k) == Lookup(props, k)
    ensures AnyProperty(ps, k) ==>
              exists i :: LastProperty(ps, k, i) && Lookup(WithProperties(props, ps), k) == Some(ps[i].1)
  {
    if ps != [] {
      var n := |ps| - 1;
      LastPropertyWins(props, ps[..n], k);
      if ps[n].0 == k {
        assert LastProperty(ps, k, n);
      } else if AnyProperty(ps[..n], k) {
        var i :| LastProperty(ps[..n], k, i) && Lookup(WithProperties(props, ps[..n]), k) == Some(ps[..n][i].1);
        assert LastProperty(ps, k, i) by {
          assert forall j :: i < j < n ==> ps[j] == ps[..n][j];
        }
      } else {
        assert forall j :: 0 <= j < n ==> ps[j] == ps[..n][j];
      }
    }
  }

  lemma PathKeyText(p: Path, n: string)
    ensures PathKey(p, n) == "Paths/" + p.name + "/" + n
  {
    assert "Paths" + "/" == "Paths/";
  }

  lemma {:induction false} LastPathWins(props: Props, paths: seq<Path>, a: string, b: string, k: string)
    ensures !AnyPath(paths, a, b, k) ==> Lookup(WithPaths(props, paths, a, b), k) == Lookup(props, k)
    ensures AnyPath(paths, a, b, k) ==>
              exists i :: LastPath(paths, a, b, k, i)
                  && Lookup(WithPaths(props, paths, a, b), k) == Some(paths[i].interface)
  {
    hide PathKey;
    if paths != [] {
      var n := |paths| - 1;
      LastPathWins(props, paths[..n], a, b, k);
      PathKeyText(paths[n], a);
      PathKeyText(paths[n], b);
      if OnPath(paths[n], a, b, k) {
        assert LastPath(paths, a, b, k, n);
      } else if AnyPath(paths[..n], a, b, k) {
        var i :| LastPath(paths[..n], a, b, k, i)
            && Lookup(WithPaths(props, paths[..n], a, b), k) == Some(paths[..n][i].interface);
        assert LastPath(paths, a, b, k, i) by {
          assert forall j :: i < j < n ==> paths[j] == paths[..n][j];
        }
      } else {
        assert forall j :: 0 <= j < n ==> paths[j] == paths[..n][j];
      }
    }
  }

  lemma ConnectionSays(props: Props, c: Connection, a: string, b: string, k: string)
    ensures var after := WithPaths(WithProperties(props, c.properties), c.paths, a, b);
            && (!Mentions(c, a, b, k) ==> Lookup(after, k) == Lookup(props, k))
            && (Mentions(c, a, b, k) ==> k in after && Says(c, a, b, k, after[k]))
  {
    hide AnyPath, AnyProperty, LastPath, LastProperty;
    LastPropertyWins(props, c.properties, k);
    LastPathWins(WithProperties(props, c.properties), c.paths, a, b, k);
  }

  ghost predicate Decides(conns: seq<Connection>, a: string, b: string, labels: Labels, k: string, i: int)
    requires 0 <= i < |conns|
  {
    Applies(conns[i].selector, LabelsOf(labels, a), LabelsOf(labels, b)) && Mentions(conns[i], a, b, k)
  }

  /** A property is there exactly if a connection that applies mentions it, and the last such connection
      decides its value, its paths before its properties. */
  lemma {:induction false} LastConnectionDecides(conns: seq<Connection>, a: string, b: string, labels: Labels,
      k: string)
    ensures k in Between(conns, a, b, labels) <==> exists i :: 0 <= i < |conns| && Decides(conns, a, b, labels, k, i)
    ensures forall i :: 0 <= i < |conns| && Decides(conns, a, b, labels, k, i)
              && (forall j :: i < j < |conns| ==> !Decides(conns, a, b, labels, k, j))
              ==> k in Between(conns, a, b, labels) && Says(conns[i], a, b, k, Between(conns, a, b, labels)[k])
  {
    hide Mentions, Says, Applies, WithPaths, WithProperties;
    if conns != [] {
      var n := |conns| - 1;
      var c, before := conns[n], conns[..n];
      LastConnectionDecides(before, a, b, labels, k);
      ConnectionSays(Between(before, a, b, labels), c, a, b, k);
      forall i | 0 <= i < n
        ensures Decides(before, a, b, labels, k, i) == Decides(conns, a, b, labels, k, i)
      {
        assert before[i] == conns[i];
      }
      assert Decides(conns, a, b, labels, k, n) <==>
        Applies(c.selector, LabelsOf(labels, a), LabelsOf(labels, b)) && Mentions(c, a, b, k);
    }
  }

  type Pairs = map<(string, string), Props>

  ghost function PairsOf(sats: set<string>): set<(string, string)> {
    set a, b | a in sats && b in sats && Less(a, b) :: (a, b)
  }

  ghost function Desired(conns: seq<Connection>, sats: set<string>, labels: Labels): Pairs {
    map p | p in PairsOf(sats) && Between(conns, p.0, p.1, labels) != map[] :: Between(conns, p.0, p.1, labels)
  }

  method MergeAll(conns: seq<Connection>, a: string, b: string, labels: Labels) returns (props: Props)
    ensures props == Between(conns, a, b, labels)
  {
    props := map[];
    for i := 0 to |conns|
      invariant props == Between(conns[..i], a, b, labels)
    {
      assert conns[..i + 1][..i] == conns[..i];
      if Applies(conns[i].selector, LabelsOf(labels, a), LabelsOf(labels, b)) {
        props := MergeNodeConnection(props, conns[i], a, b);
      }
    }
    assert conns[..|conns|] == conns;
  }

  /** Pairs of sorted satellites whose first one has an index below i, or i itself and a second one below j. */
  ghost predicate Derived(sorted: seq<string>, i: int, j: int, p: (string, string)) {
    exists k, l :: 0 <= k < l < |sorted| && (k < i || (k == i && l < j)) && p == (sorted[k], sorted[l])
  }

  lemma DerivedNext(sorted: seq<string>, i: int, j: int, p: (string, string))
    requires 0 <= i < j < |sorted|
    ensures Derived(sorted, i, j + 1, p) <==> Derived(sorted, i, j, p) || p == (sorted[i], sorted[j])
  {
  }

  lemma DerivedNothing(sorted: seq<string>, p: (string, string))
    ensures !Derived(sorted, 0, 0, p)
  {
  }

  lemma DerivedRow(sorted: seq<string>, i: int, p: (string, string))
    requires 0 <= i < |sorted|
    ensures Derived(sorted, i, |sorted|, p) <==> Derived(sorted, i + 1, 0, p)
    ensures Derived(sorted, i, i + 1, p) <==> Derived(sorted, i, 0, p)
  {
  }

  lemma DerivedAll(sorted: seq<string>, sats: set<string>, p: (string, string))
    requires Ascending(sorted) && Elements(sorted) == sats
    ensures Derived(sorted, |sorted|, 0, p) <==> p in PairsOf(sats)
  {
    if p in PairsOf(sats) {
      assert p.0 in sorted && p.1 in sorted;
      var k :| 0 <= k < |sorted| && sorted[k] == p.0;
      var l :| 0 <= l < |sorted| && sorted[l] == p.1;
      LessAsymmetric(p.0, p.1);
      LessIrreflexive(p.0);
      assert k < l;
    }
    if Derived(sorted, |sorted|, 0, p) {
      var k, l :| 0 <= k < l < |sorted| && p == (sorted[k], sorted[l]);
      assert sorted[k] in Elements(sorted) && sorted[l] in Elements(sorted);
    }
  }

  /** Every two satellites once, in name order. `sorted` are the names of the satellites, sorted. */
  method DesiredNodeConnections(conns: seq<Connection>, sorted: seq<string>, labels: Labels) returns (result: Pairs)
    requires Ascending(sorted)
    ensures result == Desired(conns, Elements(sorted), labels)
  {
    result := map[];
    hide Between, Derived;
    forall p { DerivedNothing(sorted, p); }
    for i := 0 to |sorted|
      invariant forall p :: p in result <==> Derived(sorted, i, 0, p) && Between(conns, p.0, p.1, labels) != map[]
      invariant forall p :: p in result ==> result[p] == Between(conns, p.0, p.1, labels)
    {
      forall p { DerivedRow(sorted, i, p); }
      for j := i + 1 to |sorted|
        invariant forall p :: p in result <==> Derived(sorted, i, j, p) && Between(conns, p.0, p.1, labels) != map[]
        invariant forall p :: p in result ==> result[p] == Between(conns, p.0, p.1, labels)
      {
        forall p { DerivedNext(sorted, i, j, p); }
        var props := MergeAll(conns, sorted[i], sorted[j], labels);
        if props != map[] {
          result := result[(sorted[i], sorted[j]) := props];
        }
      }
      forall p { DerivedRow(sorted, i, p); }
    }
    forall p { DerivedAll(sorted, Elements(sorted), p); }
  }

  // ---- Which node is called A does not matter ----

  lemma EvaluateSymmetric(e: Expr, la: map<string, string>, lb: map<string, string>)
    ensures Evaluate(e, la, lb) == Evaluate(e, lb, la)
  {
  }

  lemma AppliesSymmetric(selector: seq<seq<Expr>>, la: map<string, string>, lb: map<string, string>)
    ensures Applies(selector, la, lb) == Applies(selector, lb, la)
  {
    forall i | 0 <= i < |selector|
      ensures EvaluateTerm(selector[i], la, lb) == EvaluateTerm(selector[i], lb, la)
    {
      forall k | 0 <= k < |selector[i]| { EvaluateSymmetric(selector[i][k], la, lb); }
    }
  }

  lemma {:induction false} PathsSymmetric(props: Props, paths: seq<Path>, a: string, b: string)
    ensures WithPaths(props, paths, a, b) == WithPaths(props, paths, b, a)
  {
    hide PathKey;
    if paths != [] {
      PathsSymmetric(props, paths[..|paths| - 1], a, b);
    }
  }

  lemma {:induction false} BetweenSymmetric(conns: seq<Connection>, a: string, b: string, labels: Labels)
    ensures Between(conns, a, b, labels) == Between(conns, b, a, labels)
  {
    hide Applies, WithPaths, WithProperties, LabelsOf;
    if conns != [] {
      var n := |conns| - 1;
      BetweenSymmetric(conns[..n], a, b, labels);
      AppliesSymmetric(conns[n].selector, LabelsOf(labels, a), LabelsOf(labels, b));
      PathsSymmetric(WithProperties(Between(conns[..n], a, b, labels), conns[n].properties), conns[n].paths, a, b);
    }
  }

  /** Two satellites are derived as one pair, with the properties that apply between them. */
  lemma EachPairOnce(conns: seq<Connection>, sats: set<string>, labels: Labels, a: string, b: string)
    requires a in sats && b in sats && a != b
    ensures ((a, b) in PairsOf(sats)) != ((b, a) in PairsOf(sats))
    ensures (a, b) in PairsOf(sats) <==> Less(a, b)
    ensures var desired := Desired(conns, sats, labels);
            Between(conns, a, b, labels) != map[] <==> (a, b) in desired || (b, a) in desired
    ensures var desired := Desired(conns, sats, labels);
            && ((a, b) in desired ==> desired[(a, b)] == Between(conns, a, b, labels))
            && ((b, a) in desired ==> desired[(b, a)] == Between(conns, a, b, labels))
  {
    hide Between;
    LessTotal(a, b);
    if Less(a, b) { LessAsymmetric(a, b); } else { LessAsymmetric(b, a); }
    BetweenSymmetric(conns, a, b, labels);
  }

  // ---- One pass over the connections LINSTOR has ----

  ghost function DesiredAt(desired: Pairs, p: (string, string)): Props {
    if p in desired then desired[p] else map[]
  }

  predicate BothOnline(online: map<string, bool>, p: (string, string)) {
    p.0 in online && online[p.0] && p.1 in online && online[p.1]
  }

  /** Existing connections are brought in line; missing ones are made where both nodes are online. */
  ghost function Passed(actual: Pairs, desired: Pairs, online: map<string, bool>): Pairs {
    map p | p in actual.Keys + desired.Keys && (p in actual || BothOnline(online, p)) ::
      if p in actual then Apply(actual[p], Diff(actual[p], DesiredAt(desired, p))) else Stamp(desired[p])
  }

  class Connections {
    var actual: Pairs
    /** Requests sent to LINSTOR. */
    var writes: nat

    constructor (actual: Pairs)
      ensures this.actual == actual && writes == 0
    {
      this.actual, this.writes := actual, 0;
    }

    method UpdateExisting(desired: Pairs) returns (remaining: Pairs)
      modifies this
      ensures actual == Updated(old(actual), desired, old(actual).Keys)
      ensures remaining == desired - old(actual).Keys
      ensures (forall p :: p in old(actual) ==> Diff(old(actual)[p], DesiredAt(desired, p)) == None) ==>
              writes == old(writes)
    {
      ghost var was := actual;
      ghost var done: set<(string, string)> := {};
      UpdatedNothing(was, desired);
      hide Diff, Apply, DesiredAt, Updated;
      remaining := desired;
      var rest := actual.Keys;
      while rest != {}
        invariant rest <= was.Keys && done == was.Keys - rest
        invariant actual == Updated(was, desired, done)
        invariant remaining == desired - done
        invariant (forall p :: p in was ==> Diff(was[p], DesiredAt(desired, p)) == None) ==> writes == old(writes)
        decreases |rest|
      {
        var p :| p in rest;
        rest := rest - {p};
        UpdatedOneMore(was, desired, done, p);
        done := done + {p};
        var d := if p in desired then desired[p] else map[];
        remaining := remaining - {p};
        var change := MakePropertiesModification(actual[p], d);
        if change.Some? {
          actual := actual[p := Apply(actual[p], change)];
          writes := writes + 1;
        }
      }
      assert done == was.Keys;
    }

    method CreateMissing(remaining: Pairs, online: map<string, bool>)
      modifies this
      ensures actual == Extended(old(actual), remaining, online, remaining.Keys)
      ensures (forall p :: p in remaining ==> !BothOnline(online, p)) ==> writes == old(writes)
    {
      ghost var done: set<(string, string)> := {};
      var rest := remaining.Keys;
      CreatedNothing(actual, remaining, online);
      hide Stamp, BothOnline, Created, Extended;
      while rest != {}
        invariant rest <= remaining.Keys && done == remaining.Keys - rest
        invariant actual == Extended(old(actual), remaining, online, done)
        invariant (forall p :: p in remaining ==> !BothOnline(online, p)) ==> writes == old(writes)
        decreases |rest|
      {
        var p :| p in rest;
        rest := rest - {p};
        CreatedOneMore(old(actual), remaining, online, done, p);
        done := done + {p};
        if BothOnline(online, p) {
          var stamped := UpdateLastApplyProperty(remaining[p]);
          actual := actual[p := stamped];
          writes := writes + 1;
        }
      }
      assert done == remaining.Keys;
    }

    method ReconcileAll(desired: Pairs, online: map<string, bool>)
      modifies this
      ensures actual == Passed(old(actual), desired, online)
      ensures Quiet(old(actual), desired, online) ==> writes == old(writes)
    {
      hide Diff, Apply, Stamp, DesiredAt, BothOnline;
      ghost var was := actual;
      var remaining := UpdateExisting(desired);
      CreateMissing(remaining, online);
      assert actual == Passed(was, desired, online);
    }
  }

  ghost function Updated(actual: Pairs, desired: Pairs, done: set<(string, string)>): Pairs {
    map p | p in actual :: if p in done then Apply(actual[p], Diff(actual[p], DesiredAt(desired, p))) else actual[p]
  }

  ghost function Created(remaining: Pairs, online: map<string, bool>, done: set<(string, string)>): Pairs {
    map p | p in remaining && p in done && BothOnline(online, p) :: Stamp(remaining[p])
  }

  lemma UpdatedNothing(actual: Pairs, desired: Pairs)
    ensures Updated(actual, desired, {}) == actual
  {
  }

  lemma UpdatedOneMore(actual: Pairs, desired: Pairs, done: set<(string, string)>, p: (string, string))
    requires p in actual && p !in done
    ensures DesiredAt(desired, p) == if p in desired then desired[p] else map[]
    ensures p in Updated(actual, desired, done) && Updated(actual, desired, done)[p] == actual[p]
    ensures Updated(actual, desired, done + {p})
         == Updated(actual, desired, done)[p := Apply(actual[p], Diff(actual[p], DesiredAt(desired, p)))]
    ensures Updated(actual, desired, done)[p := actual[p]] == Updated(actual, desired, done)
    ensures Apply(actual[p], None) == actual[p]
    ensures desired - done - {p} == desired - (done + {p})
  {
    hide Diff;
  }

  ghost function Extended(base: Pairs, remaining: Pairs, online: map<string, bool>,
      done: set<(string, string)>): Pairs {
    base + Created(remaining, online, done)
  }

  lemma CreatedNothing(base: Pairs, remaining: Pairs, online: map<string, bool>)
    ensures Extended(base, remaining, online, {}) == base
  {
    assert Created(remaining, online, {}) == map[];
  }

  lemma CreatedOneMore(base: Pairs, remaining: Pairs, online: map<string, bool>, done: set<(string, string)>,
      p: (string, string))
    requires p in remaining && p !in done
    ensures Extended(base, remaining, online, done + {p})
         == if BothOnline(online, p) then Extended(base, remaining, online, done)[p := Stamp(remaining[p])]
            else Extended(base, remaining, online, done)
  {
    hide Stamp, BothOnline;
  }

  lemma ApplyNone(props: Props)
    ensures Apply(props, None) == props
  {
  }

  /** There is nothing to ask LINSTOR for. */
  ghost predicate Quiet(actual: Pairs, desired: Pairs, online: map<string, bool>) {
    && (forall p :: p in actual ==> Diff(actual[p], DesiredAt(desired, p)) == None)
    && forall p :: p in desired && p !in actual ==> !BothOnline(online, p)
  }

  lemma ReconciledInLine(props: Props, wanted: Props)
    ensures InLine(Apply(props, Diff(props, wanted)), wanted)
    ensures Diff(Apply(props, Diff(props, wanted)), wanted) == None
  {
    Settles(props, wanted);
    StampOwned(wanted);
    StampEmpty(wanted);
    DesireOwns(props, wanted);
    ApplyReconciles(props, wanted);
    assert Happen(props, Desire(wanted)) == Apply(props, Diff(props, wanted));
  }

  lemma StampInLine(wanted: Props)
    ensures InLine(Stamp(wanted), wanted)
    ensures Diff(Stamp(wanted), wanted) == None
  {
    StampOwned(wanted);
    StampEmpty(wanted);
    NothingDiffers(Stamp(wanted), Stamp(wanted));
    if Stamp(wanted) == map[] {
      assert LAST_APPLY !in Stamp(wanted);
      assert wanted.Keys - {LAST_APPLY} == {};
    }
  }

  ghost predicate Up(online: map<string, bool>, n: string) {
    Lookup(online, n) == Some(true)
  }

  lemma PassedAt(actual: Pairs, desired: Pairs, online: map<string, bool>, p: (string, string))
    ensures p in Passed(actual, desired, online)
            <==> p in actual || (p in desired && Up(online, p.0) && Up(online, p.1))
    ensures p in Passed(actual, desired, online) ==>
              var props := Passed(actual, desired, online)[p];
              && InLine(props, DesiredAt(desired, p)) && Diff(props, DesiredAt(desired, p)) == None
              && (p !in actual ==> p in desired && props == Stamp(desired[p]))
  {
    assert BothOnline(online, p) <==> Up(online, p.0) && Up(online, p.1);
    hide InLine, Diff, Stamp, Apply, BothOnline, Up;
    if p in actual {
      ReconciledInLine(actual[p], DesiredAt(desired, p));
    } else if p in desired {
      StampInLine(desired[p]);
    }
  }

  lemma QuietPasses(after: Pairs, desired: Pairs, online: map<string, bool>)
    requires Quiet(after, desired, online)
    ensures Passed(after, desired, online) == after
  {
    hide Diff, Stamp, Apply, BothOnline;
    forall p | p in after { ApplyNone(after[p]); }
  }

  /** A pass makes the operator's properties of every connection the desired ones, also where nothing is
      desired any more; desired ones that are missing are there exactly if both satellites are online, and
      then there is nothing left to do. */
  lemma PassedConnections(actual: Pairs, desired: Pairs, online: map<string, bool>)
    ensures var after := Passed(actual, desired, online);
            && (forall p :: p in after <==> p in actual || (p in desired && Up(online, p.0) && Up(online, p.1)))
            && (forall p :: p in desired && p !in actual && p in after ==> after[p] == Stamp(desired[p]))
            && (forall p :: p in after ==> InLine(after[p], DesiredAt(desired, p)))
            && Quiet(after, desired, online)
            && Passed(after, desired, online) == after
  {
    hide Passed, InLine, Diff, Stamp, DesiredAt;
    var after := Passed(actual, desired, online);
    forall p
      ensures p in after <==> p in actual || (p in desired && Up(online, p.0) && Up(online, p.1))
      ensures p in after ==> InLine(after[p], DesiredAt(desired, p)) && Diff(after[p], DesiredAt(desired, p)) == None
      ensures p in after && p !in actual ==> p in desired && after[p] == Stamp(desired[p])
    {
      PassedAt(actual, desired, online, p);
    }
    QuietPasses(after, desired, online);
  }
}
