/** Layered satellite configurations (pkg/merge/linstorsatelliteconfiguration.go). */
module Merge {
  import opened Wrappers
  import opened Ordering

  /** A named property or storage pool; everything but the name is its content. */
  datatype Entry = Entry(name: string, content: string)

  /** `affinity` names the nodes that the node affinity matches, if it is set. */
  datatype Config = Config(
    name: string,
    nodeSelector: map<string, string>, affinity: Option<set<string>>,
    properties: seq<Entry>, pools: seq<Entry>,
    template: Option<string>, patches: seq<string>,
    tls: Option<string>, families: Option<seq<string>>,
    separator: string, deletionPolicy: string, strategy: Option<string>)

  datatype Node = Node(name: string, labels: map<string, string>)

  /** The merged configuration while it is being built: named entries are still maps. */
  datatype Layer = Layer(
    matched: seq<string>,
    properties: map<string, Entry>, pools: map<string, Entry>,
    patches: seq<string>,
    tls: Option<string>, families: Option<seq<string>>,
    separator: string, deletionPolicy: string, strategy: Option<string>)

  const NOTHING := Layer([], map[], map[], [], None, None, "", "", None)

  ghost predicate SubsetOf(sub: map<string, string>, super: map<string, string>) {
    forall k :: k in sub ==> k in super && super[k] == sub[k]
  }

  method IsSubsetOf(sub: map<string, string>, super: map<string, string>) returns (r: bool)
    ensures r == SubsetOf(sub, super)
  {
    var rest := sub.Keys;
    while rest != {}
      invariant rest <= sub.Keys
      invariant forall k :: k in sub && k !in rest ==> k in super && super[k] == sub[k]
      decreases |rest|
    {
      var k :| k in rest;
      rest := rest - {k};
      if k !in super || super[k] != sub[k] {
        return false;
      }
    }
    return true;
  }

  ghost predicate Matches(c: Config, node: Node) {
    SubsetOf(c.nodeSelector, node.labels) && (c.affinity.Some? ==> node.name in c.affinity.value)
  }

  function ByName(entries: seq<Entry>): map<string, Entry> {
    if entries == [] then map[]
    else ByName(entries[..|entries| - 1])[entries[|entries| - 1].name := entries[|entries| - 1]]
  }

  function Later<T>(a: Option<T>, b: Option<T>): Option<T> {
    if b.Some? then b else a
  }

  function LaterText(a: string, b: string): string {
    if b != "" then b else a
  }

  /** The layer of one matching configuration. */
  function LayerOf(c: Config): Layer {
    Layer([c.name], ByName(c.properties), ByName(c.pools),
          (if c.template.Some? then [c.template.value] else []) + c.patches,
          c.tls, c.families, c.separator, c.deletionPolicy, c.strategy)
  }

  /** `a` overridden by `b`: patches and names one after the other, otherwise the later one wins. */
  function Override(a: Layer, b: Layer): Layer {
    Layer(a.matched + b.matched, a.properties + b.properties, a.pools + b.pools, a.patches + b.patches,
          Later(a.tls, b.tls), Later(a.families, b.families),
          LaterText(a.separator, b.separator), LaterText(a.deletionPolicy, b.deletionPolicy),
          Later(a.strategy, b.strategy))
  }

  ghost function Merged(configs: seq<Config>, node: Node): Layer {
    if configs == [] then NOTHING
    else
      var earlier, c := Merged(configs[..|configs| - 1], node), configs[|configs| - 1];
      if Matches(c, node) then Override(earlier, LayerOf(c)) else earlier
  }

  // ---- The merge as the operator runs it ----

  method PutAll(m: map<string, Entry>, entries: seq<Entry>) returns (r: map<string, Entry>)
    ensures r == m + ByName(entries)
  {
    r := m;
    for i := 0 to |entries|
      invariant r == m + ByName(entries[..i])
    {
      assert entries[..i + 1][..i] == entries[..i];
      r := r[entries[i].name := entries[i]];
    }
    assert entries[..|entries|] == entries;
  }

  method SatelliteConfigurations(node: Node, configs: seq<Config>)
    returns (result: Layer, properties: seq<Entry>, pools: seq<Entry>)
    ensures result == Merged(configs, node)
    ensures properties == ValuesOf(result.properties) && pools == ValuesOf(result.pools)
  {
    result := NOTHING;
    for i := 0 to |configs|
      invariant result == Merged(configs[..i], node)
    {
      var c := configs[i];
      assert configs[..i + 1][..i] == configs[..i];
      var selected := IsSubsetOf(c.nodeSelector, node.labels);
      if selected && (c.affinity.None? || node.name in c.affinity.value) {
        var props := PutAll(result.properties, c.properties);
        var ps := PutAll(result.pools, c.pools);
        var patches := result.patches;
        if c.template.Some? {
          patches := patches + [c.template.value];
        }
        patches := patches + c.patches;
        assert patches == result.patches + LayerOf(c).patches;
        result := Layer(result.matched + [c.name], props, ps, patches,
                        if c.tls.Some? then c.tls else result.tls,
                        if c.families.Some? then c.families else result.families,
                        if c.separator != "" then c.separator else result.separator,
                        if c.deletionPolicy != "" then c.deletionPolicy else result.deletionPolicy,
                        if c.strategy.Some? then c.strategy else result.strategy);
      }
    }
    assert configs[..|configs|] == configs;
    var names := SortedKeys(result.properties);
    properties := PickValues(result.properties, names);
    names := SortedKeys(result.pools);
    pools := PickValues(result.pools, names);
  }

  // ---- Laws ----

  lemma OverrideAssociative(a: Layer, b: Layer, c: Layer)
    ensures Override(Override(a, b), c) == Override(a, Override(b, c))
  {
    assert (a.properties + b.properties) + c.properties == a.properties + (b.properties + c.properties);
    assert (a.pools + b.pools) + c.pools == a.pools + (b.pools + c.pools);
  }

  lemma OverrideNothing(a: Layer)
    ensures Override(a, NOTHING) == a == Override(NOTHING, a)
  {
    assert a.properties + map[] == a.properties == map[] + a.properties;
    assert a.pools + map[] == a.pools == map[] + a.pools;
  }

  /** Merging two lists one after the other is overriding the merge of the first by that of the second. */
  lemma {:induction false} MergeIsHomomorphic(xs: seq<Config>, ys: seq<Config>, node: Node)
    ensures Merged(xs + ys, node) == Override(Merged(xs, node), Merged(ys, node))
  {
    hide Override, LayerOf, Matches;
    if ys == [] {
      assert xs + ys == xs;
      OverrideNothing(Merged(xs, node));
    } else {
      var n := |ys| - 1;
      var zs := xs + ys;
      assert zs[..|zs| - 1] == xs + ys[..n] && zs[|zs| - 1] == ys[n];
      MergeIsHomomorphic(xs, ys[..n], node);
      OverrideAssociative(Merged(xs, node), Merged(ys[..n], node), LayerOf(ys[n]));
    }
  }

  ghost function Matching(configs: seq<Config>, node: Node): seq<Config> {
    if configs == [] then []
    else
      var last := configs[|configs| - 1];
      Matching(configs[..|configs| - 1], node) + (if Matches(last, node) then [last] else [])
  }

  /** Configurations that do not match have no effect. */
  lemma {:induction false} OnlyMatchingCount(configs: seq<Config>, node: Node)
    ensures Merged(Matching(configs, node), node) == Merged(configs, node)
    ensures |Merged(configs, node).matched| == |Matching(configs, node)|
  {
    if configs != [] {
      var n := |configs| - 1;
      OnlyMatchingCount(configs[..n], node);
      var before := Matching(configs[..n], node);
      if Matches(configs[n], node) {
        var all := before + [configs[n]];
        assert all[..|all| - 1] == before;
        hide Matches, LayerOf;
        assert Merged(all, node) == Override(Merged(before, node), LayerOf(configs[n]));
        assert |LayerOf(configs[n]).matched| == 1 by { LayerNames(configs[n]); }
      } else {
        assert before + [] == before;
      }
    }
  }

  lemma LayerNames(c: Config)
    ensures LayerOf(c).matched == [c.name]
  {
  }

  /** Of several entries with one name, the last one counts. */
  lemma {:induction false} ByNameIsLast(entries: seq<Entry>, k: string)
    ensures k in ByName(entries) <==> exists i :: 0 <= i < |entries| && entries[i].name == k
    ensures k in ByName(entries) ==>
      exists i :: 0 <= i < |entries| && entries[i].name == k && ByName(entries)[k] == entries[i]
               && forall j :: i < j < |entries| ==> entries[j].name != k
  {
    if entries != [] {
      var n := |entries| - 1;
      ByNameIsLast(entries[..n], k);
      if entries[n].name == k {
        assert ByName(entries)[k] == entries[n];
      } else if k in ByName(entries) {
        var i :| 0 <= i < n && entries[..n][i].name == k && ByName(entries[..n])[k] == entries[..n][i]
              && forall j :: i < j < n ==> entries[..n][j].name != k;
        assert entries[i].name == k;
        forall j | i < j < |entries| ensures entries[j].name != k { if j < n { assert entries[..n][j].name != k; } }
      }
    }
  }

  lemma {:induction false} ByNameAppend(a: seq<Entry>, b: seq<Entry>)
    ensures ByName(a + b) == ByName(a) + ByName(b)
  {
    if b == [] {
      assert a + b == a;
    } else {
      var n := |b| - 1;
      assert (a + b)[..|a + b| - 1] == a + b[..n];
      ByNameAppend(a, b[..n]);
    }
  }

  /** All properties of some configurations, and all their storage pools, one after the other. */
  ghost function AllProperties(configs: seq<Config>): seq<Entry> {
    if configs == [] then [] else AllProperties(configs[..|configs| - 1]) + configs[|configs| - 1].properties
  }

  ghost function AllPools(configs: seq<Config>): seq<Entry> {
    if configs == [] then [] else AllPools(configs[..|configs| - 1]) + configs[|configs| - 1].pools
  }

  /** The merged entries are those defined last in the matching configurations. */
  lemma {:induction false} LastDefinitionWins(configs: seq<Config>, node: Node)
    ensures Merged(configs, node).properties == ByName(AllProperties(Matching(configs, node)))
    ensures Merged(configs, node).pools == ByName(AllPools(Matching(configs, node)))
  {
    if configs != [] {
      var n := |configs| - 1;
      LastDefinitionWins(configs[..n], node);
      var before := Matching(configs[..n], node);
      if Matches(configs[n], node) {
        var all := before + [configs[n]];
        assert all[..|all| - 1] == before;
        hide Matches, ByName;
        ByNameAppend(AllProperties(before), configs[n].properties);
        ByNameAppend(AllPools(before), configs[n].pools);
      } else {
        assert before + [] == before;
      }
    }
  }

  /** The last value that is set, or the unset one if none is. */
  ghost predicate LastSet<T>(values: seq<T>, unset: T, r: T) {
    || (r == unset && forall i :: 0 <= i < |values| ==> values[i] == unset)
    || exists i :: 0 <= i < |values| && values[i] == r != unset && forall j :: i < j < |values| ==> values[j] == unset
  }

  lemma LastSetAppend<T>(values: seq<T>, unset: T, r: T, last: T)
    requires LastSet(values, unset, r)
    ensures LastSet(values + [last], unset, if last != unset then last else r)
  {
    var all := values + [last];
    assert forall i :: 0 <= i < |values| ==> all[i] == values[i];
    if last != unset {
      assert all[|values|] == last;
    } else if r != unset {
      var i :| 0 <= i < |values| && values[i] == r && forall j :: i < j < |values| ==> values[j] == unset;
      assert all[i] == r;
    }
  }

  ghost function Each<T>(configs: seq<Config>, f: Config -> T): (r: seq<T>)
    ensures |r| == |configs| && forall i :: 0 <= i < |configs| ==> r[i] == f(configs[i])
  {
    if configs == [] then [] else Each(configs[..|configs| - 1], f) + [f(configs[|configs| - 1])]
  }

  ghost predicate LastSettings(ms: seq<Config>, m: Layer) {
    && LastSet(Each(ms, (c: Config) => c.tls), None, m.tls)
    && LastSet(Each(ms, (c: Config) => c.families), None, m.families)
    && LastSet(Each(ms, (c: Config) => c.separator), "", m.separator)
    && LastSet(Each(ms, (c: Config) => c.deletionPolicy), "", m.deletionPolicy)
    && LastSet(Each(ms, (c: Config) => c.strategy), None, m.strategy)
  }

  lemma EachAppend<T>(ms: seq<Config>, c: Config, f: Config -> T)
    ensures Each(ms + [c], f) == Each(ms, f) + [f(c)]
  {
    assert (ms + [c])[..|ms|] == ms;
  }

  lemma SettingsAppend(ms: seq<Config>, m: Layer, c: Config)
    requires LastSettings(ms, m)
    ensures LastSettings(ms + [c], Override(m, LayerOf(c)))
  {
    hide LastSet, Each;
    EachAppend(ms, c, (c: Config) => c.tls);
    EachAppend(ms, c, (c: Config) => c.families);
    EachAppend(ms, c, (c: Config) => c.separator);
    EachAppend(ms, c, (c: Config) => c.deletionPolicy);
    EachAppend(ms, c, (c: Config) => c.strategy);
    LastSetAppend(Each(ms, (c: Config) => c.tls), None, m.tls, c.tls);
    LastSetAppend(Each(ms, (c: Config) => c.families), None, m.families, c.families);
    LastSetAppend(Each(ms, (c: Config) => c.separator), "", m.separator, c.separator);
    LastSetAppend(Each(ms, (c: Config) => c.deletionPolicy), "", m.deletionPolicy, c.deletionPolicy);
    LastSetAppend(Each(ms, (c: Config) => c.strategy), None, m.strategy, c.strategy);
  }

  /** A setting of the merge is the one set last in the matching configurations. */
  lemma {:induction false} LastSettingWins(configs: seq<Config>, node: Node)
    ensures LastSettings(Matching(configs, node), Merged(configs, node))
  {
    if configs != [] {
      hide LastSettings, Matches, LayerOf, Override;
      var n := |configs| - 1;
      LastSettingWins(configs[..n], node);
      var ms := Matching(configs[..n], node);
      if Matches(configs[n], node) {
        SettingsAppend(ms, Merged(configs[..n], node), configs[n]);
      } else {
        assert ms + [] == ms;
      }
    }
  }

  ghost function AllPatches(configs: seq<Config>): seq<string> {
    if configs == [] then []
    else
      var c := configs[|configs| - 1];
      AllPatches(configs[..|configs| - 1]) + (match c.template case None => [] case Some(t) => [t]) + c.patches
  }

  /** Names and patches of the matching configurations come one after the other, a template before the
      patches beside it. */
  lemma {:induction false} ListsConcatenate(configs: seq<Config>, node: Node)
    ensures Merged(configs, node).matched == Each(Matching(configs, node), (c: Config) => c.name)
    ensures Merged(configs, node).patches == AllPatches(Matching(configs, node))
  {
    hide Matches;
    if configs != [] {
      var n := |configs| - 1;
      ListsConcatenate(configs[..n], node);
      var before := Matching(configs[..n], node);
      if Matches(configs[n], node) {
        var all := before + [configs[n]];
        assert all[..|all| - 1] == before;
      } else {
        assert before + [] == before;
      }
    }
  }

  /** `a` comes before `b` in the list. */
  ghost predicate Follows(configs: seq<Config>, a: Config, b: Config) {
    exists k, l :: 0 <= k < l < |configs| && configs[k] == a && configs[l] == b
  }

  /** `ms` lists some of the configurations in their order. */
  ghost predicate InOrder(ms: seq<Config>, configs: seq<Config>) {
    forall i, j :: 0 <= i < j < |ms| ==> Follows(configs, ms[i], ms[j])
  }

  lemma FollowsAppend(configs: seq<Config>, c: Config, a: Config, b: Config)
    ensures Follows(configs, a, b) ==> Follows(configs + [c], a, b)
    ensures a in configs ==> Follows(configs + [c], a, c)
  {
    var cs := configs + [c];
    assert forall i :: 0 <= i < |configs| ==> cs[i] == configs[i];
    if Follows(configs, a, b) {
      var k, l :| 0 <= k < l < |configs| && configs[k] == a && configs[l] == b;
      assert cs[k] == a && cs[l] == b;
    }
    if a in configs {
      var k :| 0 <= k < |configs| && configs[k] == a;
      assert cs[k] == a && cs[|configs|] == c;
    }
  }

  lemma InOrderAppend(ms: seq<Config>, configs: seq<Config>, c: Config)
    requires InOrder(ms, configs) && forall d :: d in ms ==> d in configs
    ensures InOrder(ms, configs + [c]) && InOrder(ms + [c], configs + [c])
  {
    hide Follows;
    var all := ms + [c];
    forall i, j | 0 <= i < j < |all|
      ensures Follows(configs + [c], all[i], all[j])
    {
      assert all[i] == ms[i] && ms[i] in ms;
      if j < |ms| { assert all[j] == ms[j]; }
      FollowsAppend(configs, c, all[i], all[j]);
    }
    assert forall i :: 0 <= i < |ms| ==> all[i] == ms[i];
  }

  /** Exactly the configurations count whose node selector is among the labels of the node and whose node
      affinity, if there is one, matches it; in the order of the list. */
  lemma {:induction false} MatchingIs(configs: seq<Config>, node: Node)
    ensures forall c :: c in Matching(configs, node) <==>
              && c in configs
              && (forall k :: k in c.nodeSelector ==> Lookup(node.labels, k) == Some(c.nodeSelector[k]))
              && (c.affinity == None || node.name in c.affinity.value)
    ensures InOrder(Matching(configs, node), configs)
  {
    if configs != [] {
      var n := |configs| - 1;
      MatchingIs(configs[..n], node);
      assert configs == configs[..n] + [configs[n]];
      InOrderAppend(Matching(configs[..n], node), configs[..n], configs[n]);
      hide InOrder;
    }
  }

  /** Every entry is filed under its own name. */
  ghost predicate Keyed(m: map<string, Entry>) {
    forall k :: k in m ==> m[k].name == k
  }

  /** Named lists come out in strictly ascending order of names, one entry per name, complete. */
  lemma ListedIsSorted(m: map<string, Entry>)
    requires Keyed(m)
    ensures StrictlyByName(ValuesOf(m))
    ensures forall e :: e in ValuesOf(m) <==> e.name in m && m[e.name] == e
  {
    var keys := Sorted(m.Keys);
    assert forall i :: 0 <= i < |keys| ==> keys[i] in m.Keys && ValuesOf(m)[i].name == keys[i];
    forall k | k in m ensures m[k] in ValuesOf(m) {
      var i :| 0 <= i < |keys| && keys[i] == k;
      assert ValuesOf(m)[i] == m[k];
    }
  }

  lemma {:induction false} ByNameKeyed(entries: seq<Entry>)
    ensures Keyed(ByName(entries))
  {
    if entries != [] {
      ByNameKeyed(entries[..|entries| - 1]);
    }
  }

  lemma {:induction false} MergedKeyed(configs: seq<Config>, node: Node)
    ensures Keyed(Merged(configs, node).properties) && Keyed(Merged(configs, node).pools)
  {
    if configs != [] {
      var c := configs[|configs| - 1];
      MergedKeyed(configs[..|configs| - 1], node);
      ByNameKeyed(c.properties);
      ByNameKeyed(c.pools);
      OverrideKeyed(Merged(configs[..|configs| - 1], node), LayerOf(c));
      hide Matches, Override, Keyed;
    }
  }

  lemma OverrideKeyed(a: Layer, b: Layer)
    ensures Keyed(a.properties) && Keyed(b.properties) ==> Keyed(Override(a, b).properties)
    ensures Keyed(a.pools) && Keyed(b.pools) ==> Keyed(Override(a, b).pools)
  {
  }

  ghost predicate StrictlyByName(list: seq<Entry>) {
    forall i, j :: 0 <= i < j < |list| ==> Less(list[i].name, list[j].name)
  }

  /** The lists of every merge are sorted strictly by name. */
  lemma MergedListsSorted(configs: seq<Config>, node: Node)
    ensures StrictlyByName(ValuesOf(Merged(configs, node).properties))
            && StrictlyByName(ValuesOf(Merged(configs, node).pools))
  {
    MergedKeyed(configs, node);
    hide Merged, ValuesOf;
    ListedIsSorted(Merged(configs, node).properties);
    ListedIsSorted(Merged(configs, node).pools);
  }

  // ---- The order in which configurations are listed ----

  ghost predicate OnePerName(configs: seq<Config>) {
    forall i, j :: 0 <= i < j < |configs| ==> configs[i].name != configs[j].name
  }

  ghost predicate NameSorted(configs: seq<Config>) {
    forall i, j :: 0 <= i < j < |configs| ==> Less(configs[i].name, configs[j].name)
  }

  ghost predicate SameConfigs(xs: seq<Config>, ys: seq<Config>) {
    forall c :: c in xs <==> c in ys
  }

  /** sort.Slice by name in the caller (internal/controller/linstorcluster_controller.go). */
  function SortByName(configs: seq<Config>): (r: seq<Config>)
    requires OnePerName(configs)
    ensures NameSorted(r) && SameConfigs(r, configs)
  {
    if configs == [] then []
    else
      var rest := SortByName(configs[1..]);
      assert forall c :: c in rest ==> c in configs[1..];
      assert forall i :: 0 <= i < |configs[1..]| ==> configs[1..][i].name != configs[0].name;
      InsertByName(configs[0], rest)
  }

  function InsertByName(c: Config, q: seq<Config>): (r: seq<Config>)
    requires NameSorted(q) && forall d :: d in q ==> d.name != c.name
    ensures NameSorted(r)
    ensures forall d :: d in r <==> d == c || d in q
  {
    if q == [] then [c]
    else
      assert q[0] in q;
      LessTotal(c.name, q[0].name);
      if Less(c.name, q[0].name) then
        assert forall j :: 0 <= j < |q| ==> Less(c.name, q[j].name) by {
          forall j | 0 < j < |q| ensures Less(c.name, q[j].name) { LessTransitive(c.name, q[0].name, q[j].name); }
        }
        [c] + q
      else
        var rest := InsertByName(c, q[1..]);
        assert forall d :: d in rest ==> Less(q[0].name, d.name);
        [q[0]] + rest
  }

  lemma {:induction false} NameSortedUnique(p: seq<Config>, q: seq<Config>)
    requires NameSorted(p) && NameSorted(q) && SameConfigs(p, q)
    ensures p == q
  {
    assert q != [] ==> q[0] in q;
    if p == [] {
    } else {
      assert p[0] in p;
      assert p[0] in q;
      var j :| 0 <= j < |q| && q[j] == p[0];
      assert q[0] in p;
      var i :| 0 <= i < |p| && p[i] == q[0];
      if j != 0 {
        LessAsymmetric(q[0].name, p[0].name);
      }
      TailsSame(p, q);
      NameSortedUnique(p[1..], q[1..]);
      assert p == [p[0]] + p[1..] && q == [q[0]] + q[1..];
    }
  }

  lemma TailsSame(p: seq<Config>, q: seq<Config>)
    requires NameSorted(p) && NameSorted(q) && SameConfigs(p, q) && p != [] && q != [] && p[0] == q[0]
    ensures SameConfigs(p[1..], q[1..])
  {
    LessIrreflexive(p[0].name);
    forall c ensures c in p[1..] <==> c in q[1..] {
      assert c in p <==> c == p[0] || c in p[1..];
      assert c in q <==> c == q[0] || c in q[1..];
    }
  }

  /** The order in which the API lists the configurations does not matter. */
  lemma ListingOrderIsIrrelevant(xs: seq<Config>, ys: seq<Config>, node: Node)
    requires OnePerName(xs) && OnePerName(ys) && SameConfigs(xs, ys)
    ensures Merged(SortByName(xs), node) == Merged(SortByName(ys), node)
  {
    NameSortedUnique(SortByName(xs), SortByName(ys));
  }
}
