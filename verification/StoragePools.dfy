/** Keeping the storage pools of a node in line with the spec (internal/controller/linstorsatellite_controller.go). */
module StoragePools {
  import opened Wrappers
  import opened Properties

  const MANAGED_BY := "Aux/piraeus.io/managed-by"
  const OPERATOR := "piraeus-operator"
  const BACKEND := "StorDriver/StorPoolName"

  /** What probing the node says about the backend of a pool that is not registered. */
  datatype Probe = Present | Creatable | DevicesMissing | Absent | ProbeFailed

  /** A pool of the spec; `props` is None when its properties cannot be resolved on the node. */
  datatype Spec = Spec(name: string, props: Option<Props>, backend: string, probe: Probe)

  type Pools = map<string, Props>

  function Wanted(s: Spec): Props
    requires s.props.Some?
  {
    s.props.value[MANAGED_BY := OPERATOR][BACKEND := s.backend]
  }

  function Names(spec: seq<Spec>): set<string> {
    set s | s in spec :: s.name
  }

  ghost predicate OnePerName(spec: seq<Spec>) {
    forall i, j :: 0 <= i < j < |spec| ==> spec[i].name != spec[j].name
  }

  predicate Managed(props: Props) {
    MANAGED_BY in props && props[MANAGED_BY] == OPERATOR
  }

  /** A pool after one pass; registering a pool gives it the stamped properties. */
  ghost function Target(pools: Pools, s: Spec): Props
    requires s.props.Some?
  {
    if s.name in pools then Apply(pools[s.name], Diff(pools[s.name], Wanted(s))) else Stamp(Wanted(s))
  }

  ghost predicate Resolved(spec: seq<Spec>) {
    forall s :: s in spec ==> s.props.Some?
  }

  /** The pools with the first specs applied. */
  ghost function Applied(pools: Pools, spec: seq<Spec>): Pools
    requires Resolved(spec)
  {
    if spec == [] then pools
    else
      assert forall s :: s in spec[..|spec| - 1] ==> s in spec;
      Applied(pools, spec[..|spec| - 1])[spec[|spec| - 1].name := Target(pools, spec[|spec| - 1])]
  }

  ghost function Surplus(pools: Pools, names: set<string>): set<string> {
    set p | p in pools && Managed(pools[p]) && p !in names
  }

  /** The pools after a pass without errors. */
  ghost function Passed(pools: Pools, spec: seq<Spec>): Pools
    requires Resolved(spec)
  {
    Applied(pools, spec) - Surplus(pools, Names(spec))
  }

  /** There is nothing to create, modify or delete. */
  ghost predicate Quiet(pools: Pools, spec: seq<Spec>)
    requires Resolved(spec)
  {
    && (forall s :: s in spec ==> s.name in pools && Diff(pools[s.name], Wanted(s)) == None)
    && Surplus(pools, Names(spec)) == {}
  }

  class Registry {
    var pools: Pools
    /** Creations, modifications and deletions issued. */
    var writes: nat

    constructor (pools: Pools)
      ensures this.pools == pools && writes == 0
    {
      this.pools, this.writes := pools, 0;
    }

    /** One pool of the spec: register it if its backend is there or can be made from devices that are, then
        bring its properties in line. Writes for the pools in `failing` fail, as does reading back a new pool in
        `unreadable`. */
    method ReconcilePool(s: Spec, listed: Pools, failing: set<string>, unreadable: set<string>) returns (failed: bool)
      requires s.props.Some? && Lookup(pools, s.name) == Lookup(listed, s.name)
      modifies this
      ensures pools - {s.name} == old(pools) - {s.name}
      ensures s.name in listed ==>
                && (failed <==> s.name in failing && Diff(listed[s.name], Wanted(s)) != None)
                && Lookup(pools, s.name) == Some(if failed then listed[s.name] else Target(listed, s))
      ensures s.name !in listed ==>
                var registered := (s.probe == Present || s.probe == Creatable) && s.name !in failing;
                && (failed <==> !registered || s.name in unreadable)
                && Lookup(pools, s.name) == if registered then Some(Target(listed, s)) else None
      ensures !failed ==> pools == old(pools)[s.name := Target(listed, s)]
      ensures s.name in listed && Diff(listed[s.name], Wanted(s)) == None ==> !failed && writes == old(writes)
    {
      hide Wanted, Diff, Stamp, Apply;
      TargetIs(listed, s);
      var wanted := Wanted(s);
      var existing: Props;
      if s.name in listed {
        existing := listed[s.name];
      } else {
        if s.probe == ProbeFailed || s.probe == DevicesMissing || s.probe == Absent || s.name in failing {
          return true;
        }
        existing := UpdateLastApplyProperty(wanted);
        pools := pools[s.name := existing];
        writes := writes + 1;
        if s.name in unreadable {
          return true;
        }
      }
      hide Target;
      failed := UpdatePool(s.name, existing, wanted, failing);
    }

    method UpdatePool(name: string, existing: Props, wanted: Props, failing: set<string>) returns (failed: bool)
      requires Lookup(pools, name) == Some(existing)
      modifies this
      ensures !failed ==> pools == old(pools)[name := Apply(existing, Diff(existing, wanted))]
      ensures failed ==> pools == old(pools)
      ensures failed <==> Diff(existing, wanted).Some? && name in failing
      ensures Diff(existing, wanted) == None ==> pools == old(pools) && writes == old(writes)
    {
      hide Diff;
      var change := MakePropertiesModification(existing, wanted);
      if change.Some? {
        if name in failing {
          return true;
        }
        pools := pools[name := Apply(existing, change)];
        writes := writes + 1;
      } else {
        assert pools[name := existing] == pools;
      }
      return false;
    }

    method DeleteSurplus(listed: Pools, names: set<string>, failing: set<string>) returns (failed: bool)
      modifies this
      ensures failed <==> Surplus(listed, names) * failing != {}
      ensures pools == old(pools) - (Surplus(listed, names) - failing)
      ensures Surplus(listed, names) == {} ==> writes == old(writes)
    {
      hide Managed, Surplus;
      failed := false;
      var rest := listed.Keys;
      ghost var due: set<string> := {};
      SurplusListed(listed, names);
      WithoutNothing(old(pools), failing);
      while rest != {}
        invariant rest <= listed.Keys && due == Surplus(listed, names) - rest
        invariant failed <==> due * failing != {}
        invariant pools == old(pools) - (due - failing)
        invariant due == {} ==> writes == old(writes)
        decreases |rest|
      {
        var p :| p in rest;
        SurplusAt(listed, names, p);
        rest := rest - {p};
        if Managed(listed[p]) && p !in names {
          WithoutOneMore(old(pools), due, p, failing);
          due := due + {p};
          if p in failing {
            failed := true;
          } else {
            pools := pools - {p};
            writes := writes + 1;
          }
        }
      }
      assert due == Surplus(listed, names);
    }

    method ReconcileStoragePools(spec: seq<Spec>, failing: set<string>, unreadable: set<string>) returns (failed: bool)
      requires OnePerName(spec)
      modifies this
      ensures !failed ==> Resolved(spec) && pools == Passed(old(pools), spec)
      ensures Resolved(spec) && Quiet(old(pools), spec) ==> !failed && writes == old(writes) && pools == old(pools)
    {
      ghost var was := pools;
      var listed := pools;
      hide Target, Wanted, Diff, Applied, Managed, Surplus;
      failed := false;
      AppliedNothing(was);
      for i := 0 to |spec|
        invariant Resolved(spec[..i])
        invariant !failed ==> pools == Applied(was, spec[..i])
        invariant forall j :: i <= j < |spec| ==> Lookup(pools, spec[j].name) == Lookup(listed, spec[j].name)
        invariant Resolved(spec) && Quiet(was, spec) ==> !failed && writes == old(writes) && pools == was
      {
        var s := spec[i];
        assert s in spec;
        if s.props.None? {
          return true;
        }
        AppliedAppend(was, spec, i);
        ghost var before := pools;
        var poolFailed := ReconcilePool(s, listed, failing, unreadable);
        LookupsKept(before, pools, s.name);
        QuietTarget(was, s);
        failed := failed || poolFailed;
      }
      assert spec[..|spec|] == spec;
      var deleteFailed := DeleteSurplus(listed, Names(spec), failing);
      if !deleteFailed {
        DisjointMinus(Surplus(listed, Names(spec)), failing);
      }
      if Resolved(spec) && Quiet(was, spec) {
        assert was - ({} - failing) == was;
      }
      failed := failed || deleteFailed;
    }
  }

  lemma WithoutNothing(pools: Pools, failing: set<string>)
    ensures pools - ({} - failing) == pools
  {
  }

  lemma WithoutOneMore(pools: Pools, due: set<string>, p: string, failing: set<string>)
    ensures p !in failing ==> pools - (due + {p} - failing) == pools - (due - failing) - {p}
    ensures p in failing ==> due + {p} - failing == due - failing
    ensures (due + {p}) * failing != {} <==> due * failing != {} || p in failing
    ensures due + {p} != {}
  {
    assert p in due + {p};
    assert (due + {p}) * failing == due * failing + (if p in failing then {p} else {});
  }

  lemma SurplusAt(pools: Pools, names: set<string>, p: string)
    ensures p in Surplus(pools, names) <==> p in pools && Managed(pools[p]) && p !in names
  {
  }

  lemma SurplusListed(pools: Pools, names: set<string>)
    ensures Surplus(pools, names) <= pools.Keys
  {
  }

  lemma DisjointMinus<T>(a: set<T>, b: set<T>)
    requires a * b == {}
    ensures a - b == a
  {
    forall x | x in a ensures x !in b {
      assert x in b ==> x in a * b;
    }
  }

  lemma AppliedNothing(pools: Pools)
    ensures Applied(pools, []) == pools
  {
  }

  lemma AppliedAppend(pools: Pools, spec: seq<Spec>, i: nat)
    requires i < |spec| && Resolved(spec[..i]) && spec[i].props.Some?
    ensures Resolved(spec[..i + 1])
    ensures Applied(pools, spec[..i + 1]) == Applied(pools, spec[..i])[spec[i].name := Target(pools, spec[i])]
  {
    assert spec[..i + 1] == spec[..i] + [spec[i]];
    assert spec[..i + 1][..i] == spec[..i];
    hide Target;
  }

  lemma QuietTarget(pools: Pools, s: Spec)
    requires s.props.Some?
    ensures s.name in pools && Diff(pools[s.name], Wanted(s)) == None ==> pools[s.name := Target(pools, s)] == pools
  {
    hide Diff, Wanted;
  }

  lemma TargetIs(pools: Pools, s: Spec)
    requires s.props.Some?
    ensures s.name in pools ==> Target(pools, s) == Apply(pools[s.name], Diff(pools[s.name], Wanted(s)))
    ensures s.name !in pools ==> Target(pools, s) == Stamp(Wanted(s))
    ensures s.name !in pools ==> Target(pools, s) == Apply(Stamp(Wanted(s)), Diff(Stamp(Wanted(s)), Wanted(s)))
    ensures Diff(Stamp(Wanted(s)), Wanted(s)) == None
  {
    hide Wanted, Stamp, Diff;
    StampSettled(Wanted(s));
  }

  lemma LookupsKept(a: Pools, b: Pools, name: string)
    requires a - {name} == b - {name}
    ensures forall p :: p != name ==> Lookup(a, p) == Lookup(b, p)
  {
    forall p | p != name ensures Lookup(a, p) == Lookup(b, p) {
      assert Lookup(a - {name}, p) == Lookup(b - {name}, p);
    }
  }

  // ---- What a pass achieves ----

  lemma {:induction false} AppliedElsewhere(pools: Pools, spec: seq<Spec>, p: string)
    requires Resolved(spec)
    ensures p !in Names(spec) ==> Lookup(Applied(pools, spec), p) == Lookup(pools, p)
    ensures p in Names(spec) ==> p in Applied(pools, spec)
  {
    hide Target;
    if spec != [] {
      var n := |spec| - 1;
      assert forall s :: s in spec[..n] ==> s in spec;
      AppliedElsewhere(pools, spec[..n], p);
      assert Names(spec) == Names(spec[..n]) + {spec[n].name} by {
        assert spec == spec[..n] + [spec[n]];
      }
    }
  }

  lemma {:induction false} AppliedIndex(pools: Pools, spec: seq<Spec>, i: nat)
    requires Resolved(spec) && OnePerName(spec) && i < |spec|
    ensures spec[i].name in Applied(pools, spec) && Applied(pools, spec)[spec[i].name] == Target(pools, spec[i])
  {
    hide Target;
    var n := |spec| - 1;
    assert forall s :: s in spec[..n] ==> s in spec;
    if i < n {
      AppliedIndex(pools, spec[..n], i);
    }
  }

  lemma AppliedAt(pools: Pools, spec: seq<Spec>)
    requires Resolved(spec) && OnePerName(spec)
    ensures Applied(pools, spec).Keys == pools.Keys + Names(spec)
    ensures forall s :: s in spec ==> s.name in Applied(pools, spec) && Applied(pools, spec)[s.name] == Target(pools, s)
    ensures forall p :: p in pools && p !in Names(spec) ==>
            p in Applied(pools, spec) && Applied(pools, spec)[p] == pools[p]
  {
    hide Target, Applied;
    forall p ensures p in Applied(pools, spec) <==> p in pools.Keys + Names(spec) {
      AppliedElsewhere(pools, spec, p);
    }
    forall p | p in pools && p !in Names(spec)
      ensures p in Applied(pools, spec) && Applied(pools, spec)[p] == pools[p]
    {
      AppliedElsewhere(pools, spec, p);
    }
    forall s | s in spec ensures s.name in Applied(pools, spec) && Applied(pools, spec)[s.name] == Target(pools, s) {
      var i :| 0 <= i < |spec| && spec[i] == s;
      AppliedIndex(pools, spec, i);
    }
  }

  lemma TargetInLine(pools: Pools, s: Spec)
    requires s.props.Some?
    ensures InLine(Target(pools, s), Wanted(s))
    ensures Managed(Target(pools, s))
    ensures Diff(Target(pools, s), Wanted(s)) == None
  {
    var w := Wanted(s);
    StampOwned(w);
    StampEmpty(w);
    assert MANAGED_BY in w && MANAGED_BY != LAST_APPLY && MANAGED_BY != BACKEND;
    assert Stamp(w)[MANAGED_BY] == OPERATOR by { assert MANAGED_BY in w - {LAST_APPLY}; }
    if s.name in pools {
      ApplyReconciles(pools[s.name], w);
      Settles(pools[s.name], w);
      SameMarkSameOwned(Reconciled(pools[s.name], w), Stamp(w));
    } else {
      StampSettled(w);
    }
  }

  /** The operator marked the pool as its own. */
  ghost predicate IsOperators(props: Props) {
    Lookup(props, "Aux/piraeus.io/managed-by") == Some("piraeus-operator")
  }

  /** The pool has the properties of its spec, its backend, and the mark of the operator. */
  ghost predicate Follows(props: Props, s: Spec)
    requires s.props.Some?
  {
    && Lookup(props, "StorDriver/StorPoolName") == Some(s.backend)
    && IsOperators(props)
    && forall k :: k in s.props.value && k !in {LAST_APPLY, MANAGED_BY, BACKEND} ==>
         Lookup(props, k) == Some(s.props.value[k])
  }

  lemma InLineFollows(props: Props, s: Spec)
    requires s.props.Some? && InLine(props, Wanted(s))
    ensures Follows(props, s)
  {
    var w := Wanted(s);
    assert MANAGED_BY != LAST_APPLY && BACKEND != LAST_APPLY && MANAGED_BY != BACKEND;
    forall k | k in w && k != LAST_APPLY ensures Lookup(props, k) == Some(w[k]) {
      assert k in w - {LAST_APPLY} && k in Stamp(w) && Stamp(w)[k] == w[k];
    }
  }

  lemma PassedManaged(pools: Pools, spec: seq<Spec>)
    requires Resolved(spec) && OnePerName(spec)
    ensures var after := Passed(pools, spec);
            && (forall p :: p in after && Managed(after[p]) <==> p in Names(spec))
            && (forall s :: s in spec ==> s.name in after && InLine(after[s.name], Wanted(s)))
            && (forall p :: p !in Names(spec) && (p in pools ==> !Managed(pools[p])) ==>
                  Lookup(after, p) == Lookup(pools, p))
            && Quiet(after, spec)
  {
    hide InLine, Diff, Wanted, Target, Applied, Managed;
    AppliedAt(pools, spec);
    var after := Passed(pools, spec);
    forall s | s in spec
      ensures s.name in after && InLine(after[s.name], Wanted(s)) && Managed(after[s.name])
      ensures Diff(after[s.name], Wanted(s)) == None
    {
      TargetInLine(pools, s);
    }
    forall p | p in after && p !in Names(spec)
      ensures !Managed(after[p])
    {
      assert p !in Surplus(pools, Names(spec));
    }
  }

  lemma NamesAre(spec: seq<Spec>, p: string)
    ensures p in Names(spec) <==> exists s :: s in spec && s.name == p
  {
  }

  /** After a pass without errors the managed pools of the node are exactly those of the spec, each with
      its properties in line; pools that are neither are as they were; and another pass has nothing to do. */
  lemma PassedPools(pools: Pools, spec: seq<Spec>)
    requires Resolved(spec) && OnePerName(spec)
    ensures var after := Passed(pools, spec);
            && (forall p :: p in after && IsOperators(after[p]) <==> exists s :: s in spec && s.name == p)
            && (forall s :: s in spec ==>
                  s.name in after && InLine(after[s.name], Wanted(s)) && Follows(after[s.name], s))
            && (forall p :: !(exists s :: s in spec && s.name == p) && (p in pools ==> !IsOperators(pools[p])) ==>
                  Lookup(after, p) == Lookup(pools, p))
            && Quiet(after, spec)
  {
    forall props ensures Managed(props) == IsOperators(props) {}
    hide InLine, Wanted, Managed, IsOperators, Follows, Names, Passed, Quiet, OnePerName;
    forall p { NamesAre(spec, p); }
    PassedManaged(pools, spec);
    var after := Passed(pools, spec);
    forall s | s in spec ensures s.name in after && Follows(after[s.name], s) {
      InLineFollows(after[s.name], s);
    }
  }
}
