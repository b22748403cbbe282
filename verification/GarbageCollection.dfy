/** Owner-reference garbage collection (pkg/k8sgc/k8sgc.go). */
module GarbageCollection {
  import opened Ordering

  datatype Key = Key(kind: string, namespace: string, name: string)

  /** A reference to an owner in the same namespace as the object that carries it. */
  datatype Ref = Ref(kind: string, name: string, uid: string)

  datatype Obj = Obj(uid: string, owners: seq<Ref>, deleting: bool, finalizers: seq<string>)

  type Store = map<Key, Obj>

  /** The client drops the namespace when it looks up a kind that has none. */
  function OwnerKey(from: Key, ref: Ref, clusterScoped: set<string>): Key {
    Key(ref.kind, if ref.kind in clusterScoped then "" else from.namespace, ref.name)
  }

  predicate Holds(store: Store, from: Key, ref: Ref, clusterScoped: set<string>) {
    var owner := OwnerKey(from, ref, clusterScoped);
    owner in store && !store[owner].deleting && store[owner].uid == ref.uid
  }

  ghost predicate Held(store: Store, from: Key, refs: seq<Ref>, clusterScoped: set<string>) {
    exists r :: r in refs && Holds(store, from, r, clusterScoped)
  }

  ghost predicate Orphan(store: Store, k: Key, o: Obj, clusterScoped: set<string>) {
    o.owners != [] && !o.deleting && !Held(store, k, o.owners, clusterScoped)
  }

  /** Deletion only marks an object that still has finalizers. */
  function Deleted(store: Store, k: Key): Store {
    if k !in store then store
    else if store[k].finalizers != [] then store[k := store[k].(deleting := true)]
    else store - {k}
  }

  ghost function Live(store: Store): (r: set<Key>)
    ensures forall k :: k in r <==> k in store && !store[k].deleting
  {
    set k | k in store && !store[k].deleting
  }

  /** The reference r of k names an object that is there, is not being deleted and has the same UID. */
  ghost predicate Alive(store: Store, k: Key, r: Ref, clusterScoped: set<string>) {
    exists o :: o in store && !store[o].deleting && Names(k, r, o, clusterScoped) && store[o].uid == r.uid
  }

  /** The object of that kind and name in the namespace of k, or without one for kinds that have none. */
  ghost predicate Names(k: Key, r: Ref, o: Key, clusterScoped: set<string>) {
    o.kind == r.kind && o.name == r.name && o.namespace == if r.kind in clusterScoped then "" else k.namespace
  }

  lemma HoldsIsAlive(store: Store, k: Key, r: Ref, clusterScoped: set<string>)
    ensures Holds(store, k, r, clusterScoped) <==> Alive(store, k, r, clusterScoped)
  {
    var o := OwnerKey(k, r, clusterScoped);
    assert Names(k, r, o, clusterScoped);
    forall p | Names(k, r, p, clusterScoped) ensures p == o {}
  }

  /** Every watched member that names owners has one of them, with the same UID, in the set. */
  ghost predicate Supported(s: set<Key>, store: Store, watched: set<string>, clusterScoped: set<string>) {
    && s <= Live(store)
    && forall k :: k in s && k.kind in watched && store[k].owners != [] ==>
         exists r, o :: r in store[k].owners && o in s && Names(k, r, o, clusterScoped) && store[o].uid == r.uid
  }

  /** The store when of all live objects only `keep` stay alive. */
  ghost function Swept(store: Store, keep: set<Key>): Store {
    map k | k in store && (store[k].deleting || k in keep || store[k].finalizers != []) ::
      if k in keep then store[k] else store[k].(deleting := true)
  }

  /** `store` came from `start` by collecting objects that no supported set contains. */
  ghost predicate Progress(start: Store, store: Store, watched: set<string>, clusterScoped: set<string>) {
    && Live(store) <= Live(start)
    && store == Swept(start, Live(store))
    && forall s: set<Key> :: Supported(s, start, watched, clusterScoped) ==> s <= Live(store)
  }

  lemma SameOwner(start: Store, store: Store, from: Key, ref: Ref, clusterScoped: set<string>)
    requires store == Swept(start, Live(store)) && Live(store) <= Live(start)
    ensures Holds(store, from, ref, clusterScoped)
       <==> OwnerKey(from, ref, clusterScoped) in Live(store) && Holds(start, from, ref, clusterScoped)
  {
  }

  lemma CollectProgresses(start: Store, store: Store, k: Key, watched: set<string>, clusterScoped: set<string>)
    requires Progress(start, store, watched, clusterScoped)
    requires k in Live(store) && k.kind in watched && Orphan(store, k, store[k], clusterScoped)
    ensures Live(Deleted(store, k)) == Live(store) - {k}
    ensures Progress(start, Deleted(store, k), watched, clusterScoped)
  {
    assert Live(Deleted(store, k)) == Live(store) - {k};
    assert Deleted(store, k) == Swept(start, Live(store) - {k});
    forall s: set<Key> | Supported(s, start, watched, clusterScoped)
      ensures s <= Live(store) - {k}
    {
    }
  }

  /** Once nothing is left to collect, what is alive supports itself. */
  lemma QuietIsSupported(start: Store, store: Store, watched: set<string>, clusterScoped: set<string>)
    requires Progress(start, store, watched, clusterScoped)
    requires forall k :: k in store && k.kind in watched ==> !Orphan(store, k, store[k], clusterScoped)
    ensures Supported(Live(store), start, watched, clusterScoped)
  {
    forall k | k in Live(store) && k.kind in watched && start[k].owners != []
      ensures exists r, o ::
                r in start[k].owners && o in Live(store) && Names(k, r, o, clusterScoped) && start[o].uid == r.uid
    {
      assert Held(store, k, store[k].owners, clusterScoped);
      var r :| r in store[k].owners && Holds(store, k, r, clusterScoped);
      SameOwner(start, store, k, r, clusterScoped);
      assert Names(k, r, OwnerKey(k, r, clusterScoped), clusterScoped);
    }
  }

  /** What a collected object leaves behind: itself, being deleted, if it has finalizers; nothing otherwise. */
  ghost predicate Gone(was: Store, store: Store, k: Key)
    requires k in was
  {
    if was[k].finalizers == [] then k !in store
    else k in store && store[k] == Obj(was[k].uid, was[k].owners, true, was[k].finalizers)
  }

  /** What is alive after a run is as it was, so is what was being deleted before, and the rest is gone. */
  lemma SweptOrKept(was: Store, store: Store)
    requires store == Swept(was, Live(store)) && Live(store) <= Live(was)
    ensures store.Keys <= was.Keys
    ensures forall k :: k in was ==>
              if was[k].deleting || (k in store && !store[k].deleting) then k in store && store[k] == was[k]
              else Gone(was, store, k)
  {
  }

  lemma SupportedIsAlive(start: Store, store: Store, watched: set<string>, clusterScoped: set<string>)
    requires store == Swept(start, Live(store)) && Live(store) <= Live(start)
    requires Supported(Live(store), start, watched, clusterScoped)
    ensures forall k :: k in store && !store[k].deleting && k.kind in watched && store[k].owners != [] ==>
              exists r :: r in store[k].owners && Alive(store, k, r, clusterScoped)
  {
    forall k | k in store && !store[k].deleting && k.kind in watched && store[k].owners != []
      ensures exists r :: r in store[k].owners && Alive(store, k, r, clusterScoped)
    {
      var r, o :| r in start[k].owners && o in Live(store) && Names(k, r, o, clusterScoped) && start[o].uid == r.uid;
      assert Alive(store, k, r, clusterScoped);
    }
  }

  ghost predicate Largest(keep: set<Key>, store: Store, watched: set<string>, clusterScoped: set<string>) {
    && Supported(keep, store, watched, clusterScoped)
    && forall s: set<Key> :: Supported(s, store, watched, clusterScoped) ==> s <= keep
  }

  /** There is only one outcome, so neither the order of kinds nor that of objects matters. */
  lemma OutcomeIsUnique(store: Store, one: set<Key>, two: set<Key>, watched: set<string>, clusterScoped: set<string>)
    requires Largest(one, store, watched, clusterScoped) && Largest(two, store, watched, clusterScoped)
    ensures Swept(store, one) == Swept(store, two)
  {
    assert one <= two && two <= one;
  }

  ghost function Kinds(toWatch: seq<string>): set<string> {
    set kind | kind in toWatch
  }

  class Collector {
    var store: Store
    /** Outcomes of the API calls to come: true fails the call. No more entries, no more failures. */
    var faults: seq<bool>
    const toWatch: seq<string>
    const clusterScoped: set<string>

    constructor (store: Store, faults: seq<bool>, toWatch: seq<string>, clusterScoped: set<string>)
      ensures this.store == store && this.faults == faults
      ensures this.toWatch == toWatch && this.clusterScoped == clusterScoped
    {
      this.store, this.faults, this.toWatch, this.clusterScoped := store, faults, toWatch, clusterScoped;
    }

    method Call() returns (failed: bool)
      modifies this`faults
      ensures old(faults) == [] ==> !failed && faults == []
    {
      failed := faults != [] && faults[0];
      if faults != [] {
        faults := faults[1..];
      }
    }

    method ShouldCollect(k: Key, o: Obj) returns (collect: bool, failed: bool)
      modifies this`faults
      ensures old(faults) == [] ==> !failed && faults == []
      ensures failed ==> !collect
      ensures !failed ==> (collect <==> Orphan(store, k, o, clusterScoped))
      ensures !failed ==> (collect <==>
                o.owners != [] && !o.deleting && forall r :: r in o.owners ==> !Alive(store, k, r, clusterScoped))
    {
      forall r | r in o.owners { HoldsIsAlive(store, k, r, clusterScoped); }
      if o.owners == [] || o.deleting {
        return false, false;
      }
      for i := 0 to |o.owners|
        invariant forall j :: 0 <= j < i ==> !Holds(store, k, o.owners[j], clusterScoped)
        invariant old(faults) == [] ==> faults == []
      {
        failed := Call();
        if failed {
          return false, true;
        }
        if Holds(store, k, o.owners[i], clusterScoped) {
          return false, false;
        }
      }
      return true, false;
    }

    /** The keys of all objects of a kind, in any order. */
    method List(kind: string) returns (keys: seq<Key>)
      ensures forall k :: k in keys <==> k in store && k.kind == kind
      ensures forall i, j :: 0 <= i < j < |keys| ==> keys[i] != keys[j]
    {
      keys := [];
      var rest := set k | k in store && k.kind == kind;
      while rest != {}
        invariant forall k :: k in keys || k in rest <==> k in store && k.kind == kind
        invariant forall k :: k in keys ==> k !in rest
        invariant forall i, j :: 0 <= i < j < |keys| ==> keys[i] != keys[j]
        decreases |rest|
      {
        var k :| k in rest;
        rest := rest - {k};
        keys := keys + [k];
      }
    }

    /** Looks at every object of one kind once, as listed at the beginning. */
    method SweepKind(kind: string, ghost start: Store) returns (modified: bool, failed: bool)
      requires kind in toWatch
      requires Progress(start, store, Kinds(toWatch), clusterScoped)
      modifies this
      ensures Progress(start, store, Kinds(toWatch), clusterScoped)
      ensures old(faults) == [] ==> !failed && faults == []
      ensures Live(store) <= old(Live(store))
      ensures store != old(store) ==> modified && Live(store) < old(Live(store))
      ensures modified && !failed ==> store != old(store)
      ensures !failed && !modified ==>
                forall k :: k in store && k.kind == kind ==> !Orphan(store, k, store[k], clusterScoped)
    {
      modified := false;
      failed := Call();
      if failed {
        return;
      }
      var items := List(kind);
      var listed := store;
      for i := 0 to |items|
        invariant Progress(start, store, Kinds(toWatch), clusterScoped)
        invariant old(faults) == [] ==> faults == []
        invariant forall j :: i <= j < |items| ==> items[j] in store && store[items[j]] == listed[items[j]]
        invariant Live(store) <= Live(listed)
        invariant !modified ==> store == listed
        invariant modified ==> Live(store) < Live(listed)
        invariant !modified ==> forall j :: 0 <= j < i ==> !Orphan(store, items[j], store[items[j]], clusterScoped)
      {
        var collect;
        collect, failed := ShouldCollect(items[i], listed[items[i]]);
        if failed {
          return;
        }
        if collect {
          modified := true;
          failed := Call();
          if failed {
            return;
          }
          CollectProgresses(start, store, items[i], Kinds(toWatch), clusterScoped);
          store := Deleted(store, items[i]);
        }
      }
    }

    /** Runs until a pass over all kinds finds nothing. Without failures, what stays alive is the
        largest set that supports itself; with failures, nothing of that set was touched. */
    method Run() returns (collected: bool, failed: bool)
      modifies this
      ensures Progress(old(store), store, Kinds(toWatch), clusterScoped)
      ensures old(faults) == [] ==> !failed
      ensures !failed ==> Largest(Live(store), old(store), Kinds(toWatch), clusterScoped)
      ensures store == Swept(old(store), Live(store))
      ensures store.Keys <= old(store).Keys
      ensures forall k :: k in old(store) ==>
                if old(store)[k].deleting || (k in store && !store[k].deleting)
                then k in store && store[k] == old(store)[k]
                else Gone(old(store), store, k)
      ensures !failed ==>
                forall k :: k in store && !store[k].deleting && k.kind in toWatch && store[k].owners != [] ==>
                  exists r :: r in store[k].owners && Alive(store, k, r, clusterScoped)
      ensures store != old(store) ==> collected
      ensures collected && !failed ==> store != old(store)
    {
      collected, failed := false, false;
      ghost var start := store;
      assert start == Swept(start, Live(start));
      while true
        invariant Progress(start, store, Kinds(toWatch), clusterScoped)
        invariant old(faults) == [] ==> faults == []
        invariant collected <==> store != start
        invariant Live(store) <= Live(start)
        invariant collected ==> Live(store) < Live(start)
        decreases |Live(store)|
      {
        var madeModification := false;
        ghost var before := store;
        for i := 0 to |toWatch|
          invariant Progress(start, store, Kinds(toWatch), clusterScoped)
          invariant old(faults) == [] ==> faults == []
          invariant !madeModification ==> store == before
          invariant madeModification ==> Live(store) < Live(before)
          invariant collected <==> store != start
          invariant Live(store) <= Live(start)
          invariant collected ==> Live(store) < Live(start)
          invariant !madeModification ==>
            forall k :: k in store && k.kind in toWatch[..i] ==> !Orphan(store, k, store[k], clusterScoped)
        {
          var modified;
          modified, failed := SweepKind(toWatch[i], start);
          collected := collected || modified;
          madeModification := madeModification || modified;
          if failed {
            SweptOrKept(start, store);
            return;
          }
        }
        assert toWatch[..|toWatch|] == toWatch;
        if !madeModification {
          QuietIsSupported(start, store, Kinds(toWatch), clusterScoped);
          SupportedIsAlive(start, store, Kinds(toWatch), clusterScoped);
          SweptOrKept(start, store);
          return;
        }
        SubsetSize(Live(store), Live(before));
      }
    }
  }
}
