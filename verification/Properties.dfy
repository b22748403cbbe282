/** Three-way ownership of LINSTOR properties (pkg/linstorhelper/properties.go).

    The operator shares a property map with other writers. It remembers which keys it owns in one
    more property of the same map, as a JSON list of keys. */
module Properties {
  import opened Wrappers
  import opened Ordering
  import KeyList

  type Props = map<string, string>

  const LAST_APPLY := "Aux/piraeus.io/last-applied"

  /** The modification request LINSTOR understands; it overrides first and deletes afterwards. */
  datatype Change = Change(overrides: Props, deletes: set<string>)

  function Apply(current: Props, change: Option<Change>): Props {
    match change
    case None => current
    case Some(c) => (current + c.overrides) - c.deletes
  }

  /** The desired properties together with the list of their keys; nothing at all for no properties. */
  ghost function Stamp(desired: Props): Props {
    var own := desired - {LAST_APPLY};
    if own == map[] then map[] else own[LAST_APPLY := KeyList.Encode(Sorted(own.Keys))]
  }

  /** The keys an earlier pass recorded as its own. */
  function Owned(current: Props): set<string> {
    if LAST_APPLY !in current then {}
    else match KeyList.Decode(current[LAST_APPLY])
      case None => {}
      case Some(ks) => set k | k in ks
  }

  /** The operator's properties are the wanted ones, and it owns no others. */
  ghost predicate InLine(props: Props, wanted: Props) {
    && (forall k :: k in Stamp(wanted) ==> Lookup(props, k) == Some(Stamp(wanted)[k]))
    && Owned(props) == wanted.Keys - {LAST_APPLY}
  }

  function Get(props: Props, key: string): string {
    if key in props then props[key] else ""
  }

  /** What MakePropertiesModification requests. */
  ghost function Diff(current: Props, desired: Props): Option<Change> {
    var s := Stamp(desired);
    var overrides := Differing(current, s);
    if overrides == map[] && Get(current, LAST_APPLY) == Get(s, LAST_APPLY) then None
    else Some(Change(overrides, (Owned(current) - s.Keys) + (if s == map[] then {LAST_APPLY} else {})))
  }

  /** The properties without the entry `mark`, and their keys in no particular order. */
  method CollectOwn(props: Props, mark: string) returns (result: Props, allKeys: seq<string>)
    ensures result == props - {mark}
    ensures Distinct(allKeys) && Elements(allKeys) == result.Keys
  {
    result := map[];
    allKeys := [];
    var rest := props.Keys;
    while rest != {}
      invariant rest <= props.Keys
      invariant result == map k | k in props && k !in rest && k != mark :: props[k]
      invariant Distinct(allKeys)
      invariant forall k :: k in allKeys <==> k in result
      decreases |rest|
    {
      var k :| k in rest;
      assert k !in allKeys;
      rest := rest - {k};
      if k != mark {
        result := result[k := props[k]];
        allKeys := allKeys + [k];
      }
    }
    assert result == props - {mark};
  }

  method UpdateLastApplyProperty(props: Props) returns (result: Props)
    ensures result == Stamp(props)
  {
    var allKeys;
    result, allKeys := CollectOwn(props, LAST_APPLY);
    if |allKeys| == 0 {
      return map[];
    }
    SortIsSorted(allKeys);
    assert allKeys[0] in result.Keys by { assert allKeys[0] in Elements(allKeys); }
    result := result[LAST_APPLY := KeyList.Encode(Sort(allKeys))];
  }

  ghost function Differing(current: Props, want: Props): Props {
    map k | k in want && Lookup(current, k) != Some(want[k]) :: want[k]
  }

  method CollectOverrides(current: Props, want: Props) returns (overrides: Props)
    ensures overrides == Differing(current, want)
  {
    overrides := map[];
    var rest := want.Keys;
    while rest != {}
      invariant rest <= want.Keys
      invariant overrides == map k | k in want && k !in rest && Lookup(current, k) != Some(want[k]) :: want[k]
      decreases |rest|
    {
      var k :| k in rest;
      rest := rest - {k};
      if k !in current || current[k] != want[k] {
        overrides := overrides[k := want[k]];
      }
    }
  }

  method CollectDeletes(lastApplied: seq<string>, want: Props) returns (deletes: set<string>)
    ensures deletes == Elements(lastApplied) - want.Keys
  {
    deletes := {};
    for i := 0 to |lastApplied|
      invariant deletes == Elements(lastApplied[..i]) - want.Keys
    {
      if lastApplied[i] !in want {
        deletes := deletes + {lastApplied[i]};
      }
      assert lastApplied[..i + 1] == lastApplied[..i] + [lastApplied[i]];
    }
    assert lastApplied[..|lastApplied|] == lastApplied;
  }

  function LastApplied(current: Props): (ks: seq<string>)
    ensures Elements(ks) == Owned(current)
  {
    if LAST_APPLY !in current then []
    else match KeyList.Decode(current[LAST_APPLY])
      case None => []
      case Some(ks) => ks
  }

  method MakePropertiesModification(current: Props, expected: Props) returns (change: Option<Change>)
    ensures change == Diff(current, expected)
  {
    var want := UpdateLastApplyProperty(expected);
    var overrides := CollectOverrides(current, want);
    if overrides == map[] && Get(current, LAST_APPLY) == Get(want, LAST_APPLY) {
      return None;
    }
    var deletes := CollectDeletes(LastApplied(current), want);
    assert deletes == deletes + {};
    if want == map[] {
      deletes := deletes + {LAST_APPLY};
    }
    change := Some(Change(overrides, deletes));
  }

  /** The intended effect: give up what was owned before, own what is desired now. */
  ghost function Reconciled(current: Props, desired: Props): Props {
    (current - Owned(current) - {LAST_APPLY}) + Stamp(desired)
  }

  lemma StampOwned(desired: Props)
    ensures Stamp(desired) != map[] ==> Owned(Stamp(desired)) == desired.Keys - {LAST_APPLY}
    ensures LAST_APPLY in Stamp(desired) <==> Stamp(desired) != map[]
    ensures Stamp(desired) != map[] ==> Stamp(desired)[LAST_APPLY] != ""
    ensures Stamp(desired).Keys - {LAST_APPLY} == desired.Keys - {LAST_APPLY}
  {
    var own := desired - {LAST_APPLY};
    if own != map[] {
      KeyList.RoundTrip(Sorted(own.Keys));
    }
  }

  lemma StampEmpty(desired: Props)
    ensures Stamp(desired) == map[] <==> desired.Keys <= {LAST_APPLY}
  {
    var own := desired - {LAST_APPLY};
    if desired.Keys <= {LAST_APPLY} {
      assert own == map[];
    } else {
      var k :| k in desired && k != LAST_APPLY;
      assert k in own;
    }
  }

  /** Override then delete, on plain maps. */
  lemma OverrideThenDelete(current: Props, s: Props, owned: set<string>, mark: string)
    requires s != map[] ==> mark in s
    ensures (current + Differing(current, s)) - ((owned - s.Keys) + (if s == map[] then {mark} else {}))
         == (current - owned - {mark}) + s
  {
    assert current + Differing(current, s) == current + s;
  }

  lemma NothingDiffers(current: Props, s: Props)
    ensures Differing(current, s) == map[] <==> forall k :: k in s ==> Lookup(current, k) == Some(s[k])
  {
    if Differing(current, s) == map[] {
      forall k | k in s
        ensures Lookup(current, k) == Some(s[k])
      {
        assert k !in Differing(current, s);
      }
    }
  }

  lemma AlreadyThere(current: Props, s: Props, owned: set<string>, mark: string)
    requires forall k :: k in s ==> Lookup(current, k) == Some(s[k])
    requires owned + {mark} == s.Keys
    ensures (current - owned - {mark}) + s == current
  {
  }

  lemma SameMarkSameOwned(current: Props, other: Props)
    requires Lookup(current, LAST_APPLY) == Lookup(other, LAST_APPLY)
    ensures Owned(current) == Owned(other)
  {
  }

  /** A modification has exactly the intended effect, on every map there can be, unless nothing is
      desired and someone else left an empty bookkeeping entry behind: that entry is not removed. */
  lemma ApplyReconciles(current: Props, desired: Props)
    ensures Apply(current, Diff(current, desired)) == Reconciled(current, desired)
       <==> !(desired.Keys <= {LAST_APPLY} && Lookup(current, LAST_APPLY) == Some(""))
  {
    var s := Stamp(desired);
    StampOwned(desired);
    StampEmpty(desired);
    NothingDiffers(current, s);
    if Diff(current, desired).Some? {
      OverrideThenDelete(current, s, Owned(current), LAST_APPLY);
    } else if s != map[] {
      SameMarkSameOwned(current, s);
      AlreadyThere(current, s, Owned(current), LAST_APPLY);
    } else if LAST_APPLY !in current {
      assert Reconciled(current, desired) == current;
    } else {
      assert LAST_APPLY !in Reconciled(current, desired);
    }
  }

  /** Asking again for what was just applied requests nothing, whatever the map looked like before. */
  lemma Settles(current: Props, desired: Props)
    ensures Diff(Apply(current, Diff(current, desired)), desired) == None
  {
    var s := Stamp(desired);
    var after := Apply(current, Diff(current, desired));
    StampOwned(desired);
    StampEmpty(desired);
    ApplyReconciles(current, desired);
    NothingDiffers(after, s);
    if after == Reconciled(current, desired) && s == map[] {
      assert LAST_APPLY !in after;
    }
  }

  /** What is sent for a new object needs no change. */
  lemma StampSettled(wanted: Props)
    ensures Diff(Stamp(wanted), wanted) == None
  {
    NothingDiffers(Stamp(wanted), Stamp(wanted));
  }

  /** What is sent for desired properties, spelled out: nothing for none; otherwise each as it is, and their
      names, in strictly ascending order, as the text of a list under one more name. */
  lemma StampSpelled(desired: Props)
    ensures var s := Stamp(desired); var own := desired.Keys - {"Aux/piraeus.io/last-applied"};
            if own == {} then s == map[]
            else
              && s.Keys == own + {"Aux/piraeus.io/last-applied"}
              && (forall k :: k in own ==> s[k] == desired[k])
              && exists ks :: Ascending(ks) && Elements(ks) == own
                   && s["Aux/piraeus.io/last-applied"] == KeyList.Encode(ks)
                   && KeyList.Decode(s["Aux/piraeus.io/last-applied"]) == Some(ks)
  {
    var own := desired - {LAST_APPLY};
    assert own.Keys == desired.Keys - {LAST_APPLY};
    if own != map[] {
      KeyList.RoundTrip(Sorted(own.Keys));
      assert Ascending(Sorted(own.Keys)) && Elements(Sorted(own.Keys)) == own.Keys;
    } else {
      assert own.Keys == {};
    }
  }

  // ---- Whole histories ----

  /** Something happening to a shared property map: the operator applies a desired map, or another
      writer sets or removes a single property. */
  datatype Event = Desire(props: Props) | Put(key: string, value: string) | Drop(key: string)

  ghost function Happen(current: Props, e: Event): Props {
    match e
    case Desire(d) => Apply(current, Diff(current, d))
    case Put(k, v) => current[k := v]
    case Drop(k) => current - {k}
  }

  ghost function Replay(current: Props, es: seq<Event>): Props {
    if es == [] then current else Happen(Replay(current, es[..|es| - 1]), es[|es| - 1])
  }

  /** Others keep their hands off the bookkeeping entry. */
  ghost predicate Polite(es: seq<Event>) {
    forall e :: e in es && !e.Desire? ==> e.key != LAST_APPLY
  }

  /** What one key should go through, with no bookkeeping: a value and whether the operator owns it. */
  datatype Fate = Fate(value: Option<string>, owned: bool)

  ghost function Endure(f: Fate, k: string, e: Event): Fate {
    match e
    case Desire(d) =>
      if k in d then Fate(Some(d[k]), true) else if f.owned then Fate(None, false) else f
    case Put(k', v) => if k == k' then f.(value := Some(v)) else f
    case Drop(k') => if k == k' then f.(value := None) else f
  }

  ghost function FateOf(f: Fate, k: string, es: seq<Event>): Fate {
    if es == [] then f else Endure(FateOf(f, k, es[..|es| - 1]), k, es[|es| - 1])
  }

  ghost function Observed(current: Props, k: string): Fate {
    Fate(Lookup(current, k), k in Owned(current))
  }

  /** The bookkeeping entry is absent or was written by the operator. */
  ghost predicate Tidy(current: Props) {
    LAST_APPLY in current ==>
      exists d: Props :: Stamp(d) != map[] && current[LAST_APPLY] == Stamp(d)[LAST_APPLY]
  }

  lemma DesireStep(current: Props, d: Props)
    requires Tidy(current)
    ensures Happen(current, Desire(d)) == Reconciled(current, d)
    ensures Tidy(Happen(current, Desire(d)))
    ensures Owned(Happen(current, Desire(d))) == d.Keys - {LAST_APPLY}
  {
    var after := Happen(current, Desire(d));
    StampOwned(d);
    ApplyReconciles(current, d);
    if LAST_APPLY in current {
      var d0: Props :| Stamp(d0) != map[] && current[LAST_APPLY] == Stamp(d0)[LAST_APPLY];
      StampOwned(d0);
    }
    if Stamp(d) != map[] {
      assert after[LAST_APPLY] == Stamp(d)[LAST_APPLY];
    } else {
      assert LAST_APPLY !in after;
    }
  }

  lemma ForeignStep(current: Props, e: Event, k: string)
    requires !e.Desire? && e.key != LAST_APPLY
    ensures Observed(Happen(current, e), k) == Endure(Observed(current, k), k, e)
  {
    SameMarkSameOwned(current, Happen(current, e));
  }

  lemma OperatorStep(current: Props, d: Props, k: string)
    requires k != LAST_APPLY
    ensures Observed(Happen(current, Desire(d)), k) == Endure(Observed(current, k), k, Desire(d))
  {
    DesireOwns(current, d);
    StampOwned(d);
    StampEmpty(d);
    ApplyReconciles(current, d);
    if Apply(current, Diff(current, d)) != Reconciled(current, d) {
      ForeignEmptyEntry(current, d);
    }
  }

  /** An empty bookkeeping entry counts as none. */
  lemma ForeignEmptyEntry(current: Props, d: Props)
    requires d.Keys <= {LAST_APPLY} && Lookup(current, LAST_APPLY) == Some("")
    ensures Owned(current) == {} && Apply(current, Diff(current, d)) == current
  {
    StampEmpty(d);
    NothingDiffers(current, Stamp(d));
  }

  /** After any request of the operator, on any map, it owns exactly what it desires. */
  lemma DesireOwns(current: Props, d: Props)
    ensures Owned(Happen(current, Desire(d))) == d.Keys - {LAST_APPLY}
  {
    var after := Happen(current, Desire(d));
    StampOwned(d);
    StampEmpty(d);
    ApplyReconciles(current, d);
    if after != Reconciled(current, d) {
      ForeignEmptyEntry(current, d);
    } else if Stamp(d) != map[] {
      SameMarkSameOwned(after, Stamp(d));
    }
  }

  /** Every key of the shared map meets the fate it would have if ownership were tracked key by key
      outside the map, over every history of desired maps and foreign writes. */
  lemma {:induction false} HistoryPerKey(start: Props, es: seq<Event>, k: string)
    requires Polite(es) && k != LAST_APPLY
    ensures Observed(Replay(start, es), k) == FateOf(Observed(start, k), k, es)
  {
    if es != [] {
      var n := |es| - 1;
      var before, e := Replay(start, es[..n]), es[n];
      assert e in es;
      HistoryPerKey(start, es[..n], k);
      if e.Desire? {
        OperatorStep(before, e.props, k);
      } else {
        ForeignStep(before, e, k);
      }
    }
  }

  /** Over such a history the bookkeeping entry stays one that the operator wrote. */
  lemma {:induction false} HistoryStaysTidy(start: Props, es: seq<Event>)
    requires Tidy(start) && Polite(es)
    ensures Tidy(Replay(start, es))
  {
    if es != [] {
      var n := |es| - 1;
      var before, e := Replay(start, es[..n]), es[n];
      assert e in es;
      HistoryStaysTidy(start, es[..n]);
      if e.Desire? {
        DesireStep(before, e.props);
      }
    }
  }

  ghost function Desires(ds: seq<Props>): seq<Event> {
    seq(|ds|, i requires 0 <= i < |ds| => Desire(ds[i]))
  }

  ghost function EverDesired(ds: seq<Props>): set<string> {
    set i, k | 0 <= i < |ds| && k in ds[i] :: k
  }

  lemma OneMoreDesire(start: Props, ever: set<string>, owned: set<string>, prev: Props, s: Props, keys: set<string>,
      mark: string)
    requires mark !in start && owned <= ever
    requires prev.Keys <= owned + {mark} && keys + {mark} >= s.Keys >= keys - {mark}
    ensures (((start - ever) + prev) - owned - {mark}) + s == (start - (ever + keys)) + s
  {
  }

  /** The start without what was ever desired, plus what was desired last. */
  ghost function Ended(start: Props, ever: set<string>, last: Props): Props {
    (start - ever) + Stamp(last)
  }

  lemma DesireExtends(start: Props, ever: set<string>, prev: Props, last: Props)
    requires LAST_APPLY !in start && prev.Keys <= ever
    requires var before := Ended(start, ever, prev); Tidy(before) && Owned(before) == prev.Keys - {LAST_APPLY}
    ensures var after := Happen(Ended(start, ever, prev), Desire(last));
            && after == Ended(start, ever + last.Keys, last)
            && Tidy(after) && Owned(after) == last.Keys - {LAST_APPLY} && Diff(after, last) == None
  {
    var before := Ended(start, ever, prev);
    DesireStep(before, last);
    Settles(before, last);
    StampOwned(prev);
    StampOwned(last);
    hide Stamp, Tidy, Diff, Owned;
    OneMoreDesire(start, ever, Owned(before), Stamp(prev), Stamp(last), last.Keys, LAST_APPLY);
  }

  lemma UntouchedStart(start: Props)
    requires LAST_APPLY !in start
    ensures Ended(start, {}, map[]) == start && Tidy(start) && Owned(start) == {}
  {
    var nothing: Props := map[];
    assert nothing - {LAST_APPLY} == map[];
  }

  /** A map that starts without bookkeeping and is reconciled to a series of desired maps ends as the
      start, minus everything ever desired, plus the last desired map with its key list. */
  lemma {:induction false} HistoryOfDesires(start: Props, ds: seq<Props>)
    requires LAST_APPLY !in start && ds != []
    ensures var last := ds[|ds| - 1]; var end := Replay(start, Desires(ds));
            && end == (start - EverDesired(ds)) + Stamp(last)
            && Tidy(end) && Owned(end) == last.Keys - {LAST_APPLY}
            && Diff(end, last) == None
  {
    hide Stamp, Tidy, Diff, Owned, Happen;
    var n := |ds| - 1;
    var last, earlier := ds[n], ds[..n];
    assert Desires(ds)[..n] == Desires(earlier);
    var ever := EverDesired(earlier);
    assert EverDesired(ds) == ever + last.Keys;
    if n == 0 {
      UntouchedStart(start);
      assert ever == {};
      DesireExtends(start, {}, map[], last);
    } else {
      HistoryOfDesires(start, earlier);
      assert earlier[n - 1].Keys <= ever;
      DesireExtends(start, ever, earlier[n - 1], last);
    }
  }
}
