/** Go's string order and the sorted key lists built with it. */
module Ordering {

  /** `a < b` on Go strings: comparing code points orders UTF-8 text as comparing its bytes does. */
  predicate Less(a: string, b: string) {
    if b == [] then false
    else if a == [] then true
    else if a[0] == b[0] then Less(a[1..], b[1..])
    else a[0] < b[0]
  }

  lemma {:induction false} LessIrreflexive(a: string)
    ensures !Less(a, a)
  {
    if a != [] {
      LessIrreflexive(a[1..]);
    }
  }

  lemma {:induction false} LessTransitive(a: string, b: string, c: string)
    requires Less(a, b) && Less(b, c)
    ensures Less(a, c)
  {
    if a != [] && a[0] == b[0] && b[0] == c[0] {
      LessTransitive(a[1..], b[1..], c[1..]);
    }
  }

  lemma {:induction false} LessTotal(a: string, b: string)
    ensures a == b || Less(a, b) || Less(b, a)
  {
    if a != [] && b != [] && a[0] == b[0] {
      LessTotal(a[1..], b[1..]);
      assert a == [a[0]] + a[1..] && b == [b[0]] + b[1..];
    }
  }

  lemma LessAsymmetric(a: string, b: string)
    requires Less(a, b)
    ensures !Less(b, a)
  {
    if Less(b, a) {
      LessTransitive(a, b, a);
      LessIrreflexive(a);
    }
  }

  ghost predicate Ascending(q: seq<string>) {
    forall i, j :: 0 <= i < j < |q| ==> Less(q[i], q[j])
  }

  ghost predicate Distinct<T>(q: seq<T>) {
    forall i, j :: 0 <= i < j < |q| ==> q[i] != q[j]
  }

  ghost function Elements<T>(q: seq<T>): set<T> {
    set x | x in q
  }

  lemma {:induction false} DistinctSize<T>(q: seq<T>)
    requires Distinct(q)
    ensures |Elements(q)| == |q|
  {
    if q != [] {
      var n := |q| - 1;
      DistinctSize(q[..n]);
      assert Elements(q) == Elements(q[..n]) + {q[n]};
    }
  }

  lemma SubsetSize<T>(a: set<T>, b: set<T>)
    requires a <= b
    ensures |a| <= |b|
    ensures a != b ==> |a| < |b|
  {
    assert b == a + (b - a);
    if a != b {
      var x :| x in b - a;
      assert |b - a| > 0;
    }
  }

  ghost predicate IsLeast(m: string, s: set<string>) {
    m in s && forall x :: x in s && x != m ==> Less(m, x)
  }

  lemma {:induction false} LeastExists(s: set<string>)
    requires s != {}
    ensures exists m :: IsLeast(m, s)
    decreases |s|
  {
    var x :| x in s;
    if s == {x} {
      assert IsLeast(x, s);
    } else {
      var rest := s - {x};
      assert s == {x} + rest;
      LeastExists(rest);
      var m :| IsLeast(m, rest);
      LessTotal(m, x);
      if Less(m, x) {
        assert IsLeast(m, s);
      } else {
        forall y | y in s && y != x
          ensures Less(x, y)
        {
          if y != m {
            LessTransitive(x, m, y);
          }
        }
        assert IsLeast(x, s);
      }
    }
  }

  /** The elements of `s` in ascending order. */
  ghost function Sorted(s: set<string>): (q: seq<string>)
    ensures Ascending(q)
    ensures forall x :: x in q <==> x in s
    ensures Elements(q) == s
    decreases |s|
  {
    if s == {} then []
    else
      LeastExists(s);
      var m :| IsLeast(m, s);
      var rest := Sorted(s - {m});
      assert forall j :: 0 <= j < |rest| ==> rest[j] in s - {m};
      [m] + rest
  }

  lemma AscendingDistinct(q: seq<string>)
    requires Ascending(q)
    ensures Distinct(q)
  {
    forall i, j | 0 <= i < j < |q|
      ensures q[i] != q[j]
    {
      LessIrreflexive(q[i]);
    }
  }

  lemma {:induction false} AscendingUnique(p: seq<string>, q: seq<string>)
    requires Ascending(p) && Ascending(q)
    requires Elements(p) == Elements(q)
    ensures p == q
  {
    if p == [] {
      AscendingDistinct(q);
      DistinctSize(q);
    } else {
      assert p[0] in Elements(q);
      var j :| 0 <= j < |q| && q[j] == p[0];
      assert q[0] in Elements(p);
      var i :| 0 <= i < |p| && p[i] == q[0];
      if i != 0 || j != 0 {
        if i != 0 { assert Less(p[0], q[0]); LessAsymmetric(p[0], q[0]); } else { LessIrreflexive(q[0]); }
      }
      AscendingDistinct(p);
      AscendingDistinct(q);
      assert Elements(p[1..]) == Elements(p) - {p[0]};
      assert Elements(q[1..]) == Elements(q) - {q[0]};
      AscendingUnique(p[1..], q[1..]);
      assert p == [p[0]] + p[1..] && q == [q[0]] + q[1..];
    }
  }

  function Insert(x: string, q: seq<string>): (r: seq<string>)
    requires Ascending(q) && x !in q
    ensures Ascending(r)
    ensures forall y :: y in r <==> y == x || y in q
  {
    if q == [] then [x]
    else if Less(x, q[0]) then
      assert Ascending([x] + q) by {
        forall j | 0 <= j < |q| ensures Less(x, q[j]) {
          if j > 0 { LessTransitive(x, q[0], q[j]); }
        }
      }
      [x] + q
    else
      var rest := Insert(x, q[1..]);
      assert forall y :: y in rest ==> Less(q[0], y) by {
        LessTotal(x, q[0]);
      }
      [q[0]] + rest
  }

  /** `sort.Strings` on a list without repeated entries. */
  function Sort(q: seq<string>): (r: seq<string>)
    requires Distinct(q)
    ensures Ascending(r)
    ensures forall y :: y in r <==> y in q
  {
    if q == [] then [] else Insert(q[0], Sort(q[1..]))
  }

  lemma SortIsSorted(q: seq<string>)
    requires Distinct(q)
    ensures Sort(q) == Sorted(Elements(q))
  {
    assert Elements(Sort(q)) == Elements(q);
    AscendingUnique(Sort(q), Sorted(Elements(q)));
  }

  /** The values of a map in key order. */
  ghost function ValuesOf<V>(m: map<string, V>): (r: seq<V>)
    ensures |r| == |Sorted(m.Keys)|
    ensures forall i :: 0 <= i < |r| ==> r[i] == m[Sorted(m.Keys)[i]]
  {
    var keys := Sorted(m.Keys);
    assert forall i :: 0 <= i < |keys| ==> keys[i] in m;
    seq(|keys|, i requires 0 <= i < |keys| => m[keys[i]])
  }

  method SortedKeys<V>(m: map<string, V>) returns (keys: seq<string>)
    ensures keys == Sorted(m.Keys)
  {
    keys := [];
    var rest := m.Keys;
    while rest != {}
      invariant rest <= m.Keys && Distinct(keys)
      invariant forall k :: k in keys <==> k in m && k !in rest
      decreases |rest|
    {
      var k :| k in rest;
      assert k !in keys;
      rest := rest - {k};
      keys := keys + [k];
    }
    assert Elements(keys) == m.Keys;
    SortIsSorted(keys);
    keys := Sort(keys);
  }

  method PickValues<V>(m: map<string, V>, keys: seq<string>) returns (values: seq<V>)
    requires keys == Sorted(m.Keys)
    ensures values == ValuesOf(m)
  {
    values := [];
    for i := 0 to |keys|
      invariant |values| == i
      invariant forall j :: 0 <= j < i ==> values[j] == m[keys[j]]
    {
      assert keys[i] in m.Keys;
      values := values + [m[keys[i]]];
    }
  }
}
