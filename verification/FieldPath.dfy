/** References to fields of a Node (pkg/utils/fieldpath/fieldpath.go). */
module FieldPath {
  import opened Wrappers
  import opened Ordering

  /** The metadata a reference can reach. */
  datatype Node = Node(name: string, namespace: string, uid: string, labels: map<string, string>,
      annotations: map<string, string>)

  /** Values, and keys for a wildcard reference only; or an error. */
  datatype Extracted = Extracted(values: seq<string>, keys: Option<seq<string>>) | Invalid

  predicate HasPrefix(s: string, p: string) { p <= s }

  predicate HasSuffix(s: string, p: string) { |p| <= |s| && s[|s| - |p|..] == p }

  /** The position of the first occurrence of `sep`. */
  function IndexOf(s: string, sep: string): (r: Option<nat>)
    ensures r.Some? ==> r.value + |sep| <= |s| && s[r.value..r.value + |sep|] == sep && sep <= s[r.value..]
    ensures r.Some? ==> forall i :: 0 <= i < r.value ==> !(sep <= s[i..])
    ensures r.None? ==> forall i :: 0 <= i <= |s| ==> !(sep <= s[i..])
  {
    if sep <= s then Some(0)
    else if s == [] then None
    else match IndexOf(s[1..], sep)
      case None =>
        assert forall i :: 0 < i <= |s| ==> s[i..] == s[1..][i - 1..];
        None
      case Some(i) =>
        assert forall j :: 0 < j <= |s| ==> s[j..] == s[1..][j - 1..];
        Some(i + 1)
  }

  const OPEN := "['"
  const CLOSE := "']"

  /** Path and subscript, if the reference has a subscript. */
  function SplitMaybeSubscriptedPath(fieldPath: string): (r: Option<(string, string)>)
    ensures r.Some? ==> fieldPath == r.value.0 + OPEN + r.value.1 + CLOSE
  {
    if !HasSuffix(fieldPath, CLOSE) then None
    else
      var s := fieldPath[..|fieldPath| - |CLOSE|];
      match IndexOf(s, OPEN)
      case None => None
      case Some(i) => if i == 0 then None else Some((s[..i], s[i + |OPEN|..]))
  }

  lemma Opens(s: string)
    ensures OPEN <= s <==> |s| >= 2 && s[0] == '[' && s[1] == '\''
  {
  }

  /** The first opening bracket in a printed reference: the one printed, unless the path holds one. */
  lemma FirstOpening(path: string, key: string)
    ensures IndexOf(path + OPEN + key, OPEN).Some? && IndexOf(path + OPEN + key, OPEN).value <= |path|
    ensures IndexOf(path + OPEN + key, OPEN).value == |path| <==> IndexOf(path, OPEN) == None
  {
    var s := path + OPEN + key;
    Opens(s[|path|..]);
    var i := IndexOf(s, OPEN).value;
    Opens(s[i..]);
    match IndexOf(path, OPEN) {
      case None =>
        if i < |path| {
          Opens(path[i..]);
        }
      case Some(j) =>
        Opens(path[j..]);
        Opens(s[j..]);
    }
  }

  /** Printing path and key and splitting again are inverse exactly for non-empty paths that hold no
      opening bracket, whatever the key contains. */
  lemma SplitInvertsPrint(path: string, key: string)
    ensures SplitMaybeSubscriptedPath(path + OPEN + key + CLOSE) == Some((path, key))
       <==> path != [] && IndexOf(path, OPEN) == None
  {
    var s := path + OPEN + key;
    var full := s + CLOSE;
    assert full[..|full| - |CLOSE|] == s && HasSuffix(full, CLOSE);
    FirstOpening(path, key);
    var i := IndexOf(s, OPEN).value;
    hide IndexOf, HasSuffix;
    if i == |path| {
      assert s[..i] == path && s[i + |OPEN|..] == key;
    } else {
      assert |s[..i]| != |path|;
    }
  }

  function FilterPrefix(m: map<string, string>, prefix: string): (r: map<string, string>)
    ensures forall k :: k in r <==> prefix + k in m
    ensures forall k :: k in r ==> r[k] == m[prefix + k]
  {
    map k | k in (set q | q in m && prefix <= q :: q[|prefix|..]) && prefix + k in m :: m[prefix + k]
  }

  /** Sorted keys, and the values in the same order. */
  method MapToSlices(m: map<string, string>) returns (keys: seq<string>, values: seq<string>)
    ensures keys == Sorted(m.Keys) && values == ValuesOf(m)
  {
    keys := SortedKeys(m);
    values := PickValues(m, keys);
  }

  method FilterByPrefix(m: map<string, string>, prefix: string) returns (result: map<string, string>)
    ensures result == FilterPrefix(m, prefix)
  {
    result := map[];
    var rest := m.Keys;
    while rest != {}
      invariant rest <= m.Keys
      invariant forall k :: k in result <==> prefix + k in m && prefix + k !in rest
      invariant forall k :: k in result ==> result[k] == m[prefix + k]
      decreases |rest|
    {
      var k :| k in rest;
      rest := rest - {k};
      if HasPrefix(k, prefix) {
        assert k == prefix + k[|prefix|..];
        forall q | prefix + q == k ensures q == k[|prefix|..] { assert (prefix + q)[|prefix|..] == q; }
        result := result[k[|prefix|..] := m[k]];
      } else {
        forall q ensures prefix + q != k { assert prefix <= prefix + q; }
      }
    }
  }

  ghost function Wildcard(m: map<string, string>): Extracted {
    Extracted(ValuesOf(m), Some(Sorted(m.Keys)))
  }

  function Single(m: map<string, string>, key: string): Extracted {
    Extracted(if key in m then [m[key]] else [], None)
  }

  /** The check for qualified names, which annotation keys pass when their lower-case form does. */
  datatype KeyRules = KeyRules(annotationKey: string -> bool, labelKey: string -> bool)

  /** What a reference yields on a node. */
  ghost function ExtractFieldPath(node: Node, fieldPath: string, rules: KeyRules): Extracted {
    match SplitMaybeSubscriptedPath(fieldPath)
    case Some((path, key)) =>
      if path == "metadata.annotations" then Subscripted(node.annotations, key, rules.annotationKey(key))
      else if path == "metadata.labels" then Subscripted(node.labels, key, rules.labelKey(key))
      else Invalid
    case None =>
      if fieldPath == "metadata.annotations" then Wildcard(node.annotations)
      else if fieldPath == "metadata.labels" then Wildcard(node.labels)
      else if fieldPath == "metadata.name" then Extracted([node.name], None)
      else if fieldPath == "metadata.namespace" then Extracted([node.namespace], None)
      else if fieldPath == "metadata.uid" then Extracted([node.uid], None)
      else Invalid
  }

  ghost function Subscripted(m: map<string, string>, key: string, valid: bool): Extracted {
    if HasSuffix(key, "*") then Wildcard(FilterPrefix(m, key[..|key| - 1]))
    else if valid then Single(m, key)
    else Invalid
  }

  method ExtractSubscripted(m: map<string, string>, key: string, valid: bool) returns (x: Extracted)
    ensures x == Subscripted(m, key, valid)
  {
    if HasSuffix(key, "*") {
      var filtered := FilterByPrefix(m, key[..|key| - 1]);
      var keys, values := MapToSlices(filtered);
      return Extracted(values, Some(keys));
    }
    if !valid {
      return Invalid;
    }
    return Single(m, key);
  }

  method Extract(node: Node, fieldPath: string, rules: KeyRules) returns (x: Extracted)
    ensures x == ExtractFieldPath(node, fieldPath, rules)
  {
    hide Subscripted;
    match SplitMaybeSubscriptedPath(fieldPath) {
      case Some((path, key)) =>
        if path == "metadata.annotations" {
          x := ExtractSubscripted(node.annotations, key, rules.annotationKey(key));
        } else if path == "metadata.labels" {
          x := ExtractSubscripted(node.labels, key, rules.labelKey(key));
        } else {
          x := Invalid;
        }
      case None =>
        x := ExtractPlain(node, fieldPath, rules);
    }
  }

  method ExtractPlain(node: Node, fieldPath: string, rules: KeyRules) returns (x: Extracted)
    requires SplitMaybeSubscriptedPath(fieldPath).None?
    ensures x == ExtractFieldPath(node, fieldPath, rules)
  {
    hide SplitMaybeSubscriptedPath, Subscripted, ValuesOf, Sorted;
    if fieldPath == "metadata.annotations" {
      var keys, values := MapToSlices(node.annotations);
      return Extracted(values, Some(keys));
    }
    if fieldPath == "metadata.labels" {
      var keys, values := MapToSlices(node.labels);
      return Extracted(values, Some(keys));
    }
    return if fieldPath == "metadata.name" then Extracted([node.name], None)
      else if fieldPath == "metadata.namespace" then Extracted([node.namespace], None)
      else if fieldPath == "metadata.uid" then Extracted([node.uid], None)
      else Invalid;
  }

  lemma SubscriptKind(a: map<string, string>, b: map<string, string>, key: string, valid: bool)
    ensures var x, y := Subscripted(a, key, valid), Subscripted(b, key, valid);
            x.Invalid? == y.Invalid? && (x.Extracted? ==> x.keys.Some? == y.keys.Some?)
  {
    hide ValuesOf, Sorted, FilterPrefix, HasSuffix;
  }

  /** Whether a reference is an error, and whether it is a wildcard, does not depend on the node. */
  lemma KindDependsOnPathOnly(a: Node, b: Node, fieldPath: string, rules: KeyRules)
    ensures var x, y := ExtractFieldPath(a, fieldPath, rules), ExtractFieldPath(b, fieldPath, rules);
            && x.Invalid? == y.Invalid?
            && (x.Extracted? ==> x.keys.Some? == y.keys.Some?)
  {
    hide ValuesOf, Sorted, SplitMaybeSubscriptedPath, Subscripted;
    match SplitMaybeSubscriptedPath(fieldPath)
    case Some((path, key)) =>
      SubscriptKind(a.annotations, b.annotations, key, rules.annotationKey(key));
      SubscriptKind(a.labels, b.labels, key, rules.labelKey(key));
    case None =>
  }

  ghost predicate HasOneValue(x: Extracted) {
    x.Extracted? && |x.values| == 1
  }

  /** A reference that is not a wildcard has exactly one value on some node. */
  lemma SomeNodeHasIt(fieldPath: string, rules: KeyRules)
    requires var x := ExtractFieldPath(Node("", "", "", map[], map[]), fieldPath, rules); x.Extracted? && x.keys.None?
    ensures exists node :: HasOneValue(ExtractFieldPath(node, fieldPath, rules))
  {
    match SplitMaybeSubscriptedPath(fieldPath)
    case Some((path, key)) =>
      var node := Node("", "", "", map[key := "x"], map[key := "x"]);
      assert HasOneValue(ExtractFieldPath(node, fieldPath, rules));
    case None =>
      assert HasOneValue(ExtractFieldPath(Node("", "", "", map[], map[]), fieldPath, rules));
  }

  lemma SubscriptParallel(m: map<string, string>, key: string, valid: bool)
    ensures var x := Subscripted(m, key, valid); x.Extracted? && x.keys.Some? ==> Parallel(x)
  {
    hide Sorted, FilterPrefix, HasSuffix;
  }

  /** As many values as keys, which are sorted. */
  ghost predicate Parallel(x: Extracted)
    requires x.Extracted? && x.keys.Some?
  {
    |x.values| == |x.keys.value| && Ascending(x.keys.value)
  }

  /** A wildcard has as many values as keys on every node, sorted by key. */
  lemma WildcardIsParallel(node: Node, fieldPath: string, rules: KeyRules)
    ensures var x := ExtractFieldPath(node, fieldPath, rules);
            x.Extracted? && x.keys.Some? ==> Parallel(x)
  {
    hide SplitMaybeSubscriptedPath, Subscripted, Sorted;
    match SplitMaybeSubscriptedPath(fieldPath)
    case Some((path, key)) =>
      SubscriptParallel(node.annotations, key, rules.annotationKey(key));
      SubscriptParallel(node.labels, key, rules.labelKey(key));
    case None =>
  }

  // ---- What references mean ----

  /** A label or annotation by its key: all whose keys begin with what stands before a final star, with the
      rest of their keys, in ascending order; or the one of that key, if it is there and the key is valid. */
  ghost predicate Subscript(m: map<string, string>, key: string, valid: bool, x: Extracted) {
    if key != "" && key[|key| - 1] == '*' then
      var prefix := key[..|key| - 1];
      && x.Extracted? && x.keys.Some? && |x.values| == |x.keys.value| && Ascending(x.keys.value)
      && (forall k :: k in x.keys.value <==> prefix + k in m)
      && forall i :: 0 <= i < |x.values| ==> prefix + x.keys.value[i] in m && x.values[i] == m[prefix + x.keys.value[i]]
    else if !valid then x == Invalid
    else x == Extracted(if key in m then [m[key]] else [], None)
  }

  lemma SubscriptedMeans(m: map<string, string>, key: string, valid: bool)
    ensures Subscript(m, key, valid, Subscripted(m, key, valid))
  {
    if key != "" && key[|key| - 1] == '*' {
      var prefix := key[..|key| - 1];
      assert key[|key| - 1..] == "*";
      var found := FilterPrefix(m, prefix);
      WildcardMeans(found);
      hide ValuesOf, Sorted;
      assert Subscripted(m, key, valid) == Wildcard(found);
    }
  }

  /** A wildcard lists the keys in ascending order, and the value of each. */
  lemma WildcardMeans(m: map<string, string>)
    ensures var x := Wildcard(m);
            && x.Extracted? && x.keys.Some? && |x.values| == |x.keys.value| && Ascending(x.keys.value)
            && (forall k :: k in x.keys.value <==> k in m)
            && forall i :: 0 <= i < |x.values| ==> x.keys.value[i] in m && x.values[i] == m[x.keys.value[i]]
  {
    var keys := Sorted(m.Keys);
    forall k ensures k in keys <==> k in m { assert k in Elements(keys) <==> k in m.Keys; }
  }

  lemma NoOpening(path: string)
    requires '[' !in path
    ensures IndexOf(path, OPEN) == None
  {
    forall i | 0 <= i <= |path| ensures !(OPEN <= path[i..]) {
      Opens(path[i..]);
      if i < |path| { assert path[i] in path; }
    }
  }

  lemma SplitOfPrinted(path: string, key: string)
    requires path != [] && '[' !in path
    ensures SplitMaybeSubscriptedPath(path + OPEN + key + CLOSE) == Some((path, key))
  {
    NoOpening(path);
    SplitInvertsPrint(path, key);
    hide SplitMaybeSubscriptedPath, IndexOf;
  }

  /** A reference to labels or annotations by a key, as users write it. */
  lemma SubscriptedReference(node: Node, path: string, key: string, rules: KeyRules)
    ensures path == "metadata.labels" ==>
              Subscript(node.labels, key, rules.labelKey(key), ExtractFieldPath(node, path + "['" + key + "']", rules))
    ensures path == "metadata.annotations" ==>
              Subscript(node.annotations, key, rules.annotationKey(key),
                        ExtractFieldPath(node, path + "['" + key + "']", rules))
    ensures path != [] && '[' !in path && path != "metadata.labels" && path != "metadata.annotations" ==>
              ExtractFieldPath(node, path + "['" + key + "']", rules) == Invalid
  {
    SubscriptedMeans(node.labels, key, rules.labelKey(key));
    SubscriptedMeans(node.annotations, key, rules.annotationKey(key));
    assert path == "metadata.labels" || path == "metadata.annotations" ==> path != [] && '[' !in path;
    hide Subscripted, SplitMaybeSubscriptedPath, Subscript;
    if path != [] && '[' !in path {
      SplitOfPrinted(path, key);
    }
  }

  lemma NotSubscripted(s: string)
    requires s == [] || s[|s| - 1] != ']'
    ensures SplitMaybeSubscriptedPath(s) == None
  {
    if |s| >= 2 { assert s[|s| - 2..][1] == s[|s| - 1]; }
  }

  /** The references without a subscript, and that there are no others. */
  lemma PlainReferences(node: Node, rules: KeyRules)
    ensures ExtractFieldPath(node, "metadata.name", rules) == Extracted([node.name], None)
    ensures ExtractFieldPath(node, "metadata.namespace", rules) == Extracted([node.namespace], None)
    ensures ExtractFieldPath(node, "metadata.uid", rules) == Extracted([node.uid], None)
    ensures ExtractFieldPath(node, "metadata.labels", rules) == Wildcard(node.labels)
    ensures ExtractFieldPath(node, "metadata.annotations", rules) == Wildcard(node.annotations)
    ensures forall p: string :: SplitMaybeSubscriptedPath(p) == None
              && p !in {"metadata.name", "metadata.namespace", "metadata.uid", "metadata.labels",
                  "metadata.annotations"}
              ==> ExtractFieldPath(node, p, rules) == Invalid
  {
    NotSubscripted("metadata.name");
    NotSubscripted("metadata.namespace");
    NotSubscripted("metadata.uid");
    NotSubscripted("metadata.labels");
    NotSubscripted("metadata.annotations");
    hide SplitMaybeSubscriptedPath, Wildcard;
  }
}
