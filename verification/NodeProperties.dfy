/** Property lists as the webhook validates them (internal/webhook/v1/properties.go) and as every node
    resolves them (pkg/utils/property_resolution.go). */
module NodeProperties {
  import opened Wrappers
  import opened Ordering
  import opened FieldPath

  datatype Expand = Expand(ref: string, nameTemplate: string, valueTemplate: string, delimiter: string)

  datatype Property = Property(name: string, value: string, valueFrom: Option<string>, expandFrom: Option<Expand>,
      optional: bool)

  /** strings.ReplaceAll for a pattern that is not empty. */
  function ReplaceAll(s: string, pattern: string, replacement: string): string
    requires pattern != []
    decreases |s|
  {
    if s == [] then []
    else if pattern <= s then replacement + ReplaceAll(s[|pattern|..], pattern, replacement)
    else [s[0]] + ReplaceAll(s[1..], pattern, replacement)
  }

  function Fill(template: string, key: string, value: string): string {
    ReplaceAll(ReplaceAll(template, "$1", key), "$2", value)
  }

  function Join(parts: seq<string>, delimiter: string): string {
    if parts == [] then "" else if |parts| == 1 then parts[0] else parts[0] + delimiter + Join(parts[1..], delimiter)
  }

  /** Resolving one property onto what has been resolved before it; None is an error. */
  ghost function ResolveOne(node: Node, p: Property, done: map<string, string>, rules: KeyRules)
    : Option<map<string, string>>
  {
    if p.value != "" then Some(done[p.name := p.value])
    else if p.valueFrom.Some? then
      match ExtractFieldPath(node, p.valueFrom.value, rules)
      case Invalid => None
      case Extracted(values, keys) =>
        if keys.Some? then None
        else if values != [] then Some(done[p.name := values[0]])
        else if !p.optional then Some(done[p.name := ""])
        else Some(done)
    else if p.expandFrom.Some? then
      match ExtractFieldPath(node, p.expandFrom.value.ref, rules)
      case Invalid => None
      case Extracted(values, keys) =>
        var ks := if keys.Some? then keys.value else [];
        if |ks| != |values| then None
        else Some(ExpandAll(p, ks, values, done))
    else Some(done)
  }

  ghost function ExpandAll(p: Property, keys: seq<string>, values: seq<string>, done: map<string, string>)
    : map<string, string>
    requires p.expandFrom.Some? && |keys| == |values|
  {
    var e := p.expandFrom.value;
    if e.nameTemplate != "" then ExpandNames(p.name, e, keys, values, done)
    else done[p.name := Join(seq(|keys|, i requires 0 <= i < |keys| => Fill(e.valueTemplate, keys[i], values[i])),
        e.delimiter)]
  }

  ghost function ExpandNames(name: string, e: Expand, keys: seq<string>, values: seq<string>, done: map<string, string>)
    : map<string, string>
    requires |keys| == |values|
  {
    if keys == [] then done
    else
      var n := |keys| - 1;
      ExpandNames(name, e, keys[..n], values[..n], done)
        [name + Fill(e.nameTemplate, keys[n], values[n]) := Fill(e.valueTemplate, keys[n], values[n])]
  }

  ghost function ResolveNodeProperties(node: Node, props: seq<Property>, rules: KeyRules): Option<map<string, string>> {
    if props == [] then Some(map[])
    else match ResolveNodeProperties(node, props[..|props| - 1], rules)
      case None => None
      case Some(done) => ResolveOne(node, props[|props| - 1], done, rules)
  }

  method ExpandNamed(name: string, e: Expand, keys: seq<string>, values: seq<string>, done: map<string, string>)
    returns (result: map<string, string>)
    requires |keys| == |values|
    ensures result == ExpandNames(name, e, keys, values, done)
  {
    result := done;
    for j := 0 to |keys|
      invariant result == ExpandNames(name, e, keys[..j], values[..j], done)
    {
      assert keys[..j + 1][..j] == keys[..j] && values[..j + 1][..j] == values[..j];
      result := result[name + Fill(e.nameTemplate, keys[j], values[j]) := Fill(e.valueTemplate, keys[j], values[j])];
    }
    assert keys[..|keys|] == keys && values[..|values|] == values;
  }

  method ExpandJoined(e: Expand, keys: seq<string>, values: seq<string>) returns (toJoin: seq<string>)
    requires |keys| == |values|
    ensures toJoin == seq(|keys|, i requires 0 <= i < |keys| => Fill(e.valueTemplate, keys[i], values[i]))
  {
    toJoin := [];
    for j := 0 to |keys|
      invariant |toJoin| == j
      invariant forall i :: 0 <= i < j ==> toJoin[i] == Fill(e.valueTemplate, keys[i], values[i])
    {
      toJoin := toJoin + [Fill(e.valueTemplate, keys[j], values[j])];
    }
  }

  method ResolveProperty(node: Node, p: Property, done: map<string, string>, rules: KeyRules)
    returns (r: Option<map<string, string>>)
    ensures r == ResolveOne(node, p, done, rules)
  {
    hide ExtractFieldPath;
    if p.value != "" {
      return Some(done[p.name := p.value]);
    }
    if p.valueFrom.Some? {
      var x := Extract(node, p.valueFrom.value, rules);
      if x.Invalid? || x.keys.Some? {
        return None;
      }
      if |x.values| > 0 {
        return Some(done[p.name := x.values[0]]);
      }
      return if p.optional then Some(done) else Some(done[p.name := ""]);
    }
    if p.expandFrom.Some? {
      var e := p.expandFrom.value;
      var x := Extract(node, e.ref, rules);
      if x.Invalid? {
        return None;
      }
      var keys := if x.keys.Some? then x.keys.value else [];
      if |keys| != |x.values| {
        return None;
      }
      if e.nameTemplate != "" {
        var named := ExpandNamed(p.name, e, keys, x.values, done);
        return Some(named);
      }
      var toJoin := ExpandJoined(e, keys, x.values);
      return Some(done[p.name := Join(toJoin, e.delimiter)]);
    }
    return Some(done);
  }

  method Resolve(node: Node, props: seq<Property>, rules: KeyRules) returns (r: Option<map<string, string>>)
    ensures r == ResolveNodeProperties(node, props, rules)
  {
    hide ResolveOne;
    r := Some(map[]);
    for i := 0 to |props|
      invariant r == ResolveNodeProperties(node, props[..i], rules) && r.Some?
    {
      assert props[..i + 1][..i] == props[..i];
      r := ResolveProperty(node, props[i], r.value, rules);
      if r.None? {
        FailureStays(node, props, i + 1, rules);
        return None;
      }
    }
    assert props[..|props|] == props;
  }

  lemma {:induction false} FailureStays(node: Node, props: seq<Property>, i: nat, rules: KeyRules)
    requires i <= |props| && ResolveNodeProperties(node, props[..i], rules).None?
    ensures ResolveNodeProperties(node, props, rules).None?
  {
    hide ResolveOne;
    if i == |props| {
      assert props[..i] == props;
    } else {
      assert props[..|props| - 1][..i] == props[..i];
      FailureStays(node, props[..|props| - 1], i, rules);
    }
  }

  const NO_NODE := Node("", "", "", map[], map[])

  function SourcesSet(p: Property): nat {
    (if p.value != "" then 1 else 0) + (if p.valueFrom.Some? then 1 else 0) + (if p.expandFrom.Some? then 1 else 0)
  }

  datatype Complaint = NotOneSource | BadReference | WildcardNotAllowed | WildcardRequired | TwoOutputs

  /** The complaints about one property; references are tried on an empty node only. */
  ghost function ValidateOne(p: Property, rules: KeyRules): seq<Complaint> {
    (if SourcesSet(p) != 1 then [NotOneSource] else [])
    + (if p.valueFrom.None? then [] else
         match ExtractFieldPath(NO_NODE, p.valueFrom.value, rules)
         case Invalid => [BadReference]
         case Extracted(_, keys) => if keys.Some? then [WildcardNotAllowed] else [])
    + (if p.expandFrom.None? then [] else
         (match ExtractFieldPath(NO_NODE, p.expandFrom.value.ref, rules)
          case Invalid => [BadReference, WildcardRequired]
          case Extracted(_, keys) => if keys.None? then [WildcardRequired] else [])
         + (if p.expandFrom.value.nameTemplate != "" && p.expandFrom.value.delimiter != "" then [TwoOutputs] else []))
  }

  ghost function ValidateNodeProperties(props: seq<Property>, rules: KeyRules): seq<Complaint> {
    if props == [] then []
    else ValidateNodeProperties(props[..|props| - 1], rules) + ValidateOne(props[|props| - 1], rules)
  }

  method Validate(props: seq<Property>, rules: KeyRules) returns (result: seq<Complaint>)
    ensures result == ValidateNodeProperties(props, rules)
  {
    hide ExtractFieldPath;
    result := [];
    for i := 0 to |props|
      invariant result == ValidateNodeProperties(props[..i], rules)
    {
      assert props[..i + 1][..i] == props[..i];
      var errs := ValidateProperty(props[i], rules);
      result := result + errs;
    }
    assert props[..|props|] == props;
  }

  method ValidateProperty(p: Property, rules: KeyRules) returns (errs: seq<Complaint>)
    ensures errs == ValidateOne(p, rules)
  {
    hide ExtractFieldPath;
    var sourcesSet := 0;
    if p.value != "" {
      sourcesSet := sourcesSet + 1;
    }
    if p.valueFrom.Some? {
      sourcesSet := sourcesSet + 1;
    }
    if p.expandFrom.Some? {
      sourcesSet := sourcesSet + 1;
    }
    errs := if sourcesSet != 1 then [NotOneSource] else [];
    if p.valueFrom.Some? {
      var x := Extract(NO_NODE, p.valueFrom.value, rules);
      if x.Invalid? {
        errs := errs + [BadReference];
      } else if x.keys.Some? {
        errs := errs + [WildcardNotAllowed];
      }
    }
    if p.expandFrom.Some? {
      var x := Extract(NO_NODE, p.expandFrom.value.ref, rules);
      if x.Invalid? {
        errs := errs + [BadReference, WildcardRequired];
      } else if x.keys.None? {
        errs := errs + [WildcardRequired];
      }
      if p.expandFrom.value.nameTemplate != "" && p.expandFrom.value.delimiter != "" {
        errs := errs + [TwoOutputs];
      }
    }
  }

  /** One source, and only one of name template and delimiter: what no node can tell. */
  predicate WellFormed(p: Property) {
    && SourcesSet(p) == 1
    && !(p.expandFrom.Some? && p.expandFrom.value.nameTemplate != "" && p.expandFrom.value.delimiter != "")
  }

  ghost predicate ResolvesEverywhere(p: Property, rules: KeyRules) {
    forall node, done :: ResolveOne(node, p, done, rules).Some?
  }

  lemma AcceptedResolves(p: Property, rules: KeyRules)
    requires ValidateOne(p, rules) == []
    ensures WellFormed(p) && ResolvesEverywhere(p, rules)
  {
    forall node, done
      ensures ResolveOne(node, p, done, rules).Some?
    {
      if p.valueFrom.Some? { KindDependsOnPathOnly(NO_NODE, node, p.valueFrom.value, rules); }
      if p.expandFrom.Some? {
        KindDependsOnPathOnly(NO_NODE, node, p.expandFrom.value.ref, rules);
        WildcardIsParallel(node, p.expandFrom.value.ref, rules);
      }
      hide ExtractFieldPath, ExpandAll;
    }
  }

  /** Expanding a reference that is no wildcard fails on some node. */
  lemma NoWildcardFailsSomewhere(p: Property, rules: KeyRules)
    requires WellFormed(p) && p.expandFrom.Some?
    requires var x := ExtractFieldPath(NO_NODE, p.expandFrom.value.ref, rules); x.Extracted? && x.keys.None?
    ensures !ResolvesEverywhere(p, rules)
  {
    var ref := p.expandFrom.value.ref;
    SomeNodeHasIt(ref, rules);
    hide ExtractFieldPath, ExpandAll;
    var node :| HasOneValue(ExtractFieldPath(node, ref, rules));
    KindDependsOnPathOnly(NO_NODE, node, ref, rules);
    assert ResolveOne(node, p, map[], rules) == None;
  }

  lemma ResolvingIsAccepted(p: Property, rules: KeyRules)
    requires WellFormed(p) && ResolvesEverywhere(p, rules)
    ensures ValidateOne(p, rules) == []
  {
    hide ExtractFieldPath, ExpandAll;
    assert ResolveOne(NO_NODE, p, map[], rules).Some?;
    if p.expandFrom.Some? {
      var x := ExtractFieldPath(NO_NODE, p.expandFrom.value.ref, rules);
      if x.Extracted? && x.keys.None? {
        NoWildcardFailsSomewhere(p, rules);
      }
    }
  }

  /** The webhook accepts a list exactly when its entries are well formed and each of them resolves on
      every node there can be, although it looks at an empty node only. */
  lemma {:induction false} AcceptedIffResolvesEverywhere(props: seq<Property>, rules: KeyRules)
    ensures ValidateNodeProperties(props, rules) == []
       <==> forall i :: 0 <= i < |props| ==> WellFormed(props[i]) && ResolvesEverywhere(props[i], rules)
  {
    if props != [] {
      var n := |props| - 1;
      AcceptedIffResolvesEverywhere(props[..n], rules);
      if ValidateOne(props[n], rules) == [] { AcceptedResolves(props[n], rules); }
      if WellFormed(props[n]) && ResolvesEverywhere(props[n], rules) { ResolvingIsAccepted(props[n], rules); }
      hide ValidateOne, ResolvesEverywhere, WellFormed;
      assert forall i :: 0 <= i < n ==> props[i] == props[..n][i];
    }
  }

  /** So an accepted list resolves without error wherever it is applied. */
  lemma {:induction false} AcceptedListResolves(node: Node, props: seq<Property>, rules: KeyRules)
    requires ValidateNodeProperties(props, rules) == []
    ensures ResolveNodeProperties(node, props, rules).Some?
  {
    if props != [] {
      AcceptedListResolves(node, props[..|props| - 1], rules);
      AcceptedResolves(props[|props| - 1], rules);
      hide ResolveOne, ValidateOne;
    }
  }

  // ---- What resolved properties are ----

  /** `pieces` with `sep` between them. */
  function Glue(pieces: seq<string>, sep: string): string
    requires pieces != []
  {
    if |pieces| == 1 then pieces[0] else Glue(pieces[..|pieces| - 1], sep) + sep + pieces[|pieces| - 1]
  }

  /** The text between the occurrences of a pattern, found from left to right. */
  function Pieces(s: string, pattern: string): (r: seq<string>)
    requires pattern != []
    ensures r != []
    decreases |s|
  {
    if s == [] then [[]]
    else if pattern <= s then [[]] + Pieces(s[|pattern|..], pattern)
    else var r := Pieces(s[1..], pattern); [[s[0]] + r[0]] + r[1..]
  }

  lemma {:induction false} GlueFront(piece: string, pieces: seq<string>, sep: string)
    requires pieces != []
    ensures Glue([piece] + pieces, sep) == piece + sep + Glue(pieces, sep)
    ensures Glue([piece + pieces[0]] + pieces[1..], sep) == piece + Glue(pieces, sep)
  {
    var n := |pieces| - 1;
    var all, longer := [piece] + pieces, [piece + pieces[0]] + pieces[1..];
    assert all[..|all| - 1] == [piece] + pieces[..n];
    if n > 0 {
      GlueFront(piece, pieces[..n], sep);
      assert longer[..|longer| - 1] == [piece + pieces[0]] + pieces[..n][1..];
    }
  }

  lemma PiecesStep(s: string, pattern: string)
    requires pattern != [] && s != []
    ensures pattern <= s ==> Pieces(s, pattern) == [[]] + Pieces(s[|pattern|..], pattern)
    ensures !(pattern <= s) ==>
              Pieces(s, pattern) == [[s[0]] + Pieces(s[1..], pattern)[0]] + Pieces(s[1..], pattern)[1..]
  {
  }

  lemma ReplaceStep(s: string, pattern: string, replacement: string)
    requires pattern != [] && s != []
    ensures pattern <= s ==>
              ReplaceAll(s, pattern, replacement) == replacement + ReplaceAll(s[|pattern|..], pattern, replacement)
    ensures !(pattern <= s) ==> ReplaceAll(s, pattern, replacement) == [s[0]] + ReplaceAll(s[1..], pattern, replacement)
  {
  }

  lemma GlueEmptyFirst(pieces: seq<string>, sep: string)
    requires pieces != []
    ensures Glue([[]] + pieces, sep) == sep + Glue(pieces, sep)
  {
    GlueFront([], pieces, sep);
    hide Glue;
    assert [] + sep == sep;
  }

  lemma GlueLonger(c: char, pieces: seq<string>, sep: string)
    requires pieces != []
    ensures Glue([[c] + pieces[0]] + pieces[1..], sep) == [c] + Glue(pieces, sep)
  {
    GlueFront([c], pieces, sep);
    hide Glue;
  }

  /** Replacing puts the replacement in the place of every occurrence, and keeps everything else. */
  lemma {:induction false} ReplacingGlues(s: string, pattern: string, replacement: string)
    requires pattern != []
    ensures Glue(Pieces(s, pattern), pattern) == s
    ensures ReplaceAll(s, pattern, replacement) == Glue(Pieces(s, pattern), replacement)
    decreases |s|
  {
    if s != [] {
      PiecesStep(s, pattern);
      ReplaceStep(s, pattern, replacement);
      hide Glue, Pieces, ReplaceAll;
      if pattern <= s {
        var rest := s[|pattern|..];
        ReplacingGlues(rest, pattern, replacement);
        GlueEmptyFirst(Pieces(rest, pattern), pattern);
        GlueEmptyFirst(Pieces(rest, pattern), replacement);
        assert pattern + rest == s;
      } else {
        ReplacingGlues(s[1..], pattern, replacement);
        GlueLonger(s[0], Pieces(s[1..], pattern), pattern);
        GlueLonger(s[0], Pieces(s[1..], pattern), replacement);
        assert [s[0]] + s[1..] == s;
      }
    }
  }

  /** Templates: `$1` is the key and `$2` the value. */
  lemma FilledTemplates(key: string, value: string)
    ensures Fill("$2", key, value) == value
    ensures (forall i :: 0 <= i < |key| ==> key[i] != '$') ==> Fill("$1", key, value) == key
    ensures (forall i :: 0 <= i < |key| ==> key[i] != '$') ==> Fill("$1=$2", key, value) == key + "=" + value
  {
    ReplacedWhole("$2", "$1", key);
    ReplacedHere("", "$2", "", value);
    assert ReplaceAll("$2", "$1", key) == "$2";
    if forall i :: 0 <= i < |key| ==> key[i] != '$' {
      NothingReplaced(key, value);
      assert ReplaceAll("$1", "$1", key) == key + ReplaceAll("", "$1", key);
      assert key + "" == key;
      EqualsTemplate(key, value);
    }
  }

  lemma ReplacedWhole(s: string, pattern: string, replacement: string)
    requires s == "$2" && pattern == "$1"
    ensures ReplaceAll(s, pattern, replacement) == s
  {
    assert s[1..] == "2" && s[1..][1..] == "";
    assert ReplaceAll("", pattern, replacement) == "";
    assert ReplaceAll("2", pattern, replacement) == "2";
  }

  lemma ReplacedHere(before: string, pattern: string, after: string, replacement: string)
    requires before == "" && after == "" && pattern == "$2"
    ensures ReplaceAll(pattern, pattern, replacement) == replacement
  {
    assert pattern[|pattern|..] == "";
    assert replacement + "" == replacement;
  }

  lemma ReplacedBehind(replacement: string)
    ensures ReplaceAll("=$2", "$2", replacement) == "" + "=" + replacement
  {
    var t := "=$2";
    assert t[1..] == "$2";
    assert t[0] != "$2"[0];
    ReplacedHere("", "$2", "", replacement);
    assert ReplaceAll(t, "$2", replacement) == ['='] + ReplaceAll(t[1..], "$2", replacement);
  }

  lemma {:induction false} NothingReplaced(s: string, replacement: string)
    requires forall i :: 0 <= i < |s| ==> s[i] != '$'
    ensures ReplaceAll(s, "$2", replacement) == s
    ensures ReplaceAll(s + "=$2", "$2", replacement) == s + "=" + replacement
  {
    var t := "=$2";
    if s == [] {
      assert s + t == t;
      ReplacedBehind(replacement);
    } else {
      NothingReplaced(s[1..], replacement);
      assert (s + t)[1..] == s[1..] + t && (s + t)[0] == s[0];
      assert [s[0]] + s[1..] == s;
      assert [s[0]] + (s[1..] + "=" + replacement) == s + "=" + replacement;
    }
  }

  lemma EqualsTemplate(key: string, value: string)
    requires forall i :: 0 <= i < |key| ==> key[i] != '$'
    ensures Fill("$1=$2", key, value) == key + "=" + value
  {
    var t := "$1=$2";
    assert t[2..] == "=$2" && t[2..][1..] == "$2";
    ReplacedWhole("$2", "$1", key);
    assert ReplaceAll("=$2", "$1", key) == "=$2";
    assert ReplaceAll(t, "$1", key) == key + "=$2";
    NothingReplaced(key, value);
  }

  /** Joining puts the delimiter between the parts. */
  lemma {:induction false} JoinedParts(parts: seq<string>, delimiter: string)
    ensures parts == [] ==> Join(parts, delimiter) == ""
    ensures parts != [] ==> Join(parts, delimiter) == Glue(parts, delimiter)
  {
    if |parts| > 1 {
      JoinedParts(parts[1..], delimiter);
      GlueFront(parts[0], parts[1..], delimiter);
      assert [parts[0]] + parts[1..] == parts;
    }
  }

  /** A literal value is taken as it is; a reference gives its value, and where it has none an empty one,
      unless the property is optional; a wildcard is an error there. Other names stay as they were. */
  lemma ValueResolves(node: Node, p: Property, done: map<string, string>, rules: KeyRules)
    requires p.value != "" || p.valueFrom.Some?
    ensures var r := ResolveOne(node, p, done, rules);
            if p.value != "" then r == Some(done[p.name := p.value])
            else
              var x := ExtractFieldPath(node, p.valueFrom.value, rules);
              && (r == None <==> x == Invalid || x.keys.Some?)
              && (r.Some? ==>
                    && (forall k :: k != p.name ==> Lookup(r.value, k) == Lookup(done, k))
                    && (|x.values| > 0 ==> Lookup(r.value, p.name) == Some(x.values[0]))
                    && (|x.values| == 0 ==>
                          Lookup(r.value, p.name) == if p.optional then Lookup(done, p.name) else Some("")))
  {
    hide ExtractFieldPath;
  }

  /** A property without any source has no effect. */
  lemma NoSourceNoEffect(node: Node, p: Property, done: map<string, string>, rules: KeyRules)
    requires p.value == "" && p.valueFrom == None && p.expandFrom == None
    ensures ResolveOne(node, p, done, rules) == Some(done)
  {
  }

  /** The filled templates of each match, in the order of the keys. */
  ghost predicate Filled(parts: seq<string>, template: string, keys: seq<string>, values: seq<string>)
    requires |keys| == |values|
  {
    |parts| == |keys| && forall i :: 0 <= i < |keys| ==> parts[i] == Fill(template, keys[i], values[i])
  }

  /** Expanding a wildcard into one property joins the filled templates, in the order of the keys. */
  lemma JoinResolves(node: Node, p: Property, done: map<string, string>, rules: KeyRules)
    requires p.value == "" && p.valueFrom == None && p.expandFrom.Some? && p.expandFrom.value.nameTemplate == ""
    requires var x := ExtractFieldPath(node, p.expandFrom.value.ref, rules); x.Extracted? && x.keys.Some?
    ensures var x := ExtractFieldPath(node, p.expandFrom.value.ref, rules);
            && |x.keys.value| == |x.values|
            && exists parts :: Filled(parts, p.expandFrom.value.valueTemplate, x.keys.value, x.values)
                 && ResolveOne(node, p, done, rules) == Some(done[p.name := Join(parts, p.expandFrom.value.delimiter)])
  {
    WildcardIsParallel(node, p.expandFrom.value.ref, rules);
    hide ExtractFieldPath, Fill, Join;
    var e, x := p.expandFrom.value, ExtractFieldPath(node, p.expandFrom.value.ref, rules);
    var ks := x.keys.value;
    var parts := seq(|ks|, i requires 0 <= i < |ks| => Fill(e.valueTemplate, ks[i], x.values[i]));
    assert Filled(parts, e.valueTemplate, ks, x.values);
  }

  /** The last match whose filled name template is this name. */
  ghost predicate LastNamed(e: Expand, keys: seq<string>, values: seq<string>, name: string, i: int)
    requires |keys| == |values|
  {
    && 0 <= i < |keys| && Fill(e.nameTemplate, keys[i], values[i]) == name
    && forall j :: i < j < |keys| ==> Fill(e.nameTemplate, keys[j], values[j]) != name
  }

  lemma {:induction false} NamesExpand(name: string, e: Expand, keys: seq<string>, values: seq<string>,
      done: map<string, string>, suffix: string)
    requires |keys| == |values|
    ensures var r := ExpandNames(name, e, keys, values, done);
            if i :| LastNamed(e, keys, values, suffix, i)
            then Lookup(r, name + suffix) == Some(Fill(e.valueTemplate, keys[i], values[i]))
            else Lookup(r, name + suffix) == Lookup(done, name + suffix)
  {
    hide Fill;
    if keys != [] {
      var n := |keys| - 1;
      var last := Fill(e.nameTemplate, keys[n], values[n]);
      NamesExpand(name, e, keys[..n], values[..n], done, suffix);
      assert name + last == name + suffix <==> last == suffix by {
        if name + last == name + suffix { assert (name + last)[|name|..] == (name + suffix)[|name|..]; }
      }
      LastNamedNext(e, keys, values, suffix);
    }
  }

  lemma LastNamedNext(e: Expand, keys: seq<string>, values: seq<string>, suffix: string)
    requires |keys| == |values| && keys != []
    ensures var n := |keys| - 1;
            if Fill(e.nameTemplate, keys[n], values[n]) == suffix
            then LastNamed(e, keys, values, suffix, n) && forall i :: LastNamed(e, keys, values, suffix, i) ==> i == n
            else forall i :: LastNamed(e, keys, values, suffix, i) <==> LastNamed(e, keys[..n], values[..n], suffix, i)
  {
    hide Fill;
    var n := |keys| - 1;
    assert forall j :: 0 <= j < n ==> keys[..n][j] == keys[j] && values[..n][j] == values[j];
  }

  /** Expanding a wildcard into many properties names each by its filled name template; of several with one
      name the last in the order of the keys counts, and other names stay as they were. */
  lemma NamesResolve(node: Node, p: Property, done: map<string, string>, rules: KeyRules, k: string)
    requires p.value == "" && p.valueFrom == None && p.expandFrom.Some? && p.expandFrom.value.nameTemplate != ""
    requires var x := ExtractFieldPath(node, p.expandFrom.value.ref, rules); x.Extracted? && x.keys.Some?
    ensures var e := p.expandFrom.value; var x := ExtractFieldPath(node, e.ref, rules);
            var r := ResolveOne(node, p, done, rules);
            && |x.keys.value| == |x.values| && r.Some?
            && if i :| 0 <= i < |x.values| && LastNamed(e, x.keys.value, x.values, k, i)
               then Lookup(r.value, p.name + k) == Some(Fill(e.valueTemplate, x.keys.value[i], x.values[i]))
               else Lookup(r.value, p.name + k) == Lookup(done, p.name + k)
    ensures !(p.name <= k) ==> Lookup(ResolveOne(node, p, done, rules).value, k) == Lookup(done, k)
  {
    ResolvesByNames(node, p, done, rules);
    hide ExtractFieldPath, Fill, ExpandNames, ResolveOne;
    var e, x := p.expandFrom.value, ExtractFieldPath(node, p.expandFrom.value.ref, rules);
    NamesExpand(p.name, e, x.keys.value, x.values, done, k);
    if !(p.name <= k) { OtherNamesStay(p.name, e, x.keys.value, x.values, done, k); }
  }

  lemma ResolvesByNames(node: Node, p: Property, done: map<string, string>, rules: KeyRules)
    requires p.value == "" && p.valueFrom == None && p.expandFrom.Some? && p.expandFrom.value.nameTemplate != ""
    requires var x := ExtractFieldPath(node, p.expandFrom.value.ref, rules); x.Extracted? && x.keys.Some?
    ensures var e := p.expandFrom.value; var x := ExtractFieldPath(node, e.ref, rules);
            && |x.keys.value| == |x.values|
            && ResolveOne(node, p, done, rules) == Some(ExpandNames(p.name, e, x.keys.value, x.values, done))
  {
    WildcardIsParallel(node, p.expandFrom.value.ref, rules);
    hide ExtractFieldPath, Fill, ExpandNames;
  }

  lemma {:induction false} OtherNamesStay(name: string, e: Expand, keys: seq<string>, values: seq<string>,
      done: map<string, string>, k: string)
    requires |keys| == |values| && !(name <= k)
    ensures Lookup(ExpandNames(name, e, keys, values, done), k) == Lookup(done, k)
  {
    hide Fill;
    if keys != [] {
      var n := |keys| - 1;
      OtherNamesStay(name, e, keys[..n], values[..n], done, k);
      assert name <= name + Fill(e.nameTemplate, keys[n], values[n]);
    }
  }

  // ---- Lists of properties ----

  /** The last property of that name. */
  ghost predicate LastOfName(props: seq<Property>, k: string, i: int) {
    0 <= i < |props| && props[i].name == k && forall j :: i < j < |props| ==> props[j].name != k
  }

  lemma LastOfNameNext(props: seq<Property>, k: string)
    requires props != []
    ensures var n := |props| - 1;
            if props[n].name == k then LastOfName(props, k, n) && forall i :: LastOfName(props, k, i) ==> i == n
            else forall i :: LastOfName(props, k, i) <==> LastOfName(props[..n], k, i)
  {
    var n := |props| - 1;
    assert forall j :: 0 <= j < n ==> props[..n][j] == props[j];
  }

  /** Of a list of literal properties every name gets its last value, and there are no other names. */
  lemma {:induction false} LiteralsResolve(node: Node, props: seq<Property>, rules: KeyRules, k: string)
    requires forall p :: p in props ==> p.value != ""
    ensures ResolveNodeProperties(node, props, rules).Some?
    ensures var r := ResolveNodeProperties(node, props, rules).value;
            if i :| LastOfName(props, k, i) then Lookup(r, k) == Some(props[i].value) else k !in r
  {
    if props != [] {
      var n := |props| - 1;
      assert props[n] in props && forall p :: p in props[..n] ==> p in props;
      LiteralsResolve(node, props[..n], rules, k);
      LastOfNameNext(props, k);
      hide LastOfName;
    }
  }

  /** Properties are resolved one after the other, each onto what those before it gave; an error is final. */
  lemma ResolvedInOrder(node: Node, props: seq<Property>, p: Property, rules: KeyRules)
    ensures ResolveNodeProperties(node, [], rules) == Some(map[])
    ensures var before := ResolveNodeProperties(node, props, rules);
            ResolveNodeProperties(node, props + [p], rules)
              == if before == None then None else ResolveOne(node, p, before.value, rules)
  {
    assert (props + [p])[..|props|] == props;
    hide ResolveOne;
  }
}
