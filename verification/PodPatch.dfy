/** Relocation of JSON Patches from a bare Pod to the Pod template of a DaemonSet
    (pkg/barepodpatch/barepodpatch.go).

    Pointers follow sections 3 and 4 of RFC 6901, operations section 4 of RFC 6902. */
module PodPatch {
  import opened Wrappers
  import opened Slashes

  datatype Json =
    | Null
    | Bool(b: bool)
    | Number(n: int)
    | String(s: string)
    | Array(elements: seq<Json>)
    | Object(members: map<string, Json>)

  // ---- Pointers ----

  /** Undoes ~1 and ~0; any other use of a tilde is an error. */
  function Unescape(t: string): Option<string> {
    if t == [] then Some([])
    else if t[0] == '~' then
      if |t| >= 2 && (t[1] == '0' || t[1] == '1') then
        match Unescape(t[2..])
        case None => None
        case Some(r) => Some([if t[1] == '0' then '~' else '/'] + r)
      else None
    else match Unescape(t[1..])
      case None => None
      case Some(r) => Some([t[0]] + r)
  }

  function UnescapeAll(ts: seq<string>): Option<seq<string>> {
    if ts == [] then Some([])
    else match (Unescape(ts[0]), UnescapeAll(ts[1..]))
      case (Some(t), Some(rest)) => Some([t] + rest)
      case _ => None
  }

  /** A pointer is empty or starts with a slash. */
  function Parse(p: string): Option<seq<string>> {
    if p == [] then Some([])
    else if p[0] != '/' then None
    else UnescapeAll(Split(p[1..]))
  }

  /** A name as RFC 6901 writes it in a pointer: ~0 for a tilde, ~1 for a slash. */
  function EscapeName(t: string): string {
    if t == [] then []
    else (if t[0] == '~' then "~0" else if t[0] == '/' then "~1" else [t[0]]) + EscapeName(t[1..])
  }

  function Pointer(ts: seq<string>): string {
    if ts == [] then [] else "/" + EscapeName(ts[0]) + Pointer(ts[1..])
  }

  lemma {:induction false} UnescapeEscaped(t: string)
    ensures Unescape(EscapeName(t)) == Some(t)
    ensures '/' !in EscapeName(t)
  {
    if t != [] {
      UnescapeEscaped(t[1..]);
      var head := if t[0] == '~' then "~0" else if t[0] == '/' then "~1" else [t[0]];
      var tail := EscapeName(t[1..]);
      assert EscapeName(t) == head + tail;
      assert (head + tail)[|head|..] == tail && forall i :: 0 <= i < |head| ==> (head + tail)[i] == head[i];
      assert [t[0]] + t[1..] == t;
    }
  }

  lemma {:induction false} SplitName(name: string, rest: string)
    requires '/' !in name && (rest == [] || rest[0] == '/')
    ensures Split(name + rest) == [name] + (if rest == [] then [] else Split(rest[1..]))
  {
    if name == [] {
      assert name + rest == rest;
    } else {
      assert (name + rest)[1..] == name[1..] + rest && (name + rest)[0] == name[0];
      assert '/' !in name[1..] && name[0] in name;
      SplitName(name[1..], rest);
      assert [name[0]] + name[1..] == name;
    }
  }

  lemma PrintedFront(ts: seq<string>)
    requires ts != []
    ensures Pointer(ts) != [] && Pointer(ts)[0] == '/' && Pointer(ts)[1..] == EscapeName(ts[0]) + Pointer(ts[1..])
    ensures Pointer(ts[1..]) == [] || Pointer(ts[1..])[0] == '/'
    ensures ts[1..] == [] <==> Pointer(ts[1..]) == []
  {
    hide EscapeName;
    PointerHead(ts[1..]);
    var name, rest := EscapeName(ts[0]), Pointer(ts[1..]);
    assert Pointer(ts) == "/" + (name + rest);
    hide Pointer;
    assert ("/" + (name + rest))[1..] == name + rest;
  }

  lemma PointerHead(ts: seq<string>)
    ensures ts == [] <==> Pointer(ts) == []
    ensures ts != [] ==> Pointer(ts)[0] == '/'
  {
    hide EscapeName;
  }

  lemma {:induction false} TokensInvertPrinting(ts: seq<string>)
    requires ts != []
    ensures UnescapeAll(Split(Pointer(ts)[1..])) == Some(ts)
  {
    var name, rest := EscapeName(ts[0]), Pointer(ts[1..]);
    UnescapeEscaped(ts[0]);
    PrintedFront(ts);
    SplitName(name, rest);
    hide Split, Unescape, EscapeName, Pointer;
    var tail := if rest == [] then [] else Split(rest[1..]);
    if rest != [] { TokensInvertPrinting(ts[1..]); }
    assert UnescapeAll(tail) == Some(ts[1..]);
    UnescapeAllFront(name, tail);
    hide UnescapeAll;
    assert [ts[0]] + ts[1..] == ts;
  }

  /** Pointers are read as they are written. */
  lemma ParseInvertsPrinting(ts: seq<string>)
    ensures Parse(Pointer(ts)) == Some(ts)
  {
    if ts != [] {
      PrintedFront(ts);
      TokensInvertPrinting(ts);
    }
    hide Split, UnescapeAll, EscapeName;
  }

  lemma UnescapeAllFront(name: string, tail: seq<string>)
    ensures UnescapeAll([name] + tail) ==
              match (Unescape(name), UnescapeAll(tail))
              case (Some(t), Some(rest)) => Some([t] + rest)
              case _ => None
  {
    assert ([name] + tail)[0] == name && ([name] + tail)[1..] == tail;
    hide Unescape;
  }

  // ---- Documents ----

  function IsDigit(c: char): bool { '0' <= c <= '9' }

  function Digits(t: string): Option<nat> {
    if t == [] then Some(0)
    else match Digits(t[..|t| - 1])
      case None => None
      case Some(n) => if IsDigit(t[|t| - 1]) then Some(10 * n + (t[|t| - 1] - '0') as nat) else None
  }

  /** An array index has digits only and no leading zero. */
  function Index(t: string): Option<nat> {
    if t == [] || (|t| > 1 && t[0] == '0') then None else Digits(t)
  }

  function Child(doc: Json, t: string): Option<Json> {
    match doc
    case Object(m) => Lookup(m, t)
    case Array(xs) =>
      (match Index(t)
       case Some(i) => if i < |xs| then Some(xs[i]) else None
       case None => None)
    case _ => None
  }

  function Find(doc: Json, ts: seq<string>): Option<Json> {
    if ts == [] then Some(doc)
    else match Child(doc, ts[0])
      case None => None
      case Some(c) => Find(c, ts[1..])
  }

  datatype Edit = Insert(value: Json) | Overwrite(value: Json) | Cut

  /** An edit at a member or element of `doc` itself. */
  function EditChild(doc: Json, t: string, e: Edit): Option<Json> {
    match doc
    case Object(m) =>
      (match e
       case Insert(v) => Some(Object(m[t := v]))
       case Overwrite(v) => if t in m then Some(Object(m[t := v])) else None
       case Cut => if t in m then Some(Object(m - {t})) else None)
    case Array(xs) =>
      if e.Insert? && t == "-" then Some(Array(xs + [e.value]))
      else (match Index(t)
            case None => None
            case Some(i) =>
              match e
              case Insert(v) => if i <= |xs| then Some(Array(xs[..i] + [v] + xs[i..])) else None
              case Overwrite(v) => if i < |xs| then Some(Array(xs[i := v])) else None
              case Cut => if i < |xs| then Some(Array(xs[..i] + xs[i + 1..])) else None)
    case _ => None
  }

  function WithChild(doc: Json, t: string, c: Json): Json {
    match EditChild(doc, t, Overwrite(c))
    case Some(d) => d
    case None => doc
  }

  /** An edit anywhere below `doc`, or of the whole document, which cannot be cut. */
  function EditAt(doc: Json, ts: seq<string>, e: Edit): Option<Json> {
    if ts == [] then (if e.Cut? then None else Some(e.value))
    else if |ts| == 1 then EditChild(doc, ts[0], e)
    else match Child(doc, ts[0])
      case None => None
      case Some(c) =>
        match EditAt(c, ts[1..], e)
        case None => None
        case Some(c') => Some(WithChild(doc, ts[0], c'))
  }

  // ---- Patches ----

  /** One operation; the value is absent when the text does not have the member. */
  datatype PatchOp = PatchOp(op: string, path: string, from: string, value: Option<Json>)

  /** An operation on parsed pointers; a pointer that cannot be parsed is None. */
  function ApplyAt(doc: Json, op: string, path: Option<seq<string>>, from: Option<seq<string>>,
      value: Option<Json>): Option<Json> {
    match path
    case None => None
    case Some(at) =>
      if op == "add" && value.Some? then EditAt(doc, at, Insert(value.value))
      else if op == "replace" && value.Some? then
        (if Find(doc, at).Some? then EditAt(doc, at, Overwrite(value.value)) else None)
      else if op == "remove" then EditAt(doc, at, Cut)
      else if op == "test" && value.Some? then (if Find(doc, at) == value then Some(doc) else None)
      else if op == "move" || op == "copy" then
        match from
        case None => None
        case Some(f) => Relay(doc, f, at, op == "move")
      else None
  }

  function ApplyOp(doc: Json, o: PatchOp): Option<Json> {
    ApplyAt(doc, o.op, Parse(o.path), Parse(o.from), o.value)
  }

  /** Copies the value at `from` to `at`; moving removes it first, and cannot go into itself. */
  function Relay(doc: Json, from: seq<string>, at: seq<string>, moving: bool): Option<Json> {
    match Find(doc, from)
    case None => None
    case Some(v) =>
      if !moving then EditAt(doc, at, Insert(v))
      else if from == at then Some(doc)
      else if from < at then None
      else match EditAt(doc, from, Cut)
        case None => None
        case Some(rest) => EditAt(rest, at, Insert(v))
  }

  /** All operations in order; the patch fails as a whole when one of them does. */
  function Apply(doc: Json, ops: seq<PatchOp>): Option<Json>
    decreases |ops|
  {
    if ops == [] then Some(doc)
    else match ApplyOp(doc, ops[0])
      case None => None
      case Some(next) => Apply(next, ops[1..])
  }

  // ---- Conversion ----

  const TEMPLATE := "/spec/template"

  /** Pointers gain a prefix unless they are empty. The decoded value is a nil interface for both an
      absent value and null, and nil is omitted when the patch is written again. */
  function RelocateOp(o: PatchOp): PatchOp {
    PatchOp(o.op,
            if o.path != "" then TEMPLATE + o.path else "",
            if o.from != "" then TEMPLATE + o.from else "",
            if o.value == Some(Null) then None else o.value)
  }

  function Relocate(ops: seq<PatchOp>): (r: seq<PatchOp>)
    ensures |r| == |ops|
    ensures forall i :: 0 <= i < |ops| ==> r[i] == RelocateOp(ops[i])
  {
    if ops == [] then [] else [RelocateOp(ops[0])] + Relocate(ops[1..])
  }

  method ConvertJsonPatch(patches: array<PatchOp>)
    modifies patches
    ensures patches[..] == Relocate(old(patches[..]))
  {
    for i := 0 to patches.Length
      invariant forall j :: 0 <= j < i ==> patches[j] == RelocateOp(old(patches[j]))
      invariant forall j :: i <= j < patches.Length ==> patches[j] == old(patches[j])
    {
      var o := patches[i];
      if o.path != "" {
        o := o.(path := TEMPLATE + o.path);
      }
      if o.from != "" {
        o := o.(from := TEMPLATE + o.from);
      }
      if o.value == Some(Null) {
        o := o.(value := None);
      }
      patches[i] := o;
    }
  }

  // ---- Relocated pointers ----

  predicate Plain(s: string) { forall i :: 0 <= i < |s| ==> s[i] != '/' && s[i] != '~' }

  lemma {:induction false} SplitPlain(a: string, b: string)
    requires Plain(a)
    ensures Split(a + b) == [a + Split(b)[0]] + Split(b)[1..]
  {
    if a == [] {
      assert a + b == b && a + Split(b)[0] == Split(b)[0];
    } else {
      assert (a + b)[1..] == a[1..] + b && (a + b)[0] == a[0];
      SplitPlain(a[1..], b);
      assert [a[0]] + (a[1..] + Split(b)[0]) == a + Split(b)[0];
    }
  }

  lemma {:induction false} UnescapePlain(a: string, b: string)
    requires Plain(a)
    ensures Unescape(a + b) == match Unescape(b) case None => None case Some(r) => Some(a + r)
  {
    if a == [] {
      assert a + b == b;
      match Unescape(b) { case None => case Some(r) => assert a + r == r; }
    } else {
      assert (a + b)[1..] == a[1..] + b && (a + b)[0] == a[0];
      UnescapePlain(a[1..], b);
      match Unescape(b) { case None => case Some(r) => assert [a[0]] + (a[1..] + r) == a + r; }
    }
  }

  /** A prefix of one plain name in front of a pointer adds that name in front of its tokens. */
  lemma ParseUnder(name: string, p: string)
    requires Plain(name) && p != [] && p[0] == '/'
    ensures Parse("/" + name + p) == match Parse(p) case None => None case Some(ts) => Some([name] + ts)
  {
    assert ("/" + name + p)[1..] == name + p;
    SplitPlain(name, p);
    assert Split(p) == [[]] + Split(p[1..]);
    assert name + [] == name;
    UnescapePlain(name, []);
    var ts := [name] + Split(p[1..]);
    assert ts[1..] == Split(p[1..]);
  }

  lemma RelocatedPointer(p: string)
    requires p != [] && p[0] == '/'
    ensures Parse(TEMPLATE + p) == match Parse(p) case None => None case Some(ts) => Some(["spec", "template"] + ts)
  {
    ParseUnder("template", p);
    ParseUnder("spec", "/template" + p);
    assert "/template" + p == "/" + "template" + p;
    assert TEMPLATE + p == "/" + "spec" + ("/template" + p);
    hide Parse;
    match Parse(p) { case None => case Some(ts) => assert ["spec"] + (["template"] + ts) == ["spec", "template"] + ts; }
  }

  // ---- Documents with a Pod template ----

  ghost predicate HasTemplate(doc: Json) {
    && doc.Object? && "spec" in doc.members
    && doc.members["spec"].Object? && "template" in doc.members["spec"].members
  }

  ghost function Template(doc: Json): Json
    requires HasTemplate(doc)
  {
    doc.members["spec"].members["template"]
  }

  ghost function WithTemplate(doc: Json, t: Json): (r: Json)
    requires HasTemplate(doc)
    ensures HasTemplate(r) && Template(r) == t
  {
    Object(doc.members["spec" := Object(doc.members["spec"].members["template" := t])])
  }

  lemma TemplateUpdates(doc: Json, t: Json, u: Json)
    requires HasTemplate(doc)
    ensures WithTemplate(doc, Template(doc)) == doc
    ensures WithTemplate(WithTemplate(doc, t), u) == WithTemplate(doc, u)
  {
    var spec := doc.members["spec"];
    assert spec.members["template" := Template(doc)] == spec.members;
    assert doc.members["spec" := spec] == doc.members;
    var changed := Object(spec.members["template" := t]);
    assert changed.members["template" := u] == spec.members["template" := u];
    assert doc.members["spec" := changed]["spec" := Object(spec.members["template" := u])]
        == doc.members["spec" := Object(spec.members["template" := u])];
  }

  /** The outcome on the whole document that matches an outcome on the template. */
  ghost function Lifted(doc: Json, outcome: Option<Json>): Option<Json>
    requires HasTemplate(doc)
  {
    match outcome
    case None => None
    case Some(t) => Some(WithTemplate(doc, t))
  }

  lemma FindLifted(doc: Json, ts: seq<string>)
    requires HasTemplate(doc)
    ensures Find(doc, ["spec", "template"] + ts) == Find(Template(doc), ts)
  {
    var all := ["spec", "template"] + ts;
    assert all[1..] == ["template"] + ts;
    assert all[1..][1..] == ts;
  }

  lemma EditLifted(doc: Json, ts: seq<string>, e: Edit)
    requires HasTemplate(doc) && ts != []
    ensures EditAt(doc, ["spec", "template"] + ts, e) == Lifted(doc, EditAt(Template(doc), ts, e))
  {
    var all := ["spec", "template"] + ts;
    var spec := doc.members["spec"];
    assert all[1..] == ["template"] + ts;
    assert all[1..][1..] == ts;
    assert Child(doc, "spec") == Some(spec);
    assert Child(spec, "template") == Some(Template(doc));
  }

  lemma RelayLifted(doc: Json, from: seq<string>, at: seq<string>, moving: bool)
    requires HasTemplate(doc) && from != [] && at != []
    ensures Relay(doc, ["spec", "template"] + from, ["spec", "template"] + at, moving)
         == Lifted(doc, Relay(Template(doc), from, at, moving))
  {
    var p := ["spec", "template"];
    FindLifted(doc, from);
    assert (p + from)[2..] == from && (p + at)[2..] == at;
    assert p + from == p + at <==> from == at;
    assert p + from <= p + at <==> from <= at by {
      if from <= at { assert at == from + at[|from|..]; assert p + at == (p + from) + at[|from|..]; }
      if p + from <= p + at {
        assert forall i :: 0 <= i < |from| ==> from[i] == (p + from)[i + 2] == (p + at)[i + 2] == at[i];
      }
    }
    match Find(Template(doc), from) {
      case None =>
      case Some(v) =>
        EditLifted(doc, at, Insert(v));
        EditLifted(doc, from, Cut);
        match EditAt(Template(doc), from, Cut) {
          case None =>
          case Some(t) =>
            EditLifted(WithTemplate(doc, t), at, Insert(v));
            match EditAt(t, at, Insert(v)) {
              case None =>
              case Some(u) => TemplateUpdates(doc, t, u);
            }
        }
        TemplateUpdates(doc, v, v);
    }
  }

  // ---- What becomes of a pointer ----

  /** The kinds of pointer text: empty, starting with a slash, starting without one, badly escaped. */
  datatype Form = Whole | Rooted(tokens: seq<string>) | Loose(tokens: seq<string>) | Bad

  function FormOf(p: string): Form {
    if p == [] then Whole
    else if p[0] == '/' then
      match UnescapeAll(Split(p[1..]))
      case Some(ts) => Rooted(ts)
      case None => Bad
    else
      match UnescapeAll(Split(p))
      case Some(ts) => Loose(ts)
      case None => Bad
  }

  /** A pointer that is not empty has a token, and without a leading slash the first one is not empty. */
  ghost predicate Proper(f: Form) {
    (f.Rooted? ==> f.tokens != []) && (f.Loose? ==> f.tokens != [] && f.tokens[0] != [])
  }

  /** What the pointer means. */
  function Own(f: Form): Option<seq<string>> {
    match f
    case Whole => Some([])
    case Rooted(ts) => Some(ts)
    case _ => None
  }

  /** What it means once it is converted: without its slash it sticks to the name of the template, and
      the empty pointer stays what it is. */
  function Moved(f: Form): Option<seq<string>>
    requires Proper(f)
  {
    match f
    case Whole => Some([])
    case Rooted(ts) => Some(["spec", "template"] + ts)
    case Loose(ts) => Some(["spec", "template" + ts[0]] + ts[1..])
    case Bad => None
  }

  lemma FormIsProper(p: string)
    ensures Proper(FormOf(p)) && Parse(p) == Own(FormOf(p))
  {
    if p != [] && p[0] != '/' {
      assert Split(p) == [[p[0]] + Split(p[1..])[0]] + Split(p[1..])[1..];
    }
  }

  lemma Regroup<T>(a: T, b: T, rest: seq<T>)
    ensures [a] + ([b] + rest) == [a, b] + rest
  {
  }

  lemma GluedTokens(name: string, p: string)
    requires Plain(name) && p != [] && p[0] != '/'
    ensures UnescapeAll(Split(name + p)) == match UnescapeAll(Split(p))
      case None => None
      case Some(us) => if us == [] then None else Some([name + us[0]] + us[1..])
  {
    var ts := Split(p);
    SplitPlain(name, p);
    UnescapePlain(name, ts[0]);
    var glued := [name + ts[0]] + ts[1..];
    assert glued[1..] == ts[1..];
  }

  lemma GluedUnder(outer: string, name: string, p: string)
    requires Plain(outer) && Plain(name) && p != [] && p[0] != '/'
    ensures Parse("/" + outer + ("/" + (name + p))) == match UnescapeAll(Split(p))
      case None => None
      case Some(us) => if us == [] then None else Some([outer, name + us[0]] + us[1..])
  {
    GluedTokens(name, p);
    var inner := "/" + (name + p);
    assert inner[1..] == name + p;
    ParseUnder(outer, inner);
    match UnescapeAll(Split(p)) {
      case None =>
      case Some(us) => if us != [] { Regroup(outer, name + us[0], us[1..]); }
    }
  }

  lemma TemplateText(p: string)
    ensures TEMPLATE + p == "/" + "spec" + ("/" + ("template" + p))
  {
  }

  lemma PlainNames()
    ensures Plain("spec") && Plain("template")
  {
  }

  /** The converted text of a pointer means what Moved says. */
  lemma ConvertedPointer(p: string)
    ensures Proper(FormOf(p))
    ensures Parse(if p != "" then TEMPLATE + p else "") == Moved(FormOf(p))
  {
    FormIsProper(p);
    if p != [] {
      if p[0] == '/' {
        RelocatedPointer(p);
      } else {
        TemplateText(p);
        PlainNames();
        GluedUnder("spec", "template", p);
      }
    }
  }

  // ---- Exactly which operations are carried over ----

  predicate NeedsValue(op: string) { op == "add" || op == "replace" || op == "test" }

  /** The converted operation agrees with the original on every document with a template. */
  ghost predicate Exact(o: PatchOp) {
    forall doc :: HasTemplate(doc) ==> ApplyOp(doc, RelocateOp(o)) == Lifted(doc, ApplyOp(Template(doc), o))
  }

  /** What a user can check before relying on the conversion of an operation: mostly that its pointers
      start with a slash and its value is not null; apart from that, operations that fail either way. */
  predicate Carried(o: PatchOp) {
    var path, from := FormOf(o.path), FormOf(o.from);
    if o.op == "remove" then !path.Loose?
    else if NeedsValue(o.op) then
      o.value.None? || path.Bad? || (if o.value == Some(Null) then path.Loose? else path.Rooted?)
    else if o.op == "copy" then
      path.Bad? || from.Bad? || (path.Rooted? && from.Rooted?) || (path.Whole? && from.Whole?)
    else if o.op == "move" then
      path.Bad? || from.Bad? || from.Whole? || (path.Rooted? && from.Rooted?)
      || (path.Loose? && from.Loose? && from.tokens < path.tokens)
    else true
  }

  function Kept(value: Option<Json>): Option<Json> {
    if value == Some(Null) then None else value
  }

  /** Exactness, on parsed pointers. */
  ghost predicate Agrees(op: string, path: Form, from: Form, value: Option<Json>)
    requires Proper(path) && Proper(from)
  {
    forall doc :: HasTemplate(doc) ==> AgreesOn(doc, op, path, from, value)
  }

  ghost predicate AgreesOn(doc: Json, op: string, path: Form, from: Form, value: Option<Json>)
    requires Proper(path) && Proper(from) && HasTemplate(doc)
  {
    ApplyAt(doc, op, Moved(path), Moved(from), Kept(value))
        == Lifted(doc, ApplyAt(Template(doc), op, Own(path), Own(from), value))
  }

  lemma ExactIsAgreement(o: PatchOp)
    ensures Proper(FormOf(o.path)) && Proper(FormOf(o.from))
    ensures Exact(o) <==> Agrees(o.op, FormOf(o.path), FormOf(o.from), o.value)
  {
    hide ApplyAt, Lifted, FormOf;
    FormIsProper(o.path);
    FormIsProper(o.from);
    ConvertedPointer(o.path);
    ConvertedPointer(o.from);
    hide Parse, Moved, Own;
    forall doc | HasTemplate(doc)
      ensures ApplyOp(doc, RelocateOp(o)) == Lifted(doc, ApplyOp(Template(doc), o))
         <==> AgreesOn(doc, o.op, FormOf(o.path), FormOf(o.from), o.value)
    {
    }
  }

  // Documents that tell the difference.

  /** Objects within objects along `ts`, with `v` at the end. */
  function Nest(ts: seq<string>, v: Json): Json {
    if ts == [] then v else Object(map[ts[0] := Nest(ts[1..], v)])
  }

  lemma {:induction false} NestReaches(ts: seq<string>, v: Json, e: Edit)
    ensures Find(Nest(ts, v), ts) == Some(v)
    ensures ts != [] ==> EditAt(Nest(ts, v), ts, e).Some?
    ensures ts != [] && e.Insert? ==> Find(EditAt(Nest(ts, v), ts, e).value, ts) == Some(e.value)
  {
    if ts != [] {
      NestReaches(ts[1..], v, e);
    }
  }

  /** A document with the given template that is not the template itself. */
  lemma Around(t: Json) returns (doc: Json)
    ensures HasTemplate(doc) && Template(doc) == t && doc != t
  {
    var spec := Object(map["template" := t]);
    var small, large := Object(map["spec" := spec]), Object(map["spec" := spec, "status" := Null]);
    assert "status" in large.members && "status" !in small.members;
    doc := if small != t then small else large;
  }

  lemma FindBelow(doc: Json, t: string, c: Json, ts: seq<string>)
    requires Child(doc, t) == Some(c)
    ensures Find(doc, [t] + ts) == Find(c, ts)
  {
    assert ([t] + ts)[1..] == ts;
  }

  lemma EditBelow(doc: Json, t: string, c: Json, ts: seq<string>, e: Edit)
    requires Child(doc, t) == Some(c) && ts != []
    ensures EditAt(doc, [t] + ts, e)
            == match EditAt(c, ts, e) case None => None case Some(d) => Some(WithChild(doc, t, d))
  {
    assert ([t] + ts)[1..] == ts;
  }

  /** Objects along both `ts` and `us`, beside the members of `base`. */
  function BothOn(base: map<string, Json>, ts: seq<string>, us: seq<string>): Json
    requires ts != [] && us != []
    decreases |ts|, 0
  {
    if ts[0] == us[0] then Object(base[ts[0] := Both(ts[1..], us[1..])])
    else Object(base[ts[0] := Nest(ts[1..], Null)][us[0] := Nest(us[1..], Null)])
  }

  function Both(ts: seq<string>, us: seq<string>): Json
    decreases |ts|, 1
  {
    if ts == [] then Nest(us, Null)
    else if us == [] then Nest(ts, Null)
    else BothOn(map[], ts, us)
  }

  /** In such a document the value at `ts` can be copied to `us`, and moved there unless `us` lies below it. */
  ghost predicate Relays(doc: Json, ts: seq<string>, us: seq<string>, v: Json) {
    && Find(doc, ts).Some?
    && (us != [] ==> EditAt(doc, us, Insert(v)).Some?)
    && (ts != [] && us != [] && ts != us && !(ts < us) ==>
          EditAt(doc, ts, Cut).Some? && EditAt(EditAt(doc, ts, Cut).value, us, Insert(v)).Some?)
  }

  lemma {:induction false} BothRelays(ts: seq<string>, us: seq<string>, v: Json)
    ensures Relays(Both(ts, us), ts, us, v)
    ensures ts != [] ==> EditAt(Both(ts, us), ts, Cut).Some?
    decreases |ts|, 1
  {
    if ts == [] {
      if us != [] { NestReaches(us, Null, Insert(v)); }
    } else if us == [] {
      NestReaches(ts, Null, Cut);
    } else {
      BothOnRelays(map[], ts, us, v);
    }
  }

  lemma {:induction false} BothOnRelays(base: map<string, Json>, ts: seq<string>, us: seq<string>, v: Json)
    requires ts != [] && us != []
    ensures Relays(BothOn(base, ts, us), ts, us, v)
    ensures EditAt(BothOn(base, ts, us), ts, Cut).Some?
    decreases |ts|, 0
  {
    if ts[0] == us[0] {
      BothRelays(ts[1..], us[1..], v);
      SplitHead(ts, us);
    } else {
      ApartRelays(base, ts, us, v);
    }
  }

  lemma ApartRelays(base: map<string, Json>, ts: seq<string>, us: seq<string>, v: Json)
    requires ts != [] && us != [] && ts[0] != us[0]
    ensures Relays(BothOn(base, ts, us), ts, us, v)
    ensures EditAt(BothOn(base, ts, us), ts, Cut).Some?
  {
    NestReaches(ts[1..], Null, Cut);
    NestReaches(us[1..], Null, Insert(v));
  }

  lemma SplitHead(ts: seq<string>, us: seq<string>)
    requires ts != [] && us != [] && ts[0] == us[0]
    ensures ts == us <==> ts[1..] == us[1..]
    ensures ts < us <==> ts[1..] < us[1..]
  {
    assert ts == [ts[0]] + ts[1..] && us == [us[0]] + us[1..];
  }

  /** Where one value can be inserted, any can. */
  lemma {:induction false} InsertAnything(doc: Json, ts: seq<string>, v: Json, w: Json)
    requires EditAt(doc, ts, Insert(v)).Some?
    ensures EditAt(doc, ts, Insert(w)).Some?
  {
    if |ts| > 1 {
      InsertAnything(Child(doc, ts[0]).value, ts[1..], v, w);
    }
  }

  /** A document with a template on which relaying below the spec works. */
  lemma RelayWorks(ts: seq<string>, us: seq<string>, moving: bool) returns (doc: Json)
    requires ts != [] && us != [] && (moving ==> !(ts < us))
    ensures HasTemplate(doc) && Relay(doc, ["spec"] + ts, ["spec"] + us, moving).Some?
  {
    var spec := BothOn(map["template" := Null], ts, us);
    BothOnRelays(map["template" := Null], ts, us, Null);
    doc := Object(map["spec" := spec]);
    var v := Find(spec, ts).value;
    FindBelow(doc, "spec", spec, ts);
    if !moving || ts != us {
      InsertAnything(spec, us, Null, v);
      EditBelow(doc, "spec", spec, us, Insert(v));
      EditBelow(doc, "spec", spec, ts, Cut);
      PrefixBelow("spec", ts, us);
      if moving {
        var rest := EditAt(spec, ts, Cut).value;
        InsertAnything(rest, us, Null, v);
        EditBelow(WithChild(doc, "spec", rest), "spec", rest, us, Insert(v));
      }
    }
    hide BothOn;
  }

  lemma PrefixBelow(t: string, ts: seq<string>, us: seq<string>)
    ensures [t] + ts == [t] + us <==> ts == us
    ensures [t] + ts < [t] + us <==> ts < us
  {
    assert ([t] + ts)[1..] == ts && ([t] + us)[1..] == us;
    if ts != [] || us != [] { SplitHead([t] + ts, [t] + us); }
  }

  // Operations that act at their path.

  lemma CarriedAtPath(doc: Json, op: string, path: Form, from: Form, value: Option<Json>)
    requires Proper(path) && Proper(from) && HasTemplate(doc)
    requires op == "remove" || NeedsValue(op)
    requires path.Rooted? && (NeedsValue(op) ==> value != Some(Null))
    ensures AgreesOn(doc, op, path, from, value)
  {
    FindLifted(doc, path.tokens);
    if op == "remove" {
      EditLifted(doc, path.tokens, Cut);
    } else if value.Some? {
      EditLifted(doc, path.tokens, Insert(value.value));
      EditLifted(doc, path.tokens, Overwrite(value.value));
      TemplateUpdates(doc, Null, Null);
    }
  }

  /** A pointer without its slash reaches something else on some document. */
  lemma LooseWorks(op: string, path: Form, from: Form, value: Option<Json>)
    requires Proper(path) && Proper(from) && path.Loose?
    requires op == "remove" || (NeedsValue(op) && value.Some? && value != Some(Null))
    ensures exists doc :: HasTemplate(doc) && !AgreesOn(doc, op, path, from, value)
  {
    var v := if value.Some? then value.value else Null;
    var name, rest := "template" + path.tokens[0], path.tokens[1..];
    assert |name| > |"template"|;
    var e := if op == "remove" then Cut else if op == "add" then Insert(v) else Overwrite(v);
    var doc := Reachable(name, rest, v, e);
    assert ApplyAt(doc, op, Moved(path), Moved(from), Kept(value)).Some?;
    assert !AgreesOn(doc, op, path, from, value);
  }

  /** A document in which something outside the template can be found and edited. */
  lemma Reachable(name: string, rest: seq<string>, v: Json, e: Edit) returns (doc: Json)
    requires name != "template"
    ensures HasTemplate(doc)
    ensures Find(doc, ["spec", name] + rest) == Some(v)
    ensures EditAt(doc, ["spec", name] + rest, e).Some?
  {
    var inner := Nest(rest, v);
    var spec := Object(map["template" := Null, name := inner]);
    doc := Object(map["spec" := spec]);
    NestReaches(rest, v, e);
    Regroup("spec", name, rest);
    FindBelow(spec, name, inner, rest);
    FindBelow(doc, "spec", spec, [name] + rest);
    if rest != [] {
      EditBelow(spec, name, inner, rest, e);
    } else {
      assert [name] + rest == [name];
      assert EditChild(spec, name, e).Some?;
    }
    EditBelow(doc, "spec", spec, [name] + rest, e);
  }

  /** A null that is dropped, or a whole document that is replaced instead of the template. */
  lemma LossShows(op: string, path: Form, from: Form, value: Option<Json>)
    requires Proper(path) && Proper(from) && NeedsValue(op) && value.Some?
    requires path.Whole? || (path.Rooted? && value == Some(Null))
    ensures exists doc :: HasTemplate(doc) && !AgreesOn(doc, op, path, from, value)
  {
    var v := value.value;
    var ts := if path.Rooted? then path.tokens else [];
    var doc := Around(Nest(ts, v));
    NestReaches(ts, v, Insert(v));
    NestReaches(ts, v, Overwrite(v));
    TemplateUpdates(doc, v, v);
    assert ApplyAt(Template(doc), op, Own(path), Own(from), value).Some?;
    assert !AgreesOn(doc, op, path, from, value);
  }

  lemma AgreesAtPath(op: string, path: Form, from: Form, value: Option<Json>)
    requires Proper(path) && Proper(from)
    requires op == "remove" || NeedsValue(op)
    ensures Agrees(op, path, from, value) <==>
      if op == "remove" then !path.Loose?
      else value.None? || path.Bad? || (if value == Some(Null) then path.Loose? else path.Rooted?)
  {
    if path.Rooted? && (NeedsValue(op) ==> value != Some(Null)) {
      forall doc | HasTemplate(doc) ensures AgreesOn(doc, op, path, from, value) {
        CarriedAtPath(doc, op, path, from, value);
      }
    } else if path.Loose? && (op == "remove" || (value.Some? && value != Some(Null))) {
      LooseWorks(op, path, from, value);
    } else if NeedsValue(op) && value.Some? && (path.Whole? || path.Rooted?) {
      LossShows(op, path, from, value);
    } else {
      forall doc | HasTemplate(doc) ensures AgreesOn(doc, op, path, from, value) {
        assert ApplyAt(doc, op, Moved(path), Moved(from), Kept(value)) == None;
        assert ApplyAt(Template(doc), op, Own(path), Own(from), value) == None;
      }
    }
  }

  // Operations with two pointers.

  /** Relaying with two pointers below the spec, one of which has lost its slash, works on some document. */
  lemma LooseRelayWorks(op: string, path: Form, from: Form, value: Option<Json>)
    requires Proper(path) && Proper(from) && (op == "move" || op == "copy")
    requires (path.Loose? && (from.Rooted? || from.Loose?)) || (from.Loose? && path.Rooted?)
    requires op == "move" && path.Loose? && from.Loose? ==> !(from.tokens < path.tokens)
    ensures exists doc :: HasTemplate(doc) && !AgreesOn(doc, op, path, from, value)
  {
    var us := Below(path);
    var ts := Below(from);
    assert op == "move" ==> !(ts < us) by {
      LooseAndRooted(path, from);
    }
    var doc := RelayWorks(ts, us, op == "move");
    BelowSpec(path);
    BelowSpec(from);
    hide Moved, Below;
    assert ApplyAt(doc, op, Moved(path), Moved(from), Kept(value)).Some?;
    assert !AgreesOn(doc, op, path, from, value);
  }

  /** The tokens of a converted pointer below the spec. */
  function Below(f: Form): (ts: seq<string>)
    requires Proper(f) && (f.Rooted? || f.Loose?)
    ensures ts != []
  {
    if f.Rooted? then ["template"] + f.tokens else ["template" + f.tokens[0]] + f.tokens[1..]
  }

  lemma BelowSpec(f: Form)
    requires Proper(f) && (f.Rooted? || f.Loose?)
    ensures Moved(f) == Some(["spec"] + Below(f))
  {
    if f.Rooted? {
      Regroup("spec", "template", f.tokens);
    } else {
      Regroup("spec", "template" + f.tokens[0], f.tokens[1..]);
    }
  }

  /** Pointers with and without slash never lie below each other, and two without one do as they did before. */
  lemma LooseAndRooted(path: Form, from: Form)
    requires Proper(path) && Proper(from) && (path.Rooted? || path.Loose?) && (from.Rooted? || from.Loose?)
    ensures path.Rooted? != from.Rooted? ==> !(Below(from) < Below(path))
    ensures path.Loose? && from.Loose? ==> (Below(from) < Below(path) <==> from.tokens < path.tokens)
  {
    var us, ts := Below(path), Below(from);
    if path.Rooted? != from.Rooted? {
      assert |us[0]| != |ts[0]|;
    } else if path.Loose? {
      var p, f := path.tokens, from.tokens;
      assert us[1..] == p[1..] && ts[1..] == f[1..];
      GluedSame("template", p[0], f[0]);
      if p[0] == f[0] {
        SplitHead(ts, us);
        SplitHead(f, p);
      } else {
        assert us[0] != ts[0];
      }
    }
  }

  lemma GluedSame(name: string, a: string, b: string)
    ensures name + a == name + b <==> a == b
  {
    assert (name + a)[|name|..] == a && (name + b)[|name|..] == b;
  }

  /** Below the template and anywhere else, a single pointer can be followed on some document. */
  lemma FromWorks(from: Form) returns (doc: Json)
    requires Proper(from) && (from.Rooted? || from.Loose?)
    ensures HasTemplate(doc) && Moved(from).Some? && Find(doc, Moved(from).value) == Some(Null)
    ensures EditAt(doc, Moved(from).value, Cut).Some?
    ensures from.Rooted? ==>
              && Find(Template(doc), from.tokens) == Some(Null)
              && EditAt(Template(doc), from.tokens, Cut).Some?
  {
    if from.Rooted? {
      doc := Around(Nest(from.tokens, Null));
      NestReaches(from.tokens, Null, Cut);
      FindLifted(doc, from.tokens);
      EditLifted(doc, from.tokens, Cut);
    } else {
      var name := "template" + from.tokens[0];
      assert |name| > |"template"|;
      doc := Reachable(name, from.tokens[1..], Null, Cut);
    }
  }

  /** Relaying to the empty pointer replaces the whole document instead of the template. */
  lemma RelayToWholeShows(op: string, path: Form, from: Form, value: Option<Json>)
    requires Proper(path) && Proper(from) && (op == "move" || op == "copy")
    requires path.Whole? && (from.Rooted? || from.Loose?)
    ensures exists doc :: HasTemplate(doc) && !AgreesOn(doc, op, path, from, value)
  {
    var doc := FromWorks(from);
    assert ApplyAt(doc, op, Moved(path), Moved(from), Kept(value)) == Some(Null);
    assert !AgreesOn(doc, op, path, from, value);
  }

  /** Copying the whole document into the template is not copying the template into itself. */
  lemma CopyOfWholeShows(path: Form, from: Form, value: Option<Json>)
    requires Proper(path) && Proper(from) && from.Whole? && (path.Rooted? || path.Loose?)
    ensures exists doc :: HasTemplate(doc) && !AgreesOn(doc, "copy", path, from, value)
  {
    if path.Loose? {
      var name := "template" + path.tokens[0];
      assert |name| > |"template"|;
      var doc := Reachable(name, path.tokens[1..], Null, Insert(Null));
      InsertAnything(doc, ["spec", name] + path.tokens[1..], Null, doc);
      assert ApplyAt(doc, "copy", Moved(path), Moved(from), Kept(value)).Some?;
      assert !AgreesOn(doc, "copy", path, from, value);
    } else {
      var ts := path.tokens;
      var t := Nest(ts, Null);
      var doc := Around(t);
      NestReaches(ts, Null, Insert(doc));
      NestReaches(ts, Null, Insert(t));
      EditLifted(doc, ts, Insert(doc));
      assert ApplyAt(doc, "copy", Moved(path), Moved(from), Kept(value)) == Lifted(doc, EditAt(t, ts, Insert(doc)));
      assert ApplyAt(t, "copy", Own(path), Own(from), value) == EditAt(t, ts, Insert(t));
      assert !AgreesOn(doc, "copy", path, from, value);
    }
  }

  lemma CarriedRelay(doc: Json, op: string, path: Form, from: Form, value: Option<Json>)
    requires Proper(path) && Proper(from) && HasTemplate(doc) && (op == "move" || op == "copy")
    requires path.Rooted? && from.Rooted?
    ensures AgreesOn(doc, op, path, from, value)
  {
    RelayLifted(doc, from.tokens, path.tokens, op == "move");
  }

  lemma AgreesCopy(path: Form, from: Form, value: Option<Json>)
    requires Proper(path) && Proper(from)
    ensures Agrees("copy", path, from, value) <==>
      path.Bad? || from.Bad? || (path.Rooted? && from.Rooted?) || (path.Whole? && from.Whole?)
  {
    if path.Bad? || from.Bad? || (path.Whole? && from.Whole?) {
      forall doc | HasTemplate(doc)
        ensures AgreesOn(doc, "copy", path, from, value)
      {
        TemplateUpdates(doc, Null, Null);
      }
    } else if path.Rooted? && from.Rooted? {
      forall doc | HasTemplate(doc)
        ensures AgreesOn(doc, "copy", path, from, value)
      {
        CarriedRelay(doc, "copy", path, from, value);
      }
    } else if path.Whole? {
      RelayToWholeShows("copy", path, from, value);
    } else if from.Whole? {
      CopyOfWholeShows(path, from, value);
    } else {
      LooseRelayWorks("copy", path, from, value);
    }
  }

  /** Moving the whole document, or something into itself, fails with and without the prefix. */
  lemma MoveIntoItselfFails(doc: Json, path: Form, from: Form, value: Option<Json>)
    requires Proper(path) && Proper(from) && HasTemplate(doc)
    requires from.Whole? || (path.Loose? && from.Loose? && from.tokens < path.tokens)
    ensures AgreesOn(doc, "move", path, from, value)
  {
    TemplateUpdates(doc, Null, Null);
    if path.Loose? && from.Loose? {
      LooseAndRooted(path, from);
      BelowSpec(path);
      BelowSpec(from);
      PrefixBelow("spec", Below(from), Below(path));
    } else if path.Rooted? || path.Loose? {
      BelowSpec(path);
      assert [] < Moved(path).value;
    }
  }

  lemma AgreesMove(path: Form, from: Form, value: Option<Json>)
    requires Proper(path) && Proper(from)
    ensures Agrees("move", path, from, value) <==>
      path.Bad? || from.Bad? || from.Whole? || (path.Rooted? && from.Rooted?)
      || (path.Loose? && from.Loose? && from.tokens < path.tokens)
  {
    if path.Bad? || from.Bad? {
      forall doc | HasTemplate(doc) ensures AgreesOn(doc, "move", path, from, value) {}
    } else if from.Whole? || (path.Loose? && from.Loose? && from.tokens < path.tokens) {
      forall doc | HasTemplate(doc)
        ensures AgreesOn(doc, "move", path, from, value)
      {
        MoveIntoItselfFails(doc, path, from, value);
      }
    } else if path.Rooted? && from.Rooted? {
      forall doc | HasTemplate(doc)
        ensures AgreesOn(doc, "move", path, from, value)
      {
        CarriedRelay(doc, "move", path, from, value);
      }
    } else if path.Whole? {
      RelayToWholeShows("move", path, from, value);
    } else {
      LooseRelayWorks("move", path, from, value);
    }
  }

  /** Over all operations, pointers and values: the converted operation does on every DaemonSet what the
      original does on its Pod template, exactly when Carried says so. */
  lemma ExactIffCarried(o: PatchOp)
    ensures Exact(o) <==> Carried(o)
  {
    var path, from := FormOf(o.path), FormOf(o.from);
    ExactIsAgreement(o);
    hide FormOf, Exact;
    if o.op == "remove" || NeedsValue(o.op) {
      AgreesAtPath(o.op, path, from, o.value);
    } else if o.op == "copy" {
      AgreesCopy(path, from, o.value);
    } else if o.op == "move" {
      AgreesMove(path, from, o.value);
    } else {
      forall doc | HasTemplate(doc) ensures AgreesOn(doc, o.op, path, from, o.value) {}
    }
    hide Agrees;
  }

  /** A converted patch of such operations does to the DaemonSet what the original does to the Pod
      template, and fails exactly when the original fails. */
  lemma {:induction false} PatchRelocates(doc: Json, ops: seq<PatchOp>)
    requires HasTemplate(doc)
    requires forall o :: o in ops ==> Carried(o)
    ensures Apply(doc, Relocate(ops)) == Lifted(doc, Apply(Template(doc), ops))
    decreases |ops|
  {
    hide Carried, ApplyOp;
    if ops == [] {
      TemplateUpdates(doc, Null, Null);
    } else {
      ExactIffCarried(ops[0]);
      assert Relocate(ops)[1..] == Relocate(ops[1..]);
      match ApplyOp(Template(doc), ops[0]) {
        case None =>
        case Some(t) =>
          PatchRelocates(WithTemplate(doc, t), ops[1..]);
          match Apply(t, ops[1..]) {
            case None =>
            case Some(u) => TemplateUpdates(doc, t, u);
          }
      }
    }
  }

  // ---- What the operations do, as RFC 6902 puts it ----

  /** An edit below a member or element is that edit of the child, put back in its place. */
  lemma EditDescends(doc: Json, ts: seq<string>, e: Edit)
    requires |ts| > 1
    ensures Child(doc, ts[0]) == None ==> EditAt(doc, ts, e) == None
    ensures Child(doc, ts[0]).Some? ==>
              match EditAt(Child(doc, ts[0]).value, ts[1..], e)
              case None => EditAt(doc, ts, e) == None
              case Some(c) => EditAt(doc, ts, e) == Some(WithChild(doc, ts[0], c))
  {
  }

  lemma PutBack(doc: Json, t: string, c: Json)
    requires Child(doc, t).Some?
    ensures Child(WithChild(doc, t, c), t) == Some(c)
    ensures forall d :: WithChild(WithChild(doc, t, c), t, d) == WithChild(doc, t, d)
    ensures forall u :: u != t && doc.Object? ==> Child(WithChild(doc, t, c), u) == Child(doc, u)
  {
    forall d ensures WithChild(WithChild(doc, t, c), t, d) == WithChild(doc, t, d) {
      if doc.Object? { assert doc.members[t := c][t := d] == doc.members[t := d]; }
    }
  }

  /** What was added or put in the place of something is found there, unless it went to the end of an array. */
  lemma {:induction false} WrittenIsFound(doc: Json, ts: seq<string>, e: Edit)
    requires !e.Cut? && (e.Insert? && ts != [] ==> ts[|ts| - 1] != "-")
    requires EditAt(doc, ts, e).Some?
    ensures Find(EditAt(doc, ts, e).value, ts) == Some(e.value)
  {
    if |ts| == 1 {
      assert ts[1..] == [];
    } else if ts != [] {
      EditDescends(doc, ts, e);
      WrittenIsFound(Child(doc, ts[0]).value, ts[1..], e);
      PutBack(doc, ts[0], EditAt(Child(doc, ts[0]).value, ts[1..], e).value);
      hide EditAt, WithChild, Child;
    }
  }

  /** What is there, and only that, can be put in place of, or be removed. */
  lemma {:induction false} EditsWhatIsThere(doc: Json, ts: seq<string>, v: Json)
    ensures EditAt(doc, ts, Overwrite(v)).Some? <==> ts == [] || Find(doc, ts).Some?
    ensures EditAt(doc, ts, Cut).Some? <==> ts != [] && Find(doc, ts).Some?
  {
    if |ts| == 1 {
      assert ts[1..] == [];
    } else if ts != [] {
      EditDescends(doc, ts, Overwrite(v));
      EditDescends(doc, ts, Cut);
      if Child(doc, ts[0]).Some? { EditsWhatIsThere(Child(doc, ts[0]).value, ts[1..], v); }
      hide EditAt, WithChild, Child;
    }
  }

  /** Adding where something could be looked for works on an object always, on an array up to its end. */
  lemma AddsTo(doc: Json, t: string, v: Json)
    ensures EditAt(doc, [t], Insert(v)).Some? <==>
              || doc.Object?
              || (doc.Array? && (t == "-" || (Index(t).Some? && Index(t).value <= |doc.elements|)))
    ensures doc.Object? ==> EditAt(doc, [t], Insert(v)) == Some(Object(doc.members[t := v]))
    ensures doc.Array? && t == "-" ==> EditAt(doc, [t], Insert(v)) == Some(Array(doc.elements + [v]))
    ensures doc.Array? && t != "-" && EditAt(doc, [t], Insert(v)).Some? ==>
              var i, xs := Index(t).value, EditAt(doc, [t], Insert(v)).value.elements;
              && |xs| == |doc.elements| + 1 && xs[i] == v
              && (forall j :: 0 <= j < i ==> xs[j] == doc.elements[j])
              && forall j :: i < j < |xs| ==> xs[j] == doc.elements[j - 1]
  {
  }

  /** A number as it is written, without leading zeros. */
  function Decimal(n: nat): string {
    if n < 10 then ["0123456789"[n]] else Decimal(n / 10) + ["0123456789"[n % 10]]
  }

  lemma DigitOf(n: nat)
    requires n < 10
    ensures IsDigit("0123456789"[n]) && "0123456789"[n] - '0' == n as char
  {
  }

  lemma {:induction false} DigitsOfDecimal(n: nat)
    ensures Digits(Decimal(n)) == Some(n) && Decimal(n) != []
    ensures Decimal(n)[0] == '0' <==> n == 0
  {
    if n < 10 {
      DigitOf(n);
      assert Decimal(n)[..0] == [];
      assert Digits([]) == Some(0);
    } else {
      DigitsOfDecimal(n / 10);
      DigitOf(n % 10);
      var t := Decimal(n);
      assert t[..|t| - 1] == Decimal(n / 10) && t[|t| - 1] == "0123456789"[n % 10];
    }
  }

  lemma DigitUnique(c: char)
    requires IsDigit(c)
    ensures var n := (c - '0') as nat; n < 10 && "0123456789"[n] == c
  {
  }

  lemma {:induction false} DecimalOfDigits(t: string, n: nat)
    requires t != [] && (|t| > 1 ==> t[0] != '0') && Digits(t) == Some(n)
    ensures t == Decimal(n)
  {
    var front, last := t[..|t| - 1], t[|t| - 1];
    DigitUnique(last);
    var d := (last - '0') as nat;
    var m := Digits(front).value;
    assert n == 10 * m + d && t == front + [last];
    if front == [] {
      assert m == 0;
    } else {
      DecimalOfDigits(front, m);
      DigitsOfDecimal(m);
      assert m > 0;
      assert n / 10 == m && n % 10 == d;
    }
  }

  /** Array indices are the numbers as they are written in decimal, and nothing else is. */
  lemma IndexIff(t: string, n: nat)
    ensures Index(t) == Some(n) <==> t == Decimal(n)
  {
    DigitsOfDecimal(n);
    if Index(t) == Some(n) { DecimalOfDigits(t, n); }
    assert |Decimal(0)| == 1;
  }

  lemma CutThenInsertHere(doc: Json, t: string, v: Json)
    requires Child(doc, t).Some?
    ensures EditChild(doc, t, Cut).Some?
    ensures EditChild(EditChild(doc, t, Cut).value, t, Insert(v)) == EditChild(doc, t, Overwrite(v))
  {
    if doc.Object? {
      assert (doc.members - {t})[t := v] == doc.members[t := v];
    } else {
      var i, xs := Index(t).value, doc.elements;
      var cut := xs[..i] + xs[i + 1..];
      assert cut[..i] + [v] + cut[i..] == xs[i := v];
    }
  }

  lemma {:induction false} CutThenInsert(doc: Json, ts: seq<string>, v: Json)
    requires ts != [] && Find(doc, ts).Some?
    ensures EditAt(doc, ts, Cut).Some?
    ensures EditAt(EditAt(doc, ts, Cut).value, ts, Insert(v)) == EditAt(doc, ts, Overwrite(v))
  {
    if |ts| == 1 {
      CutThenInsertHere(doc, ts[0], v);
    } else {
      var c := Child(doc, ts[0]).value;
      CutThenInsert(c, ts[1..], v);
      EditDescends(doc, ts, Cut);
      EditDescends(doc, ts, Overwrite(v));
      var cut := EditAt(c, ts[1..], Cut).value;
      PutBack(doc, ts[0], cut);
      EditDescends(WithChild(doc, ts[0], cut), ts, Insert(v));
      hide EditAt, WithChild, Child;
    }
  }

  /** The six operations: adding writes; replacing is removing and then adding; moving is removing and then
      adding what was there; copying is adding what is there; testing finds exactly that. */
  lemma OperationsAreEdits(doc: Json, at: seq<string>, from: seq<string>, v: Json)
    ensures ApplyAt(doc, "add", Some(at), None, Some(v)) == EditAt(doc, at, Insert(v))
    ensures ApplyAt(doc, "remove", Some(at), None, None) == EditAt(doc, at, Cut)
    ensures Find(doc, at).Some? && at != [] ==>
              var cut := ApplyAt(doc, "remove", Some(at), None, None);
              && cut.Some?
              && ApplyAt(doc, "replace", Some(at), None, Some(v)) == ApplyAt(cut.value, "add", Some(at), None, Some(v))
    ensures Find(doc, at) == None ==> ApplyAt(doc, "replace", Some(at), None, Some(v)) == None
    ensures ApplyAt(doc, "test", Some(at), None, Some(v)) == if Find(doc, at) == Some(v) then Some(doc) else None
    ensures var moved := ApplyAt(doc, "move", Some(at), Some(from), None);
            var copied := ApplyAt(doc, "copy", Some(at), Some(from), None);
            match Find(doc, from)
            case None => moved == None && copied == None
            case Some(c) =>
              && copied == ApplyAt(doc, "add", Some(at), None, Some(c))
              && (from == at ==> moved == Some(doc))
              && (from < at ==> moved == None)
              && (from != [] && !(from <= at) ==>
                    var cut := ApplyAt(doc, "remove", Some(from), None, None);
                    cut.Some? && moved == ApplyAt(cut.value, "add", Some(at), None, Some(c)))
  {
    hide EditAt, Find;
    if Find(doc, at).Some? && at != [] { CutThenInsert(doc, at, v); }
    if Find(doc, from).Some? && from != [] { CutThenInsert(doc, from, v); }
  }
}
