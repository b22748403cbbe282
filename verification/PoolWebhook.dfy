/** Validation of storage pool lists (internal/webhook/v1/storagepool.go, api/v1/storagepool.go). */
module PoolWebhook {
  import opened Wrappers
  import opened Ordering
  import opened Slashes

  datatype Lvm = Lvm(volumeGroup: string, sharedSpace: string, externalLocking: bool)
  datatype LvmThin = LvmThin(volumeGroup: string, thinPool: string)
  datatype File = File(directory: string)
  datatype Zfs = Zfs(zpool: string)

  /** `hostDevices` is None for a nil list. */
  datatype Source = Source(hostDevices: Option<seq<string>>)

  datatype Pool = Pool(
    name: string,
    lvm: Option<Lvm>, lvmThin: Option<LvmThin>,
    file: Option<File>, fileThin: Option<File>,
    zfs: Option<Zfs>, zfsThin: Option<Zfs>,
    source: Option<Source>)

  datatype Complaint =
    | BadName | NotOneType | NoType | TypeChanged | BadIdentifier | IdentifierChanged
    | SharedSpaceWithSource | LockingWithoutSharedSpace | SharedSpaceChanged | LockingChanged
    | BadDirectory | SourceNotSupported | SourceChanged | DeviceOutsideDev | DeviceNotClean | DeviceTwice | NoDevices

  /** Checks on text that the validators use: names, volume group names, shared space names and device
      paths. */
  datatype Syntax = Syntax(
    poolName: string -> bool, volumeGroup: string -> bool, sharedSpace: string -> bool,
    inDev: string -> bool, clean: string -> bool)

  function CharAt(path: string, i: nat): char {
    if i < |path| then path[i] else '/'
  }

  /** An absolute path that cleaning leaves alone: no part of it is empty, `.` or `..`. */
  predicate CleanAbsolute(path: string) {
    path == "/" ||
    (&& |path| > 0 && path[0] == '/'
     && forall i :: 0 <= i < |path| && path[i] == '/' ==>
          && CharAt(path, i + 1) != '/'
          && !(CharAt(path, i + 1) == '.' && CharAt(path, i + 2) == '/')
          && !(CharAt(path, i + 1) == '.' && CharAt(path, i + 2) == '.' && CharAt(path, i + 3) == '/'))
  }

  function If(b: bool, c: Complaint): seq<Complaint> {
    if b then [c] else []
  }

  function ValidateLvmThin(p: LvmThin, previous: Option<Pool>, x: Syntax): seq<Complaint> {
    If(previous.Some? && previous.value.lvmThin.None?, TypeChanged)
    + If(p.volumeGroup != "" && !x.volumeGroup(p.volumeGroup), BadIdentifier)
    + If(previous.Some? && previous.value.lvmThin.Some?
        && p.volumeGroup != previous.value.lvmThin.value.volumeGroup, IdentifierChanged)
    + If(p.thinPool != "" && !x.volumeGroup(p.thinPool), BadIdentifier)
    + If(previous.Some? && previous.value.lvmThin.Some?
        && p.thinPool != previous.value.lvmThin.value.thinPool, IdentifierChanged)
  }

  function ValidateLvm(p: Lvm, previous: Option<Pool>, src: Option<Source>, x: Syntax): seq<Complaint> {
    If(previous.Some? && previous.value.lvm.None?, TypeChanged)
    + If(p.volumeGroup != "" && !x.volumeGroup(p.volumeGroup), BadIdentifier)
    + If(previous.Some? && previous.value.lvm.Some?
        && p.volumeGroup != previous.value.lvm.value.volumeGroup, IdentifierChanged)
    + If(p.sharedSpace != "" && !x.sharedSpace(p.sharedSpace), BadIdentifier)
    + If(p.sharedSpace != "" && src.Some?, SharedSpaceWithSource)
    + If(p.externalLocking && p.sharedSpace == "", LockingWithoutSharedSpace)
    + If(previous.Some? && previous.value.lvm.Some?
        && p.sharedSpace != previous.value.lvm.value.sharedSpace, SharedSpaceChanged)
    + If(previous.Some? && previous.value.lvm.Some?
        && p.externalLocking != previous.value.lvm.value.externalLocking, LockingChanged)
  }

  function DirectoryOrDefault(f: File, name: string): string {
    if f.directory == "" then "/var/lib/linstor-pools/" + name else f.directory
  }

  function ValidateFile(p: File, name: string, previous: Option<Pool>, thin: bool): seq<Complaint> {
    If(previous.Some? && (if thin then previous.value.fileThin.None? else previous.value.file.None?), TypeChanged)
    + If(!CleanAbsolute(DirectoryOrDefault(p, name)), BadDirectory)
  }

  function ValidateZfs(previous: Option<Pool>, thin: bool): seq<Complaint> {
    If(previous.Some? && (if thin then previous.value.zfsThin.None? else previous.value.zfs.None?), TypeChanged)
  }

  /** How many pool types are set. */
  function Types(p: Pool): nat {
    (if p.lvmThin.Some? then 1 else 0) + (if p.lvm.Some? then 1 else 0) + (if p.file.Some? then 1 else 0)
    + (if p.fileThin.Some? then 1 else 0) + (if p.zfs.Some? then 1 else 0) + (if p.zfsThin.Some? then 1 else 0)
  }

  /** The checks of one pool that do not involve its source devices. */
  method ValidateTypes(p: Pool, previous: Option<Pool>, x: Syntax) returns (errs: seq<Complaint>)
    ensures errs == [] <==> TypesAccepted(p, previous, x)
  {
    errs := If(!x.poolName(p.name), BadName);
    var n := 0;
    if p.lvmThin.Some? {
      n := n + 1;
      errs := errs + ValidateLvmThin(p.lvmThin.value, previous, x);
    }
    if p.lvm.Some? {
      n := n + 1;
      errs := errs + If(n > 1, NotOneType) + ValidateLvm(p.lvm.value, previous, p.source, x);
    }
    if p.file.Some? {
      n := n + 1;
      errs := errs + If(n > 1, NotOneType) + ValidateFile(p.file.value, p.name, previous, false)
          + If(p.source.Some?, SourceNotSupported);
    }
    if p.fileThin.Some? {
      n := n + 1;
      errs := errs + If(n > 1, NotOneType) + ValidateFile(p.fileThin.value, p.name, previous, true)
          + If(p.source.Some?, SourceNotSupported);
    }
    if p.zfs.Some? {
      n := n + 1;
      errs := errs + If(n > 1, NotOneType) + ValidateZfs(previous, false);
    }
    if p.zfsThin.Some? {
      n := n + 1;
      errs := errs + If(n > 1, NotOneType) + ValidateZfs(previous, true);
    }
    errs := errs + If(n == 0, NoType);
  }

  /** What a pool without complaints is like: one type, the same as before, with the same backend. */
  ghost predicate TypesAccepted(p: Pool, previous: Option<Pool>, x: Syntax) {
    && x.poolName(p.name)
    && Types(p) == 1
    && (p.lvmThin.Some? ==> ValidateLvmThin(p.lvmThin.value, previous, x) == [])
    && (p.lvm.Some? ==> ValidateLvm(p.lvm.value, previous, p.source, x) == [])
    && (p.file.Some? ==> p.source.None? && ValidateFile(p.file.value, p.name, previous, false) == [])
    && (p.fileThin.Some? ==> p.source.None? && ValidateFile(p.fileThin.value, p.name, previous, true) == [])
    && (p.zfs.Some? ==> ValidateZfs(previous, false) == [])
    && (p.zfsThin.Some? ==> ValidateZfs(previous, true) == [])
  }

  function Devices(p: Pool): seq<string> {
    if p.source.Some? && p.source.value.hostDevices.Some? then p.source.value.hostDevices.value else []
  }

  /** LinstorStoragePoolSource.Validate: `known` is shared by all pools of a list. */
  method ValidateSource(src: Option<Source>, previous: Option<Pool>, known: set<string>, x: Syntax)
    returns (errs: seq<Complaint>, after: set<string>)
    ensures errs == [] <==> SourceAccepted(src, previous, known, x)
    ensures errs == [] ==> after == known + (if src.None? then {} else Elements(src.value.hostDevices.value))
  {
    if src.None? {
      return [], known;
    }
    if previous.Some? && src != previous.value.source {
      return [SourceChanged], known;
    }
    if src.value.hostDevices.None? {
      return [NoDevices], known;
    }
    var devices := src.value.hostDevices.value;
    errs, after := [], known;
    for j := 0 to |devices|
      invariant after == known + Elements(devices[..j])
      invariant errs == [] <==> DevicesAccepted(devices[..j], known, x)
    {
      var d := devices[j];
      assert devices[..j + 1] == devices[..j] + [d];
      DevicesAppend(devices[..j], d, known, x);
      errs := errs + If(!x.inDev(d), DeviceOutsideDev) + If(!x.clean(d), DeviceNotClean) + If(d in after, DeviceTwice);
      after := after + {d};
    }
    assert devices[..|devices|] == devices;
  }

  ghost predicate DevicesAccepted(devices: seq<string>, known: set<string>, x: Syntax) {
    && Distinct(devices)
    && forall i :: 0 <= i < |devices| ==> devices[i] !in known && x.inDev(devices[i]) && x.clean(devices[i])
  }

  lemma DevicesAppend(devices: seq<string>, d: string, known: set<string>, x: Syntax)
    ensures Elements(devices + [d]) == Elements(devices) + {d}
    ensures DevicesAccepted(devices + [d], known, x)
       <==> DevicesAccepted(devices, known, x) && x.inDev(d) && x.clean(d) && d !in known + Elements(devices)
  {
    var all := devices + [d];
    if DevicesAccepted(all, known, x) {
      assert forall i :: 0 <= i < |devices| ==> devices[i] == all[i];
      assert all[|devices|] == d;
    }
    if DevicesAccepted(devices, known, x) && d !in Elements(devices) {
      assert Distinct(all);
    }
  }

  ghost predicate SourceAccepted(src: Option<Source>, previous: Option<Pool>, known: set<string>, x: Syntax) {
    src.None? ||
    (&& (previous.Some? ==> previous.value.source == src)
     && src.value.hostDevices.Some?
     && DevicesAccepted(src.value.hostDevices.value, known, x))
  }

  /** The first old pool of that name. */
  function Find(pools: seq<Pool>, name: string): (r: Option<Pool>)
    ensures r.Some? ==> r.value in pools && r.value.name == name
    ensures r.None? ==> forall p :: p in pools ==> p.name != name
    ensures r.Some? ==>
              exists i :: 0 <= i < |pools| && pools[i] == r.value && forall j :: 0 <= j < i ==> pools[j].name != name
  {
    if pools == [] then None
    else if pools[0].name == name then
      assert pools[0] == Some(pools[0]).value;
      Some(pools[0])
    else
      var r := Find(pools[1..], name);
      assert forall i :: 0 <= i < |pools| - 1 ==> pools[1..][i] == pools[i + 1];
      assert r.Some? ==>
        exists i :: 0 <= i < |pools| && pools[i] == r.value && forall j :: 0 <= j < i ==> pools[j].name != name by {
        if r.Some? {
          var i :| 0 <= i < |pools| - 1 && pools[1..][i] == r.value
            && forall j :: 0 <= j < i ==> pools[1..][j].name != name;
          assert pools[i + 1] == r.value;
          forall j | 0 <= j < i + 1 ensures pools[j].name != name {
            if j > 0 { assert pools[1..][j - 1].name != name; }
          }
        }
      }
      r
  }

  ghost function AllDevices(pools: seq<Pool>): seq<string> {
    if pools == [] then [] else AllDevices(pools[..|pools| - 1]) + Devices(pools[|pools| - 1])
  }

  ghost predicate Accepted(cur: seq<Pool>, previous: seq<Pool>, x: Syntax) {
    cur == [] ||
    var p := cur[|cur| - 1];
    && Accepted(cur[..|cur| - 1], previous, x)
    && TypesAccepted(p, Find(previous, p.name), x)
    && SourceAccepted(p.source, Find(previous, p.name), Elements(AllDevices(cur[..|cur| - 1])), x)
  }

  method ValidateStoragePools(cur: seq<Pool>, previous: seq<Pool>, x: Syntax) returns (errs: seq<Complaint>)
    ensures errs == [] <==> Accepted(cur, previous, x)
  {
    errs := [];
    var known: set<string> := {};
    for i := 0 to |cur|
      invariant errs == [] <==> Accepted(cur[..i], previous, x)
      invariant errs == [] ==> known == Elements(AllDevices(cur[..i]))
    {
      var p := cur[i];
      assert cur[..i + 1][..i] == cur[..i];
      var was := Find(previous, p.name);
      var e1 := ValidateTypes(p, was, x);
      var e2, after := ValidateSource(p.source, was, known, x);
      errs := errs + e1 + e2;
      known := after;
      assert errs == [] ==> Elements(AllDevices(cur[..i + 1])) == Elements(AllDevices(cur[..i])) + Elements(Devices(p));
    }
    assert cur[..|cur|] == cur;
  }

  // ---- What is accepted, spelled out ----

  /** An identifier may be left out, has to be well formed, and stays as it was. */
  ghost predicate GoodId(id: string, wellFormed: string -> bool, was: Option<string>) {
    (id == "" || wellFormed(id)) && (was.Some? ==> id == was.value)
  }

  ghost predicate GoodLvm(p: Lvm, was: Option<Lvm>, hasSource: bool, x: Syntax) {
    && GoodId(p.volumeGroup, x.volumeGroup, if was.None? then None else Some(was.value.volumeGroup))
    && GoodId(p.sharedSpace, x.sharedSpace, if was.None? then None else Some(was.value.sharedSpace))
    && (p.sharedSpace != "" ==> !hasSource)
    && (p.externalLocking ==> p.sharedSpace != "")
    && (was.Some? ==> p.externalLocking == was.value.externalLocking)
  }

  ghost predicate GoodLvmThin(p: LvmThin, was: Option<LvmThin>, x: Syntax) {
    && GoodId(p.volumeGroup, x.volumeGroup, if was.None? then None else Some(was.value.volumeGroup))
    && GoodId(p.thinPool, x.volumeGroup, if was.None? then None else Some(was.value.thinPool))
  }

  ghost predicate GoodFile(p: File, name: string, hasSource: bool) {
    !hasSource && CleanAbsolute(if p.directory != "" then p.directory else "/var/lib/linstor-pools/" + name)
  }

  /** The pool before this one, if there was one, was of this kind too. */
  ghost predicate KindStays(p: Pool, was: Pool) {
    && (p.lvm.Some? ==> was.lvm.Some?) && (p.lvmThin.Some? ==> was.lvmThin.Some?)
    && (p.file.Some? ==> was.file.Some?) && (p.fileThin.Some? ==> was.fileThin.Some?)
    && (p.zfs.Some? ==> was.zfs.Some?) && (p.zfsThin.Some? ==> was.zfsThin.Some?)
  }

  /** One kind, and no two. */
  ghost predicate OneKind(p: Pool) {
    && (p.lvm.Some? || p.lvmThin.Some? || p.file.Some? || p.fileThin.Some? || p.zfs.Some? || p.zfsThin.Some?)
    && (p.lvm.Some? ==> p.lvmThin == None && p.file == None && p.fileThin == None && p.zfs == None && p.zfsThin == None)
    && (p.lvmThin.Some? ==> p.file == None && p.fileThin == None && p.zfs == None && p.zfsThin == None)
    && (p.file.Some? ==> p.fileThin == None && p.zfs == None && p.zfsThin == None)
    && (p.fileThin.Some? ==> p.zfs == None && p.zfsThin == None)
    && (p.zfs.Some? ==> p.zfsThin == None)
  }

  lemma OneKindIff(p: Pool)
    ensures OneKind(p) <==> Types(p) == 1
  {
  }

  lemma LvmAcceptedIff(p: Lvm, previous: Option<Pool>, src: Option<Source>, x: Syntax)
    ensures ValidateLvm(p, previous, src, x) == [] <==>
              && (previous.Some? ==> previous.value.lvm.Some?)
              && GoodLvm(p, if previous.Some? then previous.value.lvm else None, src.Some?, x)
  {
  }

  lemma LvmThinAcceptedIff(p: LvmThin, previous: Option<Pool>, x: Syntax)
    ensures ValidateLvmThin(p, previous, x) == [] <==>
              && (previous.Some? ==> previous.value.lvmThin.Some?)
              && GoodLvmThin(p, if previous.Some? then previous.value.lvmThin else None, x)
  {
  }

  /** When a pool is accepted, its devices aside: its name is well formed, it has one kind, the one it had; the
      names of volume groups, thin pools and shared spaces are well formed and stay; shared space, locking and
      source go together; and directories are clean absolute paths, without a source. */
  lemma PoolAcceptedIff(p: Pool, previous: Option<Pool>, x: Syntax)
    ensures TypesAccepted(p, previous, x) <==>
              && x.poolName(p.name) && OneKind(p)
              && (previous.Some? ==> KindStays(p, previous.value))
              && (p.lvm.Some? ==>
                    GoodLvm(p.lvm.value, if previous.Some? then previous.value.lvm else None, p.source.Some?, x))
              && (p.lvmThin.Some? ==>
                    GoodLvmThin(p.lvmThin.value, if previous.Some? then previous.value.lvmThin else None, x))
              && (p.file.Some? ==> GoodFile(p.file.value, p.name, p.source.Some?))
              && (p.fileThin.Some? ==> GoodFile(p.fileThin.value, p.name, p.source.Some?))
  {
    OneKindIff(p);
    if p.lvm.Some? { LvmAcceptedIff(p.lvm.value, previous, p.source, x); }
    if p.lvmThin.Some? { LvmThinAcceptedIff(p.lvmThin.value, previous, x); }
    hide OneKind, Types, GoodLvm, GoodLvmThin, ValidateLvm, ValidateLvmThin, CleanAbsolute;
  }

  /** Pool i of a list uses the device. */
  ghost predicate Uses(pools: seq<Pool>, i: int, j: int, d: string)
    requires 0 <= i < |pools|
  {
    match pools[i].source
    case None => false
    case Some(s) => s.hostDevices.Some? && 0 <= j < |s.hostDevices.value| && s.hostDevices.value[j] == d
  }

  lemma {:induction false} AllDevicesAre(pools: seq<Pool>, d: string)
    ensures d in AllDevices(pools) <==> exists i, j :: 0 <= i < |pools| && Uses(pools, i, j, d)
  {
    if pools != [] {
      var n := |pools| - 1;
      var last := Devices(pools[n]);
      AllDevicesAre(pools[..n], d);
      assert forall i, j :: 0 <= i < n ==> Uses(pools[..n], i, j, d) == Uses(pools, i, j, d);
      if d in last {
        var j :| 0 <= j < |last| && last[j] == d;
        assert Uses(pools, n, j, d);
      }
      if i, j :| 0 <= i < |pools| && Uses(pools, i, j, d) {
        if i == n { assert last[j] == d; } else { assert Uses(pools[..n], i, j, d); }
      }
      hide Uses;
    }
  }

  /** When the devices of a pool are accepted: it has no source, or it has the one it had, with a list of
      clean paths below /dev that are all different and not used by a pool before it in the list. */
  lemma SourceAcceptedIff(pools: seq<Pool>, src: Option<Source>, previous: Option<Pool>, x: Syntax)
    ensures SourceAccepted(src, previous, Elements(AllDevices(pools)), x) <==>
              || src == None
              || (&& (previous == None || previous.value.source == src)
                  && src.value.hostDevices != None
                  && var ds := src.value.hostDevices.value;
                     && (forall j, l :: 0 <= j < l < |ds| ==> ds[j] != ds[l])
                     && (forall j :: 0 <= j < |ds| ==> x.inDev(ds[j]) && x.clean(ds[j]))
                     && forall i, j, l :: 0 <= i < |pools| && 0 <= j < |ds| ==> !Uses(pools, i, l, ds[j]))
  {
    forall d { AllDevicesAre(pools, d); }
    hide AllDevices, Uses;
  }

  /** A list is accepted if each pool in it is, against the old pool of its name and the pools before it. */
  lemma {:induction false} ListAcceptedIff(cur: seq<Pool>, previous: seq<Pool>, x: Syntax)
    ensures Accepted(cur, previous, x) <==>
              forall i :: 0 <= i < |cur| ==>
                && TypesAccepted(cur[i], Find(previous, cur[i].name), x)
                && SourceAccepted(cur[i].source, Find(previous, cur[i].name), Elements(AllDevices(cur[..i])), x)
  {
    hide TypesAccepted, SourceAccepted, Find, AllDevices;
    if cur != [] {
      var n := |cur| - 1;
      ListAcceptedIff(cur[..n], previous, x);
      assert forall i :: 0 <= i < n ==> cur[..n][i] == cur[i] && cur[..n][..i] == cur[..i];
    }
  }

  /** No two places of an accepted list name the same device. */
  lemma DevicesAreNotShared(cur: seq<Pool>, previous: seq<Pool>, x: Syntax, i: int, j: int, k: int, l: int, d: string)
    requires Accepted(cur, previous, x) && 0 <= i <= k < |cur|
    requires Uses(cur, i, j, d) && Uses(cur, k, l, d)
    ensures i == k && j == l
  {
    assert i < k ==> Uses(cur[..k], i, j, d);
    ListAcceptedIff(cur, previous, x);
    SourceAcceptedIff(cur[..k], cur[k].source, Find(previous, cur[k].name), x);
    hide TypesAccepted, SourceAccepted, Find, AllDevices;
  }

  /** The backend of a pool on its node: what it names, or else its own name, a volume group of that name for
      a thin pool, and a directory of that name for files. */
  lemma BackendNames(p: Pool)
    requires OneKind(p)
    ensures p.lvm.Some? ==> PoolName(p) == (if p.lvm.value.volumeGroup == "" then p.name else p.lvm.value.volumeGroup)
    ensures p.lvmThin.Some? ==>
              var LvmThin(vg, lv) := p.lvmThin.value;
              && (vg == "" && lv == "" ==> PoolName(p) == "linstor_" + p.name + "/" + p.name)
              && (vg == "" && lv != "" ==> PoolName(p) == "linstor_" + lv + "/" + lv)
              && (vg != "" && lv == "" ==> PoolName(p) == vg + "/" + p.name)
              && (vg != "" && lv != "" ==> PoolName(p) == vg + "/" + lv)
    ensures (p.file.Some? || p.fileThin.Some?) ==>
              var d := if p.file.Some? then p.file.value.directory else p.fileThin.value.directory;
              PoolName(p) == if d == "" then "/var/lib/linstor-pools/" + p.name else d
    ensures (p.zfs.Some? || p.zfsThin.Some?) ==>
              var z := if p.zfs.Some? then p.zfs.value.zpool else p.zfsThin.value.zpool;
              PoolName(p) == if z == "" then p.name else z
  {
  }

  predicate CleanPart(part: string) {
    part != "" && part != "." && part != ".."
  }

  /** The part that begins at `i` ends at the next slash or with the path, and is one of those cleaning removes. */
  predicate DirtyAt(s: string, i: nat) {
    || CharAt(s, i) == '/'
    || (CharAt(s, i) == '.' && CharAt(s, i + 1) == '/')
    || (CharAt(s, i) == '.' && CharAt(s, i + 1) == '.' && CharAt(s, i + 2) == '/')
  }

  lemma FirstPartText(s: string)
    ensures Split(s)[0] == if s == [] || s[0] == '/' then [] else [s[0]] + Split(s[1..])[0]
  {
  }

  lemma FirstPart(s: string)
    ensures CleanPart(Split(s)[0]) <==> !DirtyAt(s, 0)
  {
    FirstPartText(s);
    if |s| > 0 && s[0] == '.' {
      FirstPartText(s[1..]);
      if |s| > 1 && s[1] == '.' {
        FirstPartText(s[2..]);
        assert s[1..][1..] == s[2..];
      }
    }
    hide Split;
  }

  ghost predicate AllClean(parts: seq<string>, from: nat) {
    forall k :: from <= k < |parts| ==> CleanPart(parts[k])
  }

  /** No part behind a slash of `s` is one of those cleaning removes. */
  ghost predicate NoneDirty(s: string) {
    forall i :: 0 <= i < |s| && s[i] == '/' ==> !DirtyAt(s, i + 1)
  }

  lemma NoneDirtyStep(s: string)
    requires s != []
    ensures NoneDirty(s) <==> NoneDirty(s[1..]) && (s[0] == '/' ==> !DirtyAt(s[1..], 0))
  {
    var rest := s[1..];
    forall i: nat ensures DirtyAt(s, i + 1) == DirtyAt(rest, i) {}
    hide DirtyAt;
    if NoneDirty(s) {
      forall i | 0 <= i < |rest| && rest[i] == '/' ensures !DirtyAt(rest, i + 1) { assert s[i + 1] == '/'; }
    }
    if NoneDirty(rest) && (s[0] == '/' ==> !DirtyAt(rest, 0)) {
      forall i | 0 <= i < |s| && s[i] == '/' ensures !DirtyAt(s, i + 1) {
        if i > 0 { assert rest[i - 1] == '/'; }
      }
    }
  }

  lemma PartsStep(s: string)
    requires s != []
    ensures s[0] == '/' ==> Split(s) == [[]] + Split(s[1..])
    ensures s[0] != '/' ==> |Split(s)| == |Split(s[1..])| && Split(s)[1..] == Split(s[1..])[1..]
  {
  }

  lemma CleanFromOne(a: seq<string>, b: seq<string>)
    requires a != [] && b != [] && a[1..] == b[1..]
    ensures AllClean(a, 1) ==> AllClean(b, 1)
  {
    hide CleanPart;
    if AllClean(a, 1) {
      forall k | 1 <= k < |b| ensures CleanPart(b[k]) { assert b[k] == b[1..][k - 1] == a[1..][k - 1] == a[k]; }
    }
  }

  lemma CleanBehind(a: seq<string>)
    requires a != []
    ensures AllClean([[]] + a, 1) <==> AllClean(a, 1) && CleanPart(a[0])
  {
    hide CleanPart;
    var all := [[]] + a;
    if AllClean(all, 1) {
      forall k | 0 <= k < |a| ensures CleanPart(a[k]) { assert all[k + 1] == a[k]; }
    }
  }

  lemma AllCleanStep(s: string)
    requires s != []
    ensures AllClean(Split(s), 1) <==>
              AllClean(Split(s[1..]), 1) && (s[0] == '/' ==> CleanPart(Split(s[1..])[0]))
  {
    hide CleanPart, AllClean, Split;
    PartsStep(s);
    if s[0] == '/' {
      CleanBehind(Split(s[1..]));
    } else {
      CleanFromOne(Split(s), Split(s[1..]));
      CleanFromOne(Split(s[1..]), Split(s));
    }
  }

  /** The parts after the first begin behind the slashes. */
  lemma {:induction false} LaterParts(s: string)
    ensures AllClean(Split(s), 1) <==> NoneDirty(s)
  {
    if s != [] {
      LaterParts(s[1..]);
      FirstPart(s[1..]);
      hide NoneDirty, AllClean, Split, CleanPart, DirtyAt;
      NoneDirtyStep(s);
      AllCleanStep(s);
    }
  }

  /** A directory is accepted if it is the root, or begins there and has no part that is empty, `.` or `..`. */
  lemma CleanAbsoluteIff(path: string)
    ensures CleanAbsolute(path) <==>
              || path == "/"
              || (path != "" && path[0] == '/' && forall k :: 0 <= k < |Split(path[1..])| ==>
                  CleanPart(Split(path[1..])[k]))
  {
    if path != "" && path[0] == '/' {
      var s := path[1..];
      FirstPart(s);
      LaterParts(s);
      NoneDirtyStep(path);
      assert CleanAbsolute(path) <==> path == "/" || NoneDirty(path);
      hide Split, CleanPart, NoneDirty, DirtyAt, CleanAbsolute;
    }
  }

  // ---- What acceptance means over time ----

  /** No device appears twice in an accepted list, in one pool or in two. */
  lemma {:induction false} AcceptedDevicesDistinct(cur: seq<Pool>, previous: seq<Pool>, x: Syntax)
    requires Accepted(cur, previous, x)
    ensures Distinct(AllDevices(cur))
  {
    if cur != [] {
      var n := |cur| - 1;
      AcceptedDevicesDistinct(cur[..n], previous, x);
      var before, own := AllDevices(cur[..n]), Devices(cur[n]);
      assert Distinct(own) && forall i :: 0 <= i < |own| ==> own[i] !in Elements(before);
    }
  }

  lemma {:induction false} AcceptedEach(cur: seq<Pool>, previous: seq<Pool>, x: Syntax, i: nat)
    requires Accepted(cur, previous, x) && i < |cur|
    ensures TypesAccepted(cur[i], Find(previous, cur[i].name), x)
    ensures cur[i].source.Some? && Find(previous, cur[i].name).Some? ==>
            Find(previous, cur[i].name).value.source == cur[i].source
  {
    if i < |cur| - 1 {
      AcceptedEach(cur[..|cur| - 1], previous, x, i);
    }
  }

  datatype Kind = LVM | LVM_THIN | FILE | FILE_THIN | ZFS | ZFS_THIN | NoKind

  function ProviderKind(p: Pool): Kind {
    if p.lvm.Some? then LVM
    else if p.lvmThin.Some? then LVM_THIN
    else if p.file.Some? then FILE
    else if p.fileThin.Some? then FILE_THIN
    else if p.zfs.Some? then ZFS
    else if p.zfsThin.Some? then ZFS_THIN
    else NoKind
  }

  /** The backend of a pool on the node. */
  function PoolName(p: Pool): string {
    if p.lvm.Some? then (if p.lvm.value.volumeGroup != "" then p.lvm.value.volumeGroup else p.name)
    else if p.lvmThin.Some? then
      var lv := if p.lvmThin.value.thinPool != "" then p.lvmThin.value.thinPool else p.name;
      var vg := if p.lvmThin.value.volumeGroup != "" then p.lvmThin.value.volumeGroup else "linstor_" + lv;
      vg + "/" + lv
    else if p.file.Some? then DirectoryOrDefault(p.file.value, p.name)
    else if p.fileThin.Some? then DirectoryOrDefault(p.fileThin.value, p.name)
    else if p.zfs.Some? then (if p.zfs.value.zpool != "" then p.zfs.value.zpool else p.name)
    else if p.zfsThin.Some? then (if p.zfsThin.value.zpool != "" then p.zfsThin.value.zpool else p.name)
    else ""
  }

  function SharedSpace(p: Pool): string {
    if p.lvm.Some? then p.lvm.value.sharedSpace else ""
  }

  predicate ExternalLocking(p: Pool) {
    p.lvm.Some? && p.lvm.value.externalLocking
  }

  /** What stays the same of a pool from one accepted list to the next. */
  ghost predicate SameBackend(p: Pool, q: Pool) {
    && ProviderKind(q) == ProviderKind(p) != NoKind
    && SharedSpace(q) == SharedSpace(p) && ExternalLocking(q) == ExternalLocking(p)
    && (p.lvm.Some? || p.lvmThin.Some? ==> PoolName(q) == PoolName(p))
  }

  /** The pool q may follow p under the same name. */
  ghost predicate Continues(p: Pool, q: Pool) {
    && Types(p) == 1 && Types(q) == 1
    && SameBackend(p, q)
    && (q.source == p.source || q.source.None?)
  }

  lemma UpdateContinues(p: Pool, was: Pool, x: Syntax)
    requires Types(was) == 1 && was.name == p.name && TypesAccepted(p, Some(was), x)
    requires p.source.Some? ==> p.source == was.source
    ensures Continues(was, p)
  {
  }

  lemma ContinuesItself(p: Pool, previous: Option<Pool>, x: Syntax)
    requires TypesAccepted(p, previous, x)
    ensures Continues(p, p)
  {
  }

  lemma ContinuesTransitive(p: Pool, r: Pool, q: Pool)
    requires Continues(p, r) && Continues(r, q)
    ensures Continues(p, q)
  {
    hide PoolName;
  }

  /** Every pool that the webhook accepts in the place of p has the backend of p. */
  ghost predicate BackendProtected(p: Pool, x: Syntax) {
    forall q: Pool :: q.name == p.name && Accepted([q], [p], x) ==> PoolName(q) == PoolName(p)
  }

  lemma AcceptedSingle(q: Pool, previous: seq<Pool>, x: Syntax)
    ensures Accepted([q], previous, x)
       <==> TypesAccepted(q, Find(previous, q.name), x) && SourceAccepted(q.source, Find(previous, q.name), {}, x)
  {
    hide TypesAccepted, SourceAccepted, Find;
    var cur := [q];
    assert cur[..|cur| - 1] == [];
    assert Elements(AllDevices(cur[..|cur| - 1])) == {};
  }

  /** A pool of the kind of p, with another backend. */
  function Elsewhere(p: Pool): Pool {
    var other := PoolName(p) + "x";
    var directory := if PoolName(p) == "/a" then "/b" else "/a";
    if p.zfs.Some? then p.(zfs := Some(Zfs(other)), source := None)
    else if p.zfsThin.Some? then p.(zfsThin := Some(Zfs(other)), source := None)
    else if p.file.Some? then p.(file := Some(File(directory)))
    else p.(fileThin := Some(File(directory)))
  }

  lemma ElsewhereAccepted(p: Pool, x: Syntax)
    requires TypesAccepted(p, None, x) && p.lvm.None? && p.lvmThin.None?
    ensures TypesAccepted(Elsewhere(p), Some(p), x) && Elsewhere(p).source.None?
    ensures PoolName(Elsewhere(p)) != PoolName(p)
  {
    assert CleanAbsolute("/a") && CleanAbsolute("/b");
    assert PoolName(p) + "x" != PoolName(p) by { assert |PoolName(p) + "x"| == |PoolName(p)| + 1; }
  }

  /** The backend of an accepted pool is protected from updates exactly if it is an LVM pool, thick or
      thin: pools in a directory and on a zpool, thick or thin, may all move to another one. */
  lemma BackendKeptIff(p: Pool, x: Syntax)
    requires Accepted([p], [], x)
    ensures BackendProtected(p, x) <==> p.lvm.Some? || p.lvmThin.Some?
  {
    AcceptedSingle(p, [], x);
    if p.lvm.Some? || p.lvmThin.Some? {
      forall q: Pool | q.name == p.name && Accepted([q], [p], x) ensures PoolName(q) == PoolName(p) {
        AcceptedSingle(q, [p], x);
        UpdateContinues(q, p, x);
      }
    } else {
      var q := Elsewhere(p);
      ElsewhereAccepted(p, x);
      AcceptedSingle(q, [p], x);
      assert Accepted([q], [p], x);
    }
  }

  ghost predicate OnePerName(pools: seq<Pool>) {
    forall i, j :: 0 <= i < j < |pools| ==> pools[i].name != pools[j].name
  }

  /** Each list was accepted against the one before it, the first one as a new object, and names are
      keys of the list. */
  ghost predicate History(specs: seq<seq<Pool>>, x: Syntax) {
    && (forall i :: 0 <= i < |specs| ==> OnePerName(specs[i]))
    && forall i :: 0 <= i < |specs| ==> Accepted(specs[i], Before(specs, i), x)
  }

  ghost function Before(specs: seq<seq<Pool>>, i: nat): seq<Pool>
    requires i < |specs|
  {
    if i == 0 then [] else specs[i - 1]
  }

  lemma HistoryEach(specs: seq<seq<Pool>>, x: Syntax, i: nat, name: string)
    requires History(specs, x) && i < |specs| && Find(specs[i], name).Some?
    ensures var p := Find(specs[i], name).value; var was := Find(Before(specs, i), name);
            && TypesAccepted(p, was, x)
            && (p.source.Some? && was.Some? ==> was.value.source == p.source)
  {
    hide TypesAccepted;
    var p := Find(specs[i], name).value;
    var k :| 0 <= k < |specs[i]| && specs[i][k] == p;
    AcceptedEach(specs[i], Before(specs, i), x, k);
  }

  lemma Extends(p: Pool, r: Pool, q: Pool, x: Syntax)
    requires Continues(p, r) && r.name == q.name && TypesAccepted(q, Some(r), x)
    requires q.source.Some? ==> q.source == r.source
    ensures Continues(p, q)
  {
    hide SameBackend, TypesAccepted;
    UpdateContinues(q, r, x);
    ContinuesTransitive(p, r, q);
  }

  /** While a pool name stays in the list, its kind never changes, nor do the backend of an LVM pool, its
      shared space and its locking; its source stays what it was until it is dropped, and is never added. */
  lemma {:induction false} PoolsNeverChange(specs: seq<seq<Pool>>, x: Syntax, name: string, i: nat, j: nat)
    requires History(specs, x) && i <= j < |specs|
    requires forall k :: i <= k <= j ==> Find(specs[k], name).Some?
    ensures Continues(Find(specs[i], name).value, Find(specs[j], name).value)
    decreases j
  {
    hide TypesAccepted, Continues, Find, History;
    HistoryEach(specs, x, j, name);
    var q := Find(specs[j], name).value;
    if i == j {
      ContinuesItself(q, Find(Before(specs, i), name), x);
    } else {
      PoolsNeverChange(specs, x, name, i, j - 1);
      Extends(Find(specs[i], name).value, Find(specs[j - 1], name).value, q, x);
    }
  }
}
