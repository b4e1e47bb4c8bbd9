/**
 * The map from device names to multipath sets that discovery matches disks against,
 * built from sysfs in production and from lsblk under tests, and why both agree.
 */
module DeviceMaps {
  import opened Wrappers
  import opened Sysfs
  import opened Lsblk

  // ---------- the map built from sysfs ----------

  /** Device `d` makes an entry under `k`: its dm/name is readable and it has multipath devices below it. */
  ghost predicate Writes(fs: Tree, d: string, k: string) {
    && MappedName(fs, d).Some? && MultipathsOf(fs, d) != {}
    && (MappedName(fs, d).value == k || d == k)
  }

  /** `m` holds under `k` what the last of the devices writing `k` found. */
  ghost predicate LastWriterWins(fs: Tree, devNames: seq<string>, m: MpathMap, k: string) {
    && (k in m <==> exists i | 0 <= i < |devNames| :: Writes(fs, devNames[i], k))
    && (k in m ==> exists i | 0 <= i < |devNames| ::
          && Writes(fs, devNames[i], k) && m[k] == MultipathsOf(fs, devNames[i])
          && forall j | i < j < |devNames| :: !Writes(fs, devNames[j], k))
  }

  method BuildSysfsMap(fs: Tree, devNames: seq<string>) returns (m: MpathMap)
    ensures forall k :: LastWriterWins(fs, devNames, m, k)
  {
    m := map[];
    for i := 0 to |devNames|
      invariant forall k :: LastWriterWins(fs, devNames[..i], m, k)
    {
      hide LastWriterWins, MultipathsOf, Writes;
      ghost var m0 := m;
      m := AddDevice(fs, devNames[i], m);
      assert devNames[..i + 1] == devNames[..i] + [devNames[i]];
      WritersNext(fs, devNames[..i], devNames[i], m0, m);
    }
    assert devNames[..|devNames|] == devNames;
  }

  /** One device: what it finds goes under its mapped name and its kernel name. */
  method AddDevice(fs: Tree, dev: string, m0: MpathMap) returns (m: MpathMap)
    ensures forall k | Writes(fs, dev, k) :: k in m && m[k] == MultipathsOf(fs, dev)
    ensures forall k | !Writes(fs, dev, k) :: (k in m <==> k in m0) && (k in m ==> m[k] == m0[k])
  {
    hide MultipathsOf, MappedName;
    m := m0;
    var name := MappedName(fs, dev);
    if name.Some? {
      var visited := new VisitedSet();
      var mpaths := FindMultipathsForDm(fs, dev, visited);
      if mpaths != {} {
        m := m[name.value := mpaths];
        m := m[dev := mpaths];
      }
    }
  }

  lemma WritersNext(fs: Tree, ds: seq<string>, d: string, m0: MpathMap, m: MpathMap)
    requires forall k :: LastWriterWins(fs, ds, m0, k)
    requires forall k | Writes(fs, d, k) :: k in m && m[k] == MultipathsOf(fs, d)
    requires forall k | !Writes(fs, d, k) :: (k in m <==> k in m0) && (k in m ==> m[k] == m0[k])
    ensures forall k :: LastWriterWins(fs, ds + [d], m, k)
  {
    hide LastWriterWins, Writes, MultipathsOf;
    forall k ensures LastWriterWins(fs, ds + [d], m, k) {
      WriterNext(fs, ds, d, m0, m, k);
    }
  }

  lemma WriterNext(fs: Tree, ds: seq<string>, d: string, m0: MpathMap, m: MpathMap, k: string)
    requires LastWriterWins(fs, ds, m0, k)
    requires Writes(fs, d, k) ==> k in m && m[k] == MultipathsOf(fs, d)
    requires !Writes(fs, d, k) ==> (k in m <==> k in m0) && (k in m ==> m[k] == m0[k])
    ensures LastWriterWins(fs, ds + [d], m, k)
  {
    hide Writes, MultipathsOf;
    var all := ds + [d];
    assert forall i | 0 <= i < |ds| :: all[i] == ds[i];
    if Writes(fs, d, k) {
      assert all[|ds|] == d;
    }
  }

  // ---------- what lsblk prints ----------

  /** lsblk shows a device under its mapped name where it has one. */
  function NameOf(fs: Tree, d: string): string {
    MappedName(fs, d).GetOr(d)
  }

  ghost predicate IsSlave(fs: Tree, s: string, d: string) {
    d in fs && fs[d].slaves.Some? && s in fs[d].slaves.value
  }

  ghost predicate IsRoot(fs: Tree, d: string) {
    d in fs && forall s :: !IsSlave(fs, s, d)
  }

  function Kids(t: LsblkDevice): seq<LsblkDevice> {
    if t.children.Listed? then t.children.devices else []
  }

  /**
   * `t` is the printout of `d` and everything built on it: below every device stand
   * the devices that have it as a slave, in any order.
   */
  ghost predicate Unrolls(fs: Tree, types: map<string, string>, t: LsblkDevice, d: string)
    decreases t, 1
  {
    && d in fs && d in types && t.name == NameOf(fs, d) && t.deviceType == types[d]
    && (forall c | c in Kids(t) :: PrintsHolderOf(fs, types, c, d))
    && (forall h | IsSlave(fs, d, h) :: IsPrintedIn(fs, types, t, h))
  }

  ghost predicate PrintsHolderOf(fs: Tree, types: map<string, string>, c: LsblkDevice, d: string)
    decreases c, 2
  {
    exists h | h in fs :: IsSlave(fs, d, h) && Unrolls(fs, types, c, h)
  }

  ghost predicate IsPrintedIn(fs: Tree, types: map<string, string>, t: LsblkDevice, h: string)
    decreases t, 0
  {
    exists c | c in Kids(t) :: Unrolls(fs, types, c, h)
  }

  ghost predicate UnrollsAll(fs: Tree, types: map<string, string>, ts: seq<LsblkDevice>, ds: set<string>) {
    && (forall t | t in ts :: PrintsOneOf(fs, types, t, ds))
    && (forall d | d in ds :: IsPrintedBy(fs, types, ts, d))
  }

  ghost predicate PrintsOneOf(fs: Tree, types: map<string, string>, t: LsblkDevice, ds: set<string>) {
    exists d | d in ds :: Unrolls(fs, types, t, d)
  }

  ghost predicate IsPrintedBy(fs: Tree, types: map<string, string>, ts: seq<LsblkDevice>, d: string) {
    exists t | t in ts :: Unrolls(fs, types, t, d)
  }

  /** The forest starts from exactly the devices without slaves. */
  ghost predicate UnrollsForest(fs: Tree, types: map<string, string>, devs: seq<LsblkDevice>) {
    UnrollsAll(fs, types, devs, set r | r in fs && IsRoot(fs, r))
  }

  /** Slaves are devices themselves, and their graph has no cycle. */
  ghost predicate Acyclic(fs: Tree) {
    exists rank: map<string, nat> :: RanksSlaves(fs, rank)
  }

  ghost predicate RanksSlaves(fs: Tree, rank: map<string, nat>) {
    rank.Keys == fs.Keys && forall s, d | IsSlave(fs, s, d) :: s in fs && rank[s] < rank[d]
  }

  /** The conditions on device names and types under which both sources speak of the same devices. */
  ghost predicate Consistent(fs: Tree, types: map<string, string>) {
    && types.Keys == fs.Keys
    && (forall s, d | IsSlave(fs, s, d) :: IsDmNode(d))
    && (forall d | d in fs && MappedName(fs, d).Some? :: IsDmNode(d))
    && (forall d | d in fs :: types[d] == "mpath" <==> IsMpath(fs, d))
    && (forall d, e | d in fs && e in fs && d != e :: NameOf(fs, d) != NameOf(fs, e))
  }

  lemma DeviceUnrolls(fs: Tree, types: map<string, string>, rank: map<string, nat>, top: nat, d: string)
    returns (t: LsblkDevice)
    requires RanksSlaves(fs, rank) && types.Keys == fs.Keys && d in fs
    requires forall e | e in fs :: rank[e] <= top
    ensures Unrolls(fs, types, t, d)
    decreases top + 1 - rank[d], 0
  {
    var holders := set h | h in fs && IsSlave(fs, d, h);
    var kids := DevicesUnroll(fs, types, rank, top, rank[d] + 1, holders);
    t := LsblkDevice(NameOf(fs, d), types[d], Listed(kids));
    assert Kids(t) == kids;
    forall c | c in kids ensures PrintsHolderOf(fs, types, c, d) {
      assert PrintsOneOf(fs, types, c, holders);
      var h :| h in holders && Unrolls(fs, types, c, h);
    }
    forall h | IsSlave(fs, d, h) ensures IsPrintedIn(fs, types, t, h) {
      assert h in holders && IsPrintedBy(fs, types, kids, h);
    }
  }

  lemma DevicesUnroll(fs: Tree, types: map<string, string>, rank: map<string, nat>, top: nat, low: nat, ds: set<string>)
    returns (ts: seq<LsblkDevice>)
    requires RanksSlaves(fs, rank) && types.Keys == fs.Keys && low <= top + 1
    requires forall d | d in ds :: d in fs && low <= rank[d]
    requires forall e | e in fs :: rank[e] <= top
    ensures UnrollsAll(fs, types, ts, ds)
    decreases top + 1 - low, 1 + |ds|
  {
    hide Unrolls, UnrollsAll;
    if ds == {} {
      ts := [];
      NothingUnrolls(fs, types);
    } else {
      var d :| d in ds;
      var t := DeviceUnrolls(fs, types, rank, top, d);
      var rest := DevicesUnroll(fs, types, rank, top, low, ds - {d});
      ts := [t] + rest;
      OneMoreUnrolls(fs, types, t, d, rest, ds);
    }
  }

  lemma NothingUnrolls(fs: Tree, types: map<string, string>)
    ensures UnrollsAll(fs, types, [], {})
  {
  }

  lemma OneMoreUnrolls(fs: Tree, types: map<string, string>, t: LsblkDevice, d: string,
                       rest: seq<LsblkDevice>, ds: set<string>)
    requires d in ds && Unrolls(fs, types, t, d) && UnrollsAll(fs, types, rest, ds - {d})
    ensures UnrollsAll(fs, types, [t] + rest, ds)
  {
    hide Unrolls;
    forall e | e in ds ensures IsPrintedBy(fs, types, [t] + rest, e) {
      PrintedByMore(fs, types, t, d, rest, e);
    }
    forall c | c in [t] + rest ensures PrintsOneOf(fs, types, c, ds) {
      if c != t {
        assert PrintsOneOf(fs, types, c, ds - {d});
      }
    }
    hide PrintsOneOf, IsPrintedBy;
  }

  lemma PrintedByMore(fs: Tree, types: map<string, string>, t: LsblkDevice, d: string,
                      rest: seq<LsblkDevice>, e: string)
    requires Unrolls(fs, types, t, d) && (e == d || IsPrintedBy(fs, types, rest, e))
    ensures IsPrintedBy(fs, types, [t] + rest, e)
  {
    hide Unrolls;
    var ts := [t] + rest;
    if e == d {
      assert ts[0] == t;
    } else {
      var c :| c in rest && Unrolls(fs, types, c, e);
      assert c in ts;
    }
  }

  lemma {:induction false} TopRank(ds: set<string>, rank: map<string, nat>) returns (top: nat)
    requires ds <= rank.Keys
    ensures forall d | d in ds :: rank[d] <= top
  {
    if ds == {} {
      top := 0;
    } else {
      var d :| d in ds;
      var rest := TopRank(ds - {d}, rank);
      top := if rank[d] > rest then rank[d] else rest;
    }
  }

  /** Every acyclic graph has a printout. */
  lemma ForestExists(fs: Tree, types: map<string, string>)
    requires Acyclic(fs) && types.Keys == fs.Keys
    ensures exists devs :: UnrollsForest(fs, types, devs)
  {
    var rank :| RanksSlaves(fs, rank);
    var top := TopRank(fs.Keys, rank);
    var roots := set r | r in fs && IsRoot(fs, r);
    hide Unrolls;
    var devs := DevicesUnroll(fs, types, rank, top, 0, roots);
    assert UnrollsForest(fs, types, devs);
  }

  // ---------- the search, one step at a time ----------

  lemma MultipathsStep(fs: Tree, d: string, e: string, p: string)
    requires Edge(fs, d, e) && p in MultipathsOf(fs, e)
    ensures p in MultipathsOf(fs, d)
  {
    var f :| f in Universe(fs) + {e} && Reaches(fs, e, f) && IsMpath(fs, f) && MappedName(fs, f).value == p;
    ReachesVia(fs, d, e, f);
    assert e in Universe(fs);
  }

  lemma MultipathsSelf(fs: Tree, d: string)
    requires IsMpath(fs, d)
    ensures MappedName(fs, d).value in MultipathsOf(fs, d)
  {
    ReachesSelf(fs, d);
  }

  /** A device with multipath devices below it is a dm- node. */
  lemma HasMultipathsIsDm(fs: Tree, types: map<string, string>, d: string)
    requires Consistent(fs, types) && MultipathsOf(fs, d) != {}
    ensures IsDmNode(d)
  {
    var p :| p in MultipathsOf(fs, d);
    var f :| f in Universe(fs) + {d} && Reaches(fs, d, f) && IsMpath(fs, f) && MappedName(fs, f).value == p;
    var c: seq<string> :| c != [] && c[0] == d && c[|c| - 1] == f && Chain(fs, c);
    if |c| > 1 {
      assert Edge(fs, c[0], c[1]);
      assert IsSlave(fs, c[1], d);
    }
  }

  // ---------- lines of descent against the search ----------

  lemma KidPrintsHolder(fs: Tree, types: map<string, string>, t: LsblkDevice, d: string, c: LsblkDevice)
    returns (h: string)
    requires Unrolls(fs, types, t, d) && c in Kids(t)
    ensures IsSlave(fs, d, h) && Unrolls(fs, types, c, h)
  {
    assert PrintsHolderOf(fs, types, c, d);
    h :| h in fs && IsSlave(fs, d, h) && Unrolls(fs, types, c, h);
  }

  lemma HolderIsPrinted(fs: Tree, types: map<string, string>, t: LsblkDevice, d: string, h: string)
    returns (c: LsblkDevice)
    requires Unrolls(fs, types, t, d) && IsSlave(fs, d, h)
    ensures c in Kids(t) && Unrolls(fs, types, c, h)
  {
    assert IsPrintedIn(fs, types, t, h);
    c :| c in Kids(t) && Unrolls(fs, types, c, h);
  }

  lemma PrintedNameAndType(fs: Tree, types: map<string, string>, t: LsblkDevice, d: string)
    requires Unrolls(fs, types, t, d)
    ensures d in fs && d in types && t.name == NameOf(fs, d) && t.deviceType == types[d]
  {
  }

  lemma RootOf(fs: Tree, types: map<string, string>, devs: seq<LsblkDevice>, t: LsblkDevice) returns (r: string)
    requires UnrollsForest(fs, types, devs) && t in devs
    ensures r in fs && Unrolls(fs, types, t, r)
  {
    hide Unrolls;
    assert PrintsOneOf(fs, types, t, set r | r in fs && IsRoot(fs, r));
    r :| r in fs && Unrolls(fs, types, t, r);
  }

  lemma RootIsPrinted(fs: Tree, types: map<string, string>, devs: seq<LsblkDevice>, r: string)
    returns (t: LsblkDevice)
    requires UnrollsForest(fs, types, devs) && IsRoot(fs, r)
    ensures t in devs && Unrolls(fs, types, t, r)
  {
    hide Unrolls;
    assert IsPrintedBy(fs, types, devs, r);
    t :| t in devs && Unrolls(fs, types, t, r);
  }

  /** The innermost mpath of the line, if any, is among those found below `d`. */
  ghost predicate FoundBelow(fs: Tree, c: seq<LsblkDevice>, d: string) {
    var p := Innermost(c, None);
    p.Some? ==> p.value in MultipathsOf(fs, d)
  }

  /** The end of every line of descent prints some device, and its innermost mpath is found below that device. */
  lemma {:induction false} LineageSound(fs: Tree, types: map<string, string>, devs: seq<LsblkDevice>,
                                        c: seq<LsblkDevice>)
    returns (d: string)
    requires Consistent(fs, types) && UnrollsForest(fs, types, devs) && Lineage(devs, c)
    ensures d in fs && Unrolls(fs, types, c[|c| - 1], d) && FoundBelow(fs, c, d)
  {
    var k := |c| - 1;
    if k == 0 {
      d := RootOf(fs, types, devs, c[0]);
      hide Unrolls, UnrollsForest, MultipathsOf;
      PrintedNameAndType(fs, types, c[0], d);
      assert c[..|c| - 1] == [] && Innermost(c[..|c| - 1], None) == None;
      if IsMpath(fs, d) { MultipathsSelf(fs, d); }
    } else {
      hide Unrolls, UnrollsForest;
      LineagePrefix(devs, c);
      var e := LineageSound(fs, types, devs, c[..k]);
      d := KidPrintsHolder(fs, types, c[k - 1], e, c[k]);
      PrintedNameAndType(fs, types, c[k], d);
      FoundOneFurther(fs, types, c, e, d);
    }
  }

  lemma LineagePrefix(devs: seq<LsblkDevice>, c: seq<LsblkDevice>)
    requires Lineage(devs, c) && |c| > 1
    ensures Lineage(devs, c[..|c| - 1]) && c[|c| - 1] in Kids(c[|c| - 2])
  {
    var up := c[..|c| - 1];
    forall i | 0 < i < |up| ensures IsChild(up[i - 1], up[i]) { assert IsChild(c[i - 1], c[i]); }
    assert IsChild(c[|c| - 2], c[|c| - 1]);
  }

  lemma FoundOneFurther(fs: Tree, types: map<string, string>, c: seq<LsblkDevice>, e: string, d: string)
    requires Consistent(fs, types) && c != [] && FoundBelow(fs, c[..|c| - 1], e) && IsSlave(fs, e, d)
    requires d in types && c[|c| - 1].name == NameOf(fs, d) && c[|c| - 1].deviceType == types[d]
    ensures FoundBelow(fs, c, d)
  {
    if IsMpath(fs, d) {
      MultipathsSelf(fs, d);
    } else if Innermost(c, None).Some? {
      HasMultipathsIsDm(fs, types, e);
      MultipathsStep(fs, d, e, Innermost(c, None).value);
    }
  }

  /** Every device of an acyclic graph is printed somewhere. */
  lemma {:induction false} DeviceIsPrinted(fs: Tree, types: map<string, string>, devs: seq<LsblkDevice>,
                                           rank: map<string, nat>, d: string)
    returns (c: seq<LsblkDevice>)
    requires RanksSlaves(fs, rank) && UnrollsForest(fs, types, devs) && d in fs
    ensures Lineage(devs, c) && Unrolls(fs, types, c[|c| - 1], d)
    decreases rank[d]
  {
    hide Unrolls, UnrollsForest;
    if IsRoot(fs, d) {
      var t := RootIsPrinted(fs, types, devs, d);
      c := [t];
    } else {
      var s :| IsSlave(fs, s, d);
      c := DeviceIsPrinted(fs, types, devs, rank, s);
      c := LineageExtend(fs, types, devs, c, s, d);
    }
  }

  lemma LineageExtend(fs: Tree, types: map<string, string>, devs: seq<LsblkDevice>, c: seq<LsblkDevice>,
                      s: string, d: string) returns (longer: seq<LsblkDevice>)
    requires Lineage(devs, c) && Unrolls(fs, types, c[|c| - 1], s) && IsSlave(fs, s, d)
    ensures Lineage(devs, longer) && longer[..|longer| - 1] == c && Unrolls(fs, types, longer[|longer| - 1], d)
  {
    hide Unrolls;
    var t := HolderIsPrinted(fs, types, c[|c| - 1], s, d);
    assert IsChild(c[|c| - 1], t);
    longer := c + [t];
    forall i | 0 < i < |longer| ensures IsChild(longer[i - 1], longer[i]) {
      if i < |c| { assert IsChild(c[i - 1], c[i]); }
    }
  }

  lemma ChainTail(fs: Tree, q: seq<string>)
    requires Chain(fs, q) && |q| > 1
    ensures Chain(fs, q[1..]) && Edge(fs, q[0], q[1]) && IsSlave(fs, q[1], q[0])
  {
    var rest := q[1..];
    forall i | 0 < i < |rest| ensures Edge(fs, rest[i - 1], rest[i]) { assert Edge(fs, q[i], q[i + 1]); }
    assert Edge(fs, q[0], q[1]);
  }

  /** Whatever the search finds along a chain is the innermost mpath of some printed occurrence. */
  lemma {:induction false} ChainComplete(fs: Tree, types: map<string, string>, devs: seq<LsblkDevice>, q: seq<string>)
    returns (c: seq<LsblkDevice>)
    requires Consistent(fs, types) && UnrollsForest(fs, types, devs) && Acyclic(fs)
    requires q != [] && Chain(fs, q) && q[|q| - 1] in fs && IsMpath(fs, q[|q| - 1])
    ensures Lineage(devs, c) && Unrolls(fs, types, c[|c| - 1], q[0])
    ensures Innermost(c, None) == MappedName(fs, q[|q| - 1])
  {
    hide Unrolls, UnrollsForest, Lineage, Chain;
    if |q| == 1 {
      var rank :| RanksSlaves(fs, rank);
      c := DeviceIsPrinted(fs, types, devs, rank, q[0]);
    } else {
      ChainTail(fs, q);
      var up := ChainComplete(fs, types, devs, q[1..]);
      c := LineageExtend(fs, types, devs, up, q[1], q[0]);
    }
    LineageEnds(devs, c);
    PrintedNameAndType(fs, types, c[|c| - 1], q[0]);
  }

  lemma LineageEnds(devs: seq<LsblkDevice>, c: seq<LsblkDevice>)
    requires Lineage(devs, c)
    ensures c != []
  {
  }

  /** For every device, the lsblk walk and the sysfs search find the same multipath devices. */
  lemma {:induction false} WalksAgree(fs: Tree, types: map<string, string>, devs: seq<LsblkDevice>,
                                      d: string, p: string)
    requires Consistent(fs, types) && UnrollsForest(fs, types, devs) && Acyclic(fs) && d in fs
    ensures Tagged(devs, None, NameOf(fs, d), p) <==> p in MultipathsOf(fs, d)
  {
    if Tagged(devs, None, NameOf(fs, d), p) {
      var c :| TaggedBy(c, devs, None, NameOf(fs, d), p);
      hide Unrolls, UnrollsForest, MultipathsOf, Acyclic;
      var e := LineageSound(fs, types, devs, c);
      PrintedNameAndType(fs, types, c[|c| - 1], e);
    }
    if p in MultipathsOf(fs, d) {
      hide Unrolls, UnrollsForest, Acyclic;
      var f :| f in Universe(fs) + {d} && Reaches(fs, d, f) && IsMpath(fs, f) && MappedName(fs, f).value == p;
      var q: seq<string> :| q != [] && q[0] == d && q[|q| - 1] == f && Chain(fs, q);
      var c := ChainComplete(fs, types, devs, q);
      PrintedNameAndType(fs, types, c[|c| - 1], d);
      assert TaggedBy(c, devs, None, NameOf(fs, d), p);
    }
  }

  /** No device's mapped name is another device's kernel name. */
  ghost predicate NamesApart(fs: Tree) {
    forall e, k | e in fs && k in fs && MappedName(fs, e) == Some(k) :: k == e
  }

  lemma SysfsEntry(fs: Tree, types: map<string, string>, devNames: seq<string>, m: MpathMap, d: string, n: string)
    requires Consistent(fs, types) && NamesApart(fs)
    requires forall e :: e in devNames <==> e in fs && IsDmNode(e)
    requires LastWriterWins(fs, devNames, m, n)
    requires d in fs && MappedName(fs, d) == Some(n)
    ensures n in m <==> MultipathsOf(fs, d) != {}
    ensures n in m ==> m[n] == MultipathsOf(fs, d)
  {
    hide MultipathsOf;
    assert d in devNames;
    forall e | e in devNames && Writes(fs, e, n) ensures e == d {
      assert NameOf(fs, d) == n;
      if e == n { assert n in fs; } else { assert NameOf(fs, e) == n; }
    }
    if MultipathsOf(fs, d) != {} {
      var i :| 0 <= i < |devNames| && devNames[i] == d;
      assert Writes(fs, devNames[i], n);
    }
  }

  /** The entry under `n` is what the lsblk walk leaves there. */
  ghost predicate RecordsTags(devs: seq<LsblkDevice>, m: MpathMap, n: string) {
    && (forall p :: HasPair(m, n, p) <==> Tagged(devs, None, n, p))
    && (n in m <==> exists p :: Tagged(devs, None, n, p))
  }

  lemma LsblkEntry(devs: seq<LsblkDevice>, m: MpathMap, n: string, found: set<string>)
    requires RecordsTags(devs, m, n)
    requires forall p :: Tagged(devs, None, n, p) <==> p in found
    ensures n in m <==> found != {}
    ensures n in m ==> m[n] == found
  {
    hide Tagged;
    if n in m {
      assert forall p :: p in m[n] <==> HasPair(m, n, p);
      var p :| Tagged(devs, None, n, p);
    }
    if found != {} {
      var p :| p in found;
      assert HasPair(m, n, p);
    }
  }

  /**
   * The two maps answer alike for every mapped device, whatever order sysfs lists its
   * devices in.
   */
  lemma {:induction false} MapsAgree(fs: Tree, types: map<string, string>, devs: seq<LsblkDevice>,
                                     devNames: seq<string>, fromLsblk: MpathMap, fromSysfs: MpathMap,
                                     d: string, n: string)
    requires Consistent(fs, types) && UnrollsForest(fs, types, devs) && Acyclic(fs)
    requires d in fs && MappedName(fs, d) == Some(n)
    ensures NamesApart(fs) && (forall e :: e in devNames <==> e in fs && IsDmNode(e))
            && RecordsTags(devs, fromLsblk, n) && LastWriterWins(fs, devNames, fromSysfs, n) ==>
              && (n in fromLsblk <==> n in fromSysfs)
              && (n in fromSysfs ==> fromLsblk[n] == fromSysfs[n])
  {
    if NamesApart(fs) && (forall e :: e in devNames <==> e in fs && IsDmNode(e))
       && RecordsTags(devs, fromLsblk, n) && LastWriterWins(fs, devNames, fromSysfs, n) {
      SysfsEntry(fs, types, devNames, fromSysfs, d, n);
      forall p ensures Tagged(devs, None, n, p) <==> p in MultipathsOf(fs, d) {
        WalksAgree(fs, types, devs, d, p);
      }
      hide Tagged, MultipathsOf, UnrollsForest, Consistent, Acyclic, RecordsTags;
      LsblkEntry(devs, fromLsblk, n, MultipathsOf(fs, d));
    }
  }

  /** No printed device goes by the kernel name of a device that has a mapped name. */
  lemma KernelNameNotPrinted(fs: Tree, types: map<string, string>, devs: seq<LsblkDevice>, d: string, p: string)
    requires Consistent(fs, types) && UnrollsForest(fs, types, devs) && Acyclic(fs) && NamesApart(fs)
    requires d in fs && MappedName(fs, d).Some? && MappedName(fs, d) != Some(d)
    ensures !Tagged(devs, None, d, p)
  {
    if Tagged(devs, None, d, p) {
      var c :| TaggedBy(c, devs, None, d, p);
      hide Unrolls, UnrollsForest, MultipathsOf, Acyclic;
      var e := LineageSound(fs, types, devs, c);
      PrintedNameAndType(fs, types, c[|c| - 1], e);
      assert false;
    }
  }

  /**
   * The map from sysfs has a second entry, equal to the first, under the kernel name of
   * each mapped device; the map from lsblk has none there.
   */
  lemma {:induction false} KernelNameIsAlias(fs: Tree, types: map<string, string>, devs: seq<LsblkDevice>,
                                             devNames: seq<string>, fromLsblk: MpathMap, fromSysfs: MpathMap,
                                             d: string, n: string)
    requires Consistent(fs, types) && UnrollsForest(fs, types, devs) && Acyclic(fs)
    requires d in fs && MappedName(fs, d) == Some(n) && n != d
    ensures NamesApart(fs) && (forall e :: e in devNames <==> e in fs && IsDmNode(e))
            && RecordsTags(devs, fromLsblk, d)
            && LastWriterWins(fs, devNames, fromSysfs, d) && LastWriterWins(fs, devNames, fromSysfs, n) ==>
              && d !in fromLsblk
              && (d in fromSysfs <==> n in fromSysfs)
              && (d in fromSysfs ==> fromSysfs[d] == fromSysfs[n])
  {
    if NamesApart(fs) && (forall e :: e in devNames <==> e in fs && IsDmNode(e))
       && RecordsTags(devs, fromLsblk, d)
       && LastWriterWins(fs, devNames, fromSysfs, d) && LastWriterWins(fs, devNames, fromSysfs, n) {
      SysfsEntry(fs, types, devNames, fromSysfs, d, n);
      KernelSysfsEntry(fs, types, devNames, fromSysfs, d);
      forall p ensures !Tagged(devs, None, d, p) {
        KernelNameNotPrinted(fs, types, devs, d, p);
      }
      hide Tagged, MultipathsOf, UnrollsForest, Consistent, Acyclic;
    }
  }

  lemma KernelSysfsEntry(fs: Tree, types: map<string, string>, devNames: seq<string>, m: MpathMap, d: string)
    requires Consistent(fs, types) && NamesApart(fs)
    requires forall e :: e in devNames <==> e in fs && IsDmNode(e)
    requires LastWriterWins(fs, devNames, m, d)
    requires d in fs && MappedName(fs, d).Some?
    ensures d in m <==> MultipathsOf(fs, d) != {}
    ensures d in m ==> m[d] == MultipathsOf(fs, d)
  {
    hide MultipathsOf;
    assert d in devNames;
    forall e | e in devNames && Writes(fs, e, d) ensures e == d {
      assert MappedName(fs, e) == Some(d) ==> d == e;
    }
    if MultipathsOf(fs, d) != {} {
      var i :| 0 <= i < |devNames| && devNames[i] == d;
      assert Writes(fs, devNames[i], d);
    }
  }
}
