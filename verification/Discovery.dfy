/**
 * From the disks of running VMs to the LUN keys the fencer evaluates: multipath sets
 * are joined into a disk's mapper name, split again, sorted, and joined into a key.
 */
module Discovery {
  import opened Wrappers
  import opened Text
  import opened DeviceNames
  import Lsblk
  import Multipath
  import Fencing

  datatype Disk = Disk(storage: string, deviceMapperName: Option<string>, devicePath: Option<string>)

  datatype VmInfo = VmInfo(status: string, disks: seq<Disk>)

  function StripPrefix(s: string, prefix: string): Option<string> {
    if prefix <= s then Some(s[|prefix|..]) else None
  }

  function Lookup(m: Lsblk.MpathMap, key: Option<string>): Option<set<string>> {
    if key.Some? && key.value in m then Some(m[key.value]) else None
  }

  /** The multipath set of a disk: five spellings of its storage are tried in turn. */
  function MatchDisk(m: Lsblk.MpathMap, storage: string): Option<set<string>> {
    var dmName, legacy := StorageToDmName(storage), StorageToDmNameLegacy(storage);
    Lookup(m, Some(dmName))
    .Or(Lookup(m, Some(legacy)))
    .Or(Lookup(m, Some(storage)))
    .Or(Lookup(m, StripPrefix(dmName, "/dev/mapper/")))
    .Or(Lookup(m, StripPrefix(legacy, "/dev/mapper/")))
  }

  /** The names under which a storage may be known, best first. */
  function Spellings(storage: string): seq<string> {
    var dmName, legacy := StorageToDmName(storage), StorageToDmNameLegacy(storage);
    [dmName, legacy, storage] + Stripped(dmName) + Stripped(legacy)
  }

  function Stripped(name: string): seq<string> {
    match StripPrefix(name, "/dev/mapper/")
    case Some(rest) => [rest]
    case None => []
  }

  /** A disk gets the set of the best spelling that is known, and none exactly when no spelling is known. */
  lemma MatchesBestSpelling(m: Lsblk.MpathMap, storage: string)
    ensures var names := Spellings(storage);
            match MatchDisk(m, storage)
            case None => forall n | n in names :: n !in m
            case Some(s) => exists i | 0 <= i < |names| ::
              names[i] in m && m[names[i]] == s && forall j | 0 <= j < i :: names[j] !in m
  {
    hide StorageToDmName, StorageToDmNameLegacy;
    var names := Spellings(storage);
    if MatchDisk(m, storage).Some? {
      var i := if names[0] in m then 0 else if names[1] in m then 1 else if names[2] in m then 2
               else if names[3] in m then 3 else 4;
      assert names[i] in m && m[names[i]] == MatchDisk(m, storage).value;
    }
  }

  lemma StripPrefixIff(s: string, prefix: string, rest: string)
    ensures StripPrefix(s, prefix) == Some(rest) <==> s == prefix + rest
  {
    if s == prefix + rest { assert s[|prefix|..] == rest; }
  }

  /** A disk given by the device path of `name` gets the set known under that path, else the one known under `name`. */
  lemma DevicePathMatches(m: Lsblk.MpathMap, name: string)
    requires ':' !in name
    ensures MatchDisk(m, "/dev/mapper/" + name) ==
              if "/dev/mapper/" + name in m then Some(m["/dev/mapper/" + name])
              else if name in m then Some(m[name])
              else None
  {
    var storage := "/dev/mapper/" + name;
    PlainStorageKeepsName(storage);
    StripPrefixIff(storage, "/dev/mapper/", name);
    hide StripPrefix;
  }

  /**
   * A disk on the logical volume `lv` of `vg` gets the set known under the name that
   * decodes to them, and only in its absence the one known under the legacy name.
   */
  lemma VolumeMatches(m: Lsblk.MpathMap, vg: string, lv: string)
    requires ':' !in vg && !StartsWithHyphen(lv)
    ensures var storage := vg + ":" + lv;
            var name, legacy := StorageToDmName(storage), StorageToDmNameLegacy(storage);
            && Unmangle(name) == Some((vg, lv))
            && (name in m ==> MatchDisk(m, storage) == Some(m[name]))
            && (name !in m && legacy in m ==> MatchDisk(m, storage) == Some(m[legacy]))
  {
    StorageNameDecodes(vg, lv);
    hide StripPrefix, StorageToDmName, StorageToDmNameLegacy;
  }

  // ---------- listing a set ----------

  ghost predicate Lists(l: seq<string>, s: set<string>) {
    multiset(l) == multiset(s)
  }

  /** The elements of a hash set in its arbitrary iteration order. */
  method ListSet(s: set<string>) returns (l: seq<string>)
    ensures Lists(l, s)
  {
    l := [];
    var rest := s;
    while rest != {}
      invariant rest <= s && multiset(l) + multiset(rest) == multiset(s)
      decreases rest
    {
      var x :| x in rest;
      l := l + [x];
      rest := rest - {x};
    }
  }

  lemma {:induction false} ListExists(s: set<string>)
    ensures exists l :: Lists(l, s)
  {
    if s == {} {
      assert Lists([], s);
    } else {
      var x :| x in s;
      ListExists(s - {x});
      var l :| Lists(l, s - {x});
      assert multiset(s) == multiset(s - {x}) + multiset{x};
      assert Lists(l + [x], s);
    }
  }

  /** The sorted listing of a set, which does not depend on the iteration order. */
  ghost function SortedList(s: set<string>): (r: seq<string>)
    ensures Sorted(r) && Lists(r, s) && |r| == |s|
    ensures forall l | Lists(l, s) :: Sort(l) == r
  {
    ListExists(s);
    var l :| Lists(l, s);
    SortCorrect(l);
    assert |Sort(l)| == |multiset(Sort(l))| == |s|;
    assert forall k | Lists(k, s) :: Sort(k) == Sort(l) by {
      forall k | Lists(k, s) ensures Sort(k) == Sort(l) { SortCanonical(k, l); }
    }
    Sort(l)
  }

  // ---------- the disks ----------

  ghost function MapperName(s: set<string>): string {
    Join(SortedList(s), " / ")
  }

  function DevicePaths(names: seq<string>): seq<string> {
    seq(|names|, i requires 0 <= i < |names| => "/dev/mapper/" + names[i])
  }

  ghost function PathName(s: set<string>): string {
    Join(DevicePaths(SortedList(s)), " / ")
  }

  ghost function Resolved(m: Lsblk.MpathMap, d: Disk): Disk {
    match MatchDisk(m, d.storage)
    case Some(s) => d.(deviceMapperName := Some(MapperName(s)), devicePath := Some(PathName(s)))
    case None => d
  }

  /** The multipath devices of one disk. */
  function DevicesOf(m: Lsblk.MpathMap, d: Disk): set<string> {
    MatchDisk(m, d.storage).GetOr({})
  }

  method JoinSorted(s: set<string>) returns (name: string, path: string)
    ensures name == MapperName(s) && path == PathName(s)
  {
    var mpathList := ListSet(s);
    mpathList := Sort(mpathList);
    name := Join(mpathList, " / ");
    path := Join(DevicePaths(mpathList), " / ");
  }

  /**
   * Fills in the mapper name and device path of every disk that matches a device, and
   * lists the devices of all disks of the VM in sorted order, if there are any.
   */
  method ResolveDisks(disks: array<Disk>, m: Lsblk.MpathMap)
    returns (vmMpaths: set<string>, listed: Option<seq<string>>)
    modifies disks
    ensures forall i | 0 <= i < disks.Length :: disks[i] == Resolved(m, old(disks[i]))
    ensures forall p :: p in vmMpaths <==> exists i | 0 <= i < disks.Length :: p in DevicesOf(m, old(disks[i]))
    ensures listed == if vmMpaths == {} then None else Some(SortedList(vmMpaths))
  {
    hide MatchDisk, MapperName, PathName;
    vmMpaths := {};
    for i := 0 to disks.Length
      invariant forall j | 0 <= j < i :: disks[j] == Resolved(m, old(disks[j]))
      invariant forall j | i <= j < disks.Length :: disks[j] == old(disks[j])
      invariant forall p :: p in vmMpaths <==> exists j | 0 <= j < i :: p in DevicesOf(m, old(disks[j]))
    {
      var matched := MatchDisk(m, disks[i].storage);
      if matched.Some? {
        var mapperName, pathName := JoinSorted(matched.value);
        disks[i] := disks[i].(deviceMapperName := Some(mapperName), devicePath := Some(pathName));
        vmMpaths := vmMpaths + matched.value;
      }
      assert forall p :: p in DevicesOf(m, old(disks[i])) <==> matched.Some? && p in matched.value;
    }
    listed := None;
    if vmMpaths != {} {
      var sortedMpaths := ListSet(vmMpaths);
      listed := Some(Sort(sortedMpaths));
    }
  }

  /** Where no name contains a blank, the device path splits into the paths of the set in sorted order. */
  lemma PathNameParts(s: set<string>)
    requires s != {} && forall n | n in s :: ' ' !in n
    ensures var parts, names := Split(PathName(s), " / "), SortedList(s);
            |parts| == |names| && forall i | 0 <= i < |names| :: parts[i] == "/dev/mapper/" + names[i]
  {
    var names := SortedList(s);
    var paths := DevicePaths(names);
    forall p | p in paths ensures ' ' !in p {
      var i :| 0 <= i < |paths| && paths[i] == p;
      assert names[i] in multiset(names);
    }
    SplitJoin(paths, " / ", 0);
  }

  // ---------- the LUN keys ----------

  function LunKey(dmName: string): string {
    var mpaths := Split(dmName, " / ");
    if |mpaths| > 1 then Join(Sort(mpaths), "+") else mpaths[0]
  }

  ghost predicate IsRunningDisk(vms: seq<VmInfo>, d: Disk) {
    exists vm | vm in vms :: vm.status == "running" && d in vm.disks
  }

  ghost predicate GivesKey(d: Disk, key: string) {
    d.deviceMapperName.Some? && key == LunKey(d.deviceMapperName.value)
  }

  ghost predicate HasKey(vms: seq<VmInfo>, key: string) {
    exists d :: IsRunningDisk(vms, d) && GivesKey(d, key)
  }

  ghost predicate SomeGives(disks: seq<Disk>, key: string) {
    exists d | d in disks :: GivesKey(d, key)
  }

  lemma SomeGivesNext(disks: seq<Disk>, j: nat, key: string)
    requires j < |disks|
    ensures SomeGives(disks[..j + 1], key) <==> SomeGives(disks[..j], key) || GivesKey(disks[j], key)
  {
    hide GivesKey;
    assert disks[..j + 1] == disks[..j] + [disks[j]];
  }

  /** Collects the keys of all disks of running VMs that have a mapper name. */
  method CollectLuns(vms: seq<VmInfo>) returns (luns: set<string>)
    ensures forall key :: key in luns <==> HasKey(vms, key)
  {
    luns := {};
    for i := 0 to |vms|
      invariant forall key :: key in luns <==> HasKey(vms[..i], key)
    {
      var vm := vms[i];
      ghost var before := luns;
      if vm.status == "running" {
        for j := 0 to |vm.disks|
          invariant forall key :: key in luns <==>
            key in before || SomeGives(vm.disks[..j], key)
        {
          hide SomeGives;
          if vm.disks[j].deviceMapperName.Some? {
            luns := luns + {LunKey(vm.disks[j].deviceMapperName.value)};
          }
          forall key
            ensures SomeGives(vm.disks[..j + 1], key) <==> SomeGives(vm.disks[..j], key) || GivesKey(vm.disks[j], key)
          {
            SomeGivesNext(vm.disks, j, key);
          }
        }
        assert vm.disks[..|vm.disks|] == vm.disks;
      }
      assert vms[..i + 1] == vms[..i] + [vm];
      forall key ensures key in luns <==> HasKey(vms[..i] + [vm], key) {
        HasKeyNext(vms[..i], vm, key);
      }
    }
    assert vms[..|vms|] == vms;
  }

  lemma HasKeyNext(vms: seq<VmInfo>, vm: VmInfo, key: string)
    ensures HasKey(vms + [vm], key) <==>
            HasKey(vms, key) || (vm.status == "running" && SomeGives(vm.disks, key))
  {
    hide GivesKey;
    var all := vms + [vm];
    if HasKey(vms, key) {
      var d :| IsRunningDisk(vms, d) && GivesKey(d, key);
      var v :| v in vms && v.status == "running" && d in v.disks;
      assert v in all;
      assert IsRunningDisk(all, d);
    }
    if vm.status == "running" && SomeGives(vm.disks, key) {
      var d :| d in vm.disks && GivesKey(d, key);
      assert all[|vms|] == vm;
      assert IsRunningDisk(all, d);
    }
    if HasKey(all, key) {
      var d :| IsRunningDisk(all, d) && GivesKey(d, key);
      var v :| v in all && v.status == "running" && d in v.disks;
      if v in vms { assert IsRunningDisk(vms, d); }
    }
  }

  // ---------- keys lose nothing ----------

  /** A non-empty set of multipath names without the two separator characters. */
  ghost predicate CleanSet(s: set<string>) {
    s != {} && forall n | n in s :: '/' !in n && '+' !in n
  }

  /** The fencer reads back from a key exactly the set that went into it. */
  lemma KeyIsLossless(s: set<string>)
    requires CleanSet(s)
    ensures Fencing.Parts(LunKey(MapperName(s))) == SortedList(s)
    ensures forall n :: n in Fencing.Parts(LunKey(MapperName(s))) <==> n in s
    ensures Fencing.IsSpanned(LunKey(MapperName(s))) <==> |s| >= 2
  {
    var l := SortedList(s);
    forall n ensures n in l <==> n in s {
      assert n in l <==> n in multiset(l);
    }
    assert l != [];
    SplitJoin(l, " / ", 1);
    assert Split(MapperName(s), " / ") == l;
    assert Sort(l) == l;
    SplitJoin(l, "+", 0);
    if |l| == 1 {
      assert Join(l, "+") == l[0];
    }
  }

  /** The key does not depend on the order in which the mapper name lists the devices. */
  lemma KeyIgnoresOrder(l: seq<string>, l': seq<string>)
    requires l != [] && multiset(l) == multiset(l') && forall n | n in l :: '/' !in n
    ensures LunKey(Join(l, " / ")) == LunKey(Join(l', " / "))
  {
    assert |l| == |multiset(l)| == |multiset(l')| == |l'|;
    forall n | n in l' ensures '/' !in n { assert n in multiset(l'); }
    SplitJoin(l, " / ", 1);
    SplitJoin(l', " / ", 1);
    SortCanonical(l, l');
    if |l| == 1 { assert l[0] in multiset(l'); }
  }

  /** Different sets get different keys. */
  lemma KeyIsInjective(s: set<string>, t: set<string>)
    requires CleanSet(s) && CleanSet(t) && LunKey(MapperName(s)) == LunKey(MapperName(t))
    ensures s == t
  {
    KeyIsLossless(s);
    KeyIsLossless(t);
    assert forall n :: n in s <==> n in t;
  }

  ghost predicate AllResolved(vms: seq<VmInfo>, m: Lsblk.MpathMap) {
    forall d | IsRunningDisk(vms, d) :: d == Resolved(m, Disk(d.storage, None, None))
  }

  /** Some running VM has a disk on a multipath set that holds the map's name or uuid. */
  ghost predicate UsedByRunningVm(vms: seq<VmInfo>, m: Lsblk.MpathMap, map': Multipath.MultipathMap) {
    exists d :: IsRunningDisk(vms, d) && DiskUses(m, d, map')
  }

  ghost predicate DiskUses(m: Lsblk.MpathMap, d: Disk, map': Multipath.MultipathMap) {
    var s := MatchDisk(m, d.storage);
    s.Some? && (map'.name in s.value || map'.uuid in s.value)
  }

  /** The fencer considers a map active exactly when a running VM's disk lies on it. */
  lemma ActiveIffUsed(vms: seq<VmInfo>, m: Lsblk.MpathMap, luns: set<string>, map': Multipath.MultipathMap)
    requires AllResolved(vms, m)
    requires forall k | k in m :: CleanSet(m[k])
    requires forall key :: key in luns <==> HasKey(vms, key)
    ensures (exists lun | lun in luns :: Fencing.Covers(lun, map')) <==> UsedByRunningVm(vms, m, map')
    ensures UsedByRunningVm(vms, m, map') <==>
              exists vm, d | vm in vms && d in vm.disks :: vm.status == "running" && DiskUses(m, d, map')
  {
    hide LunKey, Resolved, MatchDisk, Fencing.Covers, MapperName;
    if exists lun | lun in luns :: Fencing.Covers(lun, map') {
      var lun :| lun in luns && Fencing.Covers(lun, map');
      var d :| IsRunningDisk(vms, d) && GivesKey(d, lun);
      DiskCovers(m, d, map');
      assert DiskUses(m, d, map');
    }
    if UsedByRunningVm(vms, m, map') {
      var d :| IsRunningDisk(vms, d) && DiskUses(m, d, map');
      DiskCovers(m, d, map');
      var key := LunKey(d.deviceMapperName.value);
      assert GivesKey(d, key) && key in luns;
    }
  }

  lemma DiskCovers(m: Lsblk.MpathMap, d: Disk, map': Multipath.MultipathMap)
    requires d == Resolved(m, Disk(d.storage, None, None))
    requires forall k | k in m :: CleanSet(m[k])
    ensures DiskUses(m, d, map') ==> d.deviceMapperName.Some?
    ensures d.deviceMapperName.Some? ==>
              (Fencing.Covers(LunKey(d.deviceMapperName.value), map') <==> DiskUses(m, d, map'))
  {
    var s := MatchDisk(m, d.storage);
    if s.Some? {
      KeyIsLossless(s.value);
    }
  }
}
