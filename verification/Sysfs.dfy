/**
 * Resolving a device-mapper device to the multipath devices below it by walking
 * /sys/block/<device>/slaves. Slave graphs may share nodes and may be cyclic.
 */
module Sysfs {
  import opened Wrappers
  import Text

  /** One /sys/block entry: the content of dm/name and the slaves in directory order, where readable. */
  datatype Device = Device(dmName: Option<string>, slaves: Option<seq<string>>)

  type Tree = map<string, Device>

  /** The content of dm/name without surrounding white space. */
  function MappedName(fs: Tree, d: string): Option<string> {
    if d in fs && fs[d].dmName.Some? then Some(Text.Trim(fs[d].dmName.value)) else None
  }

  function Slaves(fs: Tree, d: string): Option<seq<string>> {
    if d in fs then fs[d].slaves else None
  }

  predicate IsDmNode(d: string) {
    "dm-" <= d
  }

  predicate IsMpath(fs: Tree, d: string) {
    MappedName(fs, d).Some? && "mpath" <= MappedName(fs, d).value
  }

  /** The walk goes from `d` to `e`: `d` is no multipath device and `e` is one of its dm- slaves. */
  ghost predicate Edge(fs: Tree, d: string, e: string) {
    !IsMpath(fs, d) && Slaves(fs, d).Some? && e in Slaves(fs, d).value && IsDmNode(e)
  }

  ghost predicate Chain(fs: Tree, p: seq<string>) {
    forall i | 0 < i < |p| :: Edge(fs, p[i - 1], p[i])
  }

  /** `e` can be reached from `d` without passing through a multipath device. */
  ghost predicate Reaches(fs: Tree, d: string, e: string) {
    exists p: seq<string> :: p != [] && p[0] == d && p[|p| - 1] == e && Chain(fs, p)
  }

  /** Every device that appears anywhere in the tree. */
  ghost function Universe(fs: Tree): set<string> {
    fs.Keys + set d, e | d in fs && fs[d].slaves.Some? && e in fs[d].slaves.value :: e
  }

  ghost function NamesOf(fs: Tree, ds: set<string>): set<string> {
    set d | d in ds && IsMpath(fs, d) :: MappedName(fs, d).value
  }

  /** The names of the multipath devices reachable from `dm`. */
  ghost function MultipathsOf(fs: Tree, dm: string): set<string> {
    NamesOf(fs, set e | e in Universe(fs) + {dm} && Reaches(fs, dm, e))
  }

  /** Every edge out of `ds` stays in `seen`. */
  ghost predicate ClosedIn(fs: Tree, ds: set<string>, seen: set<string>) {
    forall d, e | d in ds && Edge(fs, d, e) :: e in seen
  }

  lemma ReachesSelf(fs: Tree, d: string)
    ensures Reaches(fs, d, d)
  {
    assert Chain(fs, [d]) && [d][0] == d;
  }

  lemma ReachesVia(fs: Tree, d: string, e: string, f: string)
    requires Edge(fs, d, e) && Reaches(fs, e, f)
    ensures Reaches(fs, d, f)
  {
    var p: seq<string> :| p != [] && p[0] == e && p[|p| - 1] == f && Chain(fs, p);
    var q := [d] + p;
    assert Chain(fs, q) && q[0] == d && q[|q| - 1] == f;
  }

  lemma {:induction false} ClosedSetHoldsChain(fs: Tree, ds: set<string>, p: seq<string>)
    requires ClosedIn(fs, ds, ds) && p != [] && p[0] in ds && Chain(fs, p)
    ensures p[|p| - 1] in ds
  {
    if |p| > 1 {
      assert Edge(fs, p[0], p[1]);
      var q := p[1..];
      assert Chain(fs, q) by {
        forall i | 0 < i < |q| ensures Edge(fs, q[i - 1], q[i]) {
          assert Edge(fs, p[i], p[i + 1]);
        }
      }
      ClosedSetHoldsChain(fs, ds, q);
    }
  }

  // ---------- the search in terms of the files ----------

  /** The dm/name file of `d` is readable and holds `n`, between white space. */
  ghost predicate Named(fs: Tree, d: string, n: string) {
    d in fs && fs[d].dmName.Some? && Text.StandsIn(n, fs[d].dmName.value)
  }

  ghost predicate StartsWith(s: string, prefix: string) {
    exists rest :: s == prefix + rest
  }

  lemma StartsWithIff(s: string, prefix: string)
    ensures StartsWith(s, prefix) <==> prefix <= s
  {
    if prefix <= s { assert s == prefix + s[|prefix|..]; }
  }

  /** `e` is in the slaves directory of `d`, is called "dm-…", and `d` is not called "mpath…". */
  ghost predicate Descends(fs: Tree, d: string, e: string) {
    && d in fs && fs[d].slaves.Some? && e in fs[d].slaves.value && StartsWith(e, "dm-")
    && !exists n :: Named(fs, d, n) && StartsWith(n, "mpath")
  }

  lemma MappedNameIff(fs: Tree, d: string, n: string)
    ensures MappedName(fs, d) == Some(n) <==> Named(fs, d, n)
  {
    hide Text.StandsIn, Text.Trim;
    if d in fs && fs[d].dmName.Some? { Text.TrimIff(fs[d].dmName.value, n); }
  }

  lemma IsMpathIff(fs: Tree, d: string)
    ensures IsMpath(fs, d) <==> exists n :: Named(fs, d, n) && StartsWith(n, "mpath")
  {
    hide MappedName, Named, StartsWith;
    forall n ensures MappedName(fs, d) == Some(n) <==> Named(fs, d, n) { MappedNameIff(fs, d, n); }
    forall n ensures StartsWith(n, "mpath") <==> "mpath" <= n { StartsWithIff(n, "mpath"); }
    if MappedName(fs, d).Some? { assert Named(fs, d, MappedName(fs, d).value); }
  }

  lemma EdgeIff(fs: Tree, d: string, e: string)
    ensures Edge(fs, d, e) <==> Descends(fs, d, e)
  {
    hide IsMpath, Named;
    IsMpathIff(fs, d);
    StartsWithIff(e, "dm-");
  }

  lemma ReachedInUniverse(fs: Tree, d: string, p: seq<string>)
    requires p != [] && p[0] == d && Chain(fs, p)
    ensures p[|p| - 1] in Universe(fs) + {d}
  {
    if |p| > 1 { assert Edge(fs, p[|p| - 2], p[|p| - 1]); }
  }

  /** `p` goes down from `dm`, directory by directory. */
  ghost predicate Descent(fs: Tree, dm: string, p: seq<string>) {
    p != [] && p[0] == dm && forall i | 0 < i < |p| :: Descends(fs, p[i - 1], p[i])
  }

  /** A name is found exactly when it starts with "mpath" and some descent from `dm` ends at a device of that name. */
  lemma {:induction false} MultipathsOfIff(fs: Tree, dm: string, n: string)
    ensures n in MultipathsOf(fs, dm) <==>
            StartsWith(n, "mpath") && exists p: seq<string> :: Descent(fs, dm, p) && Named(fs, p[|p| - 1], n)
  {
    hide Named, StartsWith, Descends, Universe, Edge, MappedName;
    forall d, e ensures Edge(fs, d, e) <==> Descends(fs, d, e) { EdgeIff(fs, d, e); }
    StartsWithIff(n, "mpath");
    if n in MultipathsOf(fs, dm) {
      var d :| d in Universe(fs) + {dm} && Reaches(fs, dm, d) && IsMpath(fs, d) && MappedName(fs, d).value == n;
      var p: seq<string> :| p != [] && p[0] == dm && p[|p| - 1] == d && Chain(fs, p);
      MappedNameIff(fs, d, n);
      assert Descent(fs, dm, p);
    }
    if StartsWith(n, "mpath") && exists p: seq<string> :: Descent(fs, dm, p) && Named(fs, p[|p| - 1], n) {
      var p: seq<string> :| Descent(fs, dm, p) && Named(fs, p[|p| - 1], n);
      MappedNameIff(fs, p[|p| - 1], n);
      ReachedInUniverse(fs, dm, p);
      assert Reaches(fs, dm, p[|p| - 1]) && IsMpath(fs, p[|p| - 1]);
    }
  }

  /** The set shared by all levels of the recursion. */
  class VisitedSet {
    var names: set<string>

    constructor ()
      ensures names == {}
    {
      names := {};
    }

    method Add(name: string) returns (isNew: bool)
      modifies this
      ensures names == old(names) + {name} && isNew == (name !in old(names))
    {
      isNew := name !in names;
      names := names + {name};
    }
  }

  /**
   * The recursive walk. From an empty visited set it finds exactly the reachable
   * multipath devices; in general it finds those among the devices it newly visits.
   */
  method FindMultipathsForDm(fs: Tree, dm: string, visited: VisitedSet) returns (mpaths: set<string>)
    modifies visited
    ensures old(visited.names) == {} ==> mpaths == MultipathsOf(fs, dm)
    ensures dm in visited.names && old(visited.names) <= visited.names
    ensures mpaths == NamesOf(fs, visited.names - old(visited.names))
    ensures forall e | e in visited.names - old(visited.names) :: e in Universe(fs) + {dm} && Reaches(fs, dm, e)
    ensures ClosedIn(fs, visited.names - old(visited.names), visited.names)
    decreases Universe(fs) + {dm} - visited.names
  {
    hide Reaches, MultipathsOf;
    ghost var before := visited.names;
    mpaths := {};
    var isNew := visited.Add(dm);
    if !isNew {
      assert visited.names == before;
      return;
    }
    ReachesSelf(fs, dm);
    var name := MappedName(fs, dm);
    if name.Some? && "mpath" <= name.value {
      mpaths := {name.value};
      assert visited.names - before == {dm};
      SingletonNames(fs, dm);
      ClosedIsReachable(fs, dm, before, visited.names);
      return;
    }
    assert !IsMpath(fs, dm);
    var entries := Slaves(fs, dm);
    if entries.Some? {
      var slaves := entries.value;
      for i := 0 to |slaves|
        invariant before + {dm} <= visited.names
        invariant mpaths == NamesOf(fs, visited.names - before)
        invariant forall e | e in visited.names - before :: e in Universe(fs) + {dm} && Reaches(fs, dm, e)
        invariant ClosedIn(fs, visited.names - before - {dm}, visited.names)
        invariant forall s | s in slaves[..i] && IsDmNode(s) :: s in visited.names
      {
        var slave := slaves[i];
        if IsDmNode(slave) {
          ghost var mid := visited.names;
          assert slave in Universe(fs) && Edge(fs, dm, slave);
          var sub := FindMultipathsForDm(fs, slave, visited);
          forall e | e in visited.names - mid ensures Reaches(fs, dm, e) {
            ReachesVia(fs, dm, slave, e);
          }
          mpaths := mpaths + sub;
          assert visited.names - before == (mid - before) + (visited.names - mid);
        }
      }
      assert slaves[..|slaves|] == slaves;
    }
    ClosedIsReachable(fs, dm, before, visited.names);
  }

  lemma SingletonNames(fs: Tree, dm: string)
    requires IsMpath(fs, dm)
    ensures NamesOf(fs, {dm}) == {MappedName(fs, dm).value}
  {
  }

  /** A closed set of reachable devices that holds the start is the whole reachable set. */
  lemma ClosedIsReachable(fs: Tree, dm: string, before: set<string>, after: set<string>)
    requires dm in after - before
    requires forall e | e in after - before :: e in Universe(fs) + {dm} && Reaches(fs, dm, e)
    requires ClosedIn(fs, after - before, after)
    ensures before == {} ==> NamesOf(fs, after - before) == MultipathsOf(fs, dm)
  {
    if before == {} {
      forall e | e in Universe(fs) + {dm} && Reaches(fs, dm, e) ensures e in after {
        var p: seq<string> :| p != [] && p[0] == dm && p[|p| - 1] == e && Chain(fs, p);
        ClosedSetHoldsChain(fs, after, p);
      }
      assert after == (set e | e in Universe(fs) + {dm} && Reaches(fs, dm, e));
      assert after - before == after;
    }
  }
}
