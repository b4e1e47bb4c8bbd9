/** The parsed reply of `show maps json`, and when one of its maps counts as dead. */
module Multipath {
  import opened Wrappers

  datatype MpathPath = MpathPath(dmSt: Option<string>)

  datatype PathGroup = PathGroup(dmSt: Option<string>, paths: Option<seq<MpathPath>>)

  datatype MultipathMap = MultipathMap(
    name: string, uuid: string, pathGroups: Option<seq<PathGroup>>, vend: Option<string>, prod: Option<string>)

  predicate PathAlive(p: MpathPath) {
    p.dmSt.None? || p.dmSt.value !in {"failed", "faulty", "ghost"}
  }

  predicate GroupUsable(g: PathGroup) {
    g.dmSt.None? || g.dmSt.value !in {"offline", "failed"}
  }

  predicate GroupAlive(g: PathGroup) {
    GroupUsable(g) && g.paths.Some? && exists p | p in g.paths.value :: PathAlive(p)
  }

  /** No group of the map offers a live path; a map without a group list is not dead. */
  predicate MapDead(m: MultipathMap) {
    m.pathGroups.Some? && forall g | g in m.pathGroups.value :: !GroupAlive(g)
  }

  /** Outside groups that are offline or failed, every listed path is failed, faulty or a ghost. */
  lemma MapDeadIff(m: MultipathMap)
    ensures MapDead(m) <==>
            && m.pathGroups.Some?
            && forall g, p |
                 && g in m.pathGroups.value && g.dmSt !in {Some("offline"), Some("failed")}
                 && g.paths.Some? && p in g.paths.value ::
                 p.dmSt in {Some("failed"), Some("faulty"), Some("ghost")}
  {
    if MapDead(m) {
      forall g, p |
        && g in m.pathGroups.value && g.dmSt !in {Some("offline"), Some("failed")}
        && g.paths.Some? && p in g.paths.value
        ensures p.dmSt in {Some("failed"), Some("faulty"), Some("ghost")}
      {
        assert !GroupAlive(g) && GroupUsable(g) && !PathAlive(p);
      }
    }
  }

  /** The evaluation loop of the daemon, with its early exits. */
  method IsMapDead(m: MultipathMap) returns (dead: bool)
    ensures dead == MapDead(m)
    ensures dead <==>
            && m.pathGroups.Some?
            && forall g, p |
                 && g in m.pathGroups.value && g.dmSt !in {Some("offline"), Some("failed")}
                 && g.paths.Some? && p in g.paths.value ::
                 p.dmSt in {Some("failed"), Some("faulty"), Some("ghost")}
  {
    MapDeadIff(m);
    if m.pathGroups.None? {
      return false;
    }
    var groups := m.pathGroups.value;
    for i := 0 to |groups|
      invariant forall g | g in groups[..i] :: !GroupAlive(g)
    {
      var pg := groups[i];
      var pgAlive := true;
      if pg.dmSt.Some? {
        pgAlive := pg.dmSt.value != "offline" && pg.dmSt.value != "failed";
      }
      if !pgAlive {
        continue;
      }
      if pg.paths.Some? {
        var paths := pg.paths.value;
        var activePathFound := false;
        for j := 0 to |paths|
          invariant !activePathFound && forall p | p in paths[..j] :: !PathAlive(p)
        {
          var path := paths[j];
          if path.dmSt.Some? {
            var st := path.dmSt.value;
            if st != "failed" && st != "faulty" && st != "ghost" {
              activePathFound := true;
              assert PathAlive(path) && path in paths;
              break;
            }
          } else {
            activePathFound := true;
            assert PathAlive(path) && path in paths;
            break;
          }
        }
        if activePathFound {
          assert GroupAlive(pg) && pg in groups;
          return false;
        }
        assert paths[..|paths|] == paths;
      }
    }
    assert groups[..|groups|] == groups;
    return true;
  }

  function PathCount(groups: seq<PathGroup>): nat {
    if groups == [] then 0
    else (if groups[0].paths.Some? then |groups[0].paths.value| else 0) + PathCount(groups[1..])
  }

  /** The number of listed paths; a map without a group list lists none. */
  function TotalPaths(m: MultipathMap): nat {
    if m.pathGroups.Some? then PathCount(m.pathGroups.value) else 0
  }

  lemma {:induction false} PathCountPositive(groups: seq<PathGroup>)
    ensures PathCount(groups) > 0 <==> exists g | g in groups :: g.paths.Some? && g.paths.value != []
  {
    if groups != [] {
      PathCountPositive(groups[1..]);
      assert groups == [groups[0]] + groups[1..];
    }
  }

  /** A map lists paths exactly when one of its groups does. */
  lemma ListsPathsIff(m: MultipathMap)
    ensures TotalPaths(m) > 0 <==>
            m.pathGroups.Some? && exists g | g in m.pathGroups.value :: g.paths.Some? && g.paths.value != []
  {
    if m.pathGroups.Some? { PathCountPositive(m.pathGroups.value); }
  }

  // ---------- identifiers ----------

  predicate Answers(m: MultipathMap, id: string) {
    m.name == id || m.uuid == id
  }

  /** The first map carrying `id` as its name or uuid. */
  function FirstMatch(ms: seq<MultipathMap>, id: string): (r: Option<MultipathMap>)
    ensures r.Some? ==> r.value in ms && Answers(r.value, id)
    ensures r.None? ==> forall m | m in ms :: !Answers(m, id)
  {
    if ms == [] then None
    else if Answers(ms[0], id) then Some(ms[0])
    else FirstMatch(ms[1..], id)
  }

  /** The lookup stops at the first map with that name or uuid. */
  lemma {:induction false} FirstMatchIff(ms: seq<MultipathMap>, id: string, k: nat)
    requires k < |ms| && (ms[k].name == id || ms[k].uuid == id)
    requires forall j | 0 <= j < k :: ms[j].name != id && ms[j].uuid != id
    ensures FirstMatch(ms, id) == Some(ms[k])
  {
    if k > 0 { FirstMatchIff(ms[1..], id, k - 1); }
  }
}
