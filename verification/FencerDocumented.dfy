/** The rule that the documentation states for fencing, and how far the code follows it. */
module FencingDocumented {
  import opened Wrappers
  import opened Multipath
  import opened Fencing
  import opened FencingRuns
  import opened FencingGuarantees
  import opened FencingOmissions

  // ---------- which maps are down ----------

  predicate DocumentedDown(p: MpathPath) {
    p.dmSt.Some? && p.dmSt.value in {"faulty", "failed", "offline"}
  }

  predicate GroupDown(g: PathGroup) {
    g.paths.Some? ==> forall p | p in g.paths.value :: DocumentedDown(p)
  }

  /** The map lists paths and all of them are in the states that the documentation counts as down. */
  predicate AllPathsDown(m: MultipathMap) {
    TotalPaths(m) > 0 && m.pathGroups.Some? && forall g | g in m.pathGroups.value :: GroupDown(g)
  }

  predicate HasOfflinePath(g: PathGroup) {
    g.paths.Some? && exists p | p in g.paths.value :: p.dmSt == Some("offline")
  }

  /** A usable group of the map lists an offline path. */
  predicate OffersOffline(m: MultipathMap) {
    m.pathGroups.Some? && exists g | g in m.pathGroups.value :: GroupUsable(g) && HasOfflinePath(g)
  }

  /** Of the maps that the documentation counts as down, the code counts those as dead that offer no offline path. */
  lemma DownIsDeadIff(m: MultipathMap)
    requires AllPathsDown(m)
    ensures MapDead(m) <==> !OffersOffline(m)
  {
    forall g | g in m.pathGroups.value ensures GroupAlive(g) <==> GroupUsable(g) && HasOfflinePath(g) {
      assert GroupDown(g);
      if g.paths.Some? {
        forall p | p in g.paths.value ensures PathAlive(p) <==> p.dmSt == Some("offline") {
          assert DocumentedDown(p);
        }
      }
    }
  }

  // ---------- whether one of them is enough ----------

  ghost predicate DistinctNames(ms: seq<MultipathMap>) {
    forall i, j | 0 <= i < j < |ms| :: ms[i].name != ms[j].name
  }

  /** Every identifier belongs to one map, and no map is listed twice. */
  ghost predicate Plain(ms: seq<MultipathMap>) {
    Unambiguous(ms) && DistinctNames(ms)
  }

  /** In each such reply, one monitored map that is down fails the cycle. */
  ghost predicate DownMapFails(cfg: Config, luns: set<string>) {
    forall s: State, maps: seq<MultipathMap>, m |
      Plain(Monitored(cfg, Cycle(maps, luns))) && m in Monitored(cfg, Cycle(maps, luns)) && AllPathsDown(m) ::
      Fails(cfg, s, Cycle(maps, luns))
  }

  /** The same for maps without an offline path in a usable group. */
  ghost predicate DownMapWithoutOfflineFails(cfg: Config, luns: set<string>) {
    forall s: State, maps: seq<MultipathMap>, m |
      && Plain(Monitored(cfg, Cycle(maps, luns))) && m in Monitored(cfg, Cycle(maps, luns))
      && AllPathsDown(m) && !OffersOffline(m) ::
      Fails(cfg, s, Cycle(maps, luns))
  }

  lemma OnePathMapDown(name: string, uuid: string, dmSt: string)
    requires dmSt in {"faulty", "failed", "offline"}
    ensures var m := OnePathMap(name, uuid, dmSt);
            AllPathsDown(m) && TotalPaths(m) > 0 && (OffersOffline(m) <==> dmSt == "offline")
  {
    var m := OnePathMap(name, uuid, dmSt);
    var g := m.pathGroups.value[0];
    assert PathCount(m.pathGroups.value) == 1 by { assert m.pathGroups.value[1..] == []; }
    assert g in m.pathGroups.value && g.paths.value[0] in g.paths.value;
  }

  lemma {:induction false} ObservedDead(l: Latch, ms: seq<MultipathMap>, k: nat)
    requires DistinctNames(ms) && k < |ms| && MapDead(ms[k])
    ensures ms[k].name in ObserveAll(l, ms).dead && ObserveAll(l, ms).dead[ms[k].name]
  {
    if k < |ms| - 1 {
      ObservedDead(l, ms[..|ms| - 1], k);
    }
  }

  /** As documented, with "offline" among the states, the rule holds of the code only while nothing is in use. */
  lemma {:induction false} DocumentedRuleIff(cfg: Config, luns: set<string>)
    ensures DownMapFails(cfg, luns) <==> luns == {}
  {
    if luns != {} {
      var lun :| lun in luns;
      var name := Parts(lun)[0];
      var uuid := if t :| t in cfg.targetWwids then t else name;
      var m := OnePathMap(name, uuid, "offline");
      OnePathMapDown(name, uuid, "offline");
      DownIsDeadIff(m);
      assert Covers(lun, m);
      FilterOne(m, luns, cfg.targetWwids);
      LoneLiveMapIsFine(cfg, INITIAL, m, luns);
      assert Plain([m]) && m in Monitored(cfg, Cycle([m], luns));
    } else {
      assert forall maps, m :: m !in Monitored(cfg, Cycle(maps, luns));
    }
  }

  /** Apart from offline paths, it holds exactly where no map can be outvoted by a LUN that still works. */
  lemma {:induction false} DocumentedRuleWithoutOfflineIff(cfg: Config, luns: set<string>)
    ensures DownMapWithoutOfflineFails(cfg, luns) <==> OneSuffices(luns, cfg.targetWwids)
  {
    hide OneSuffices, Fails, AllPathsDown, OffersOffline;
    if OneSuffices(luns, cfg.targetWwids) {
      forall s: State, maps: seq<MultipathMap>, m |
        && Plain(Monitored(cfg, Cycle(maps, luns))) && m in Monitored(cfg, Cycle(maps, luns))
        && AllPathsDown(m) && !OffersOffline(m)
        ensures Fails(cfg, s, Cycle(maps, luns))
      {
        DownIsDeadIff(m);
        var ms := Monitored(cfg, Cycle(maps, luns));
        var k: nat :| k < |ms| && ms[k] == m;
        ObservedDead(Latch(s.had, s.broken, map[]), ms, k);
        OneDeadMapFails(cfg, s, Cycle(maps, luns));
      }
    } else {
      var lun, id := OutvotablePair(luns, cfg.targetWwids);
      LoneDeadMapIsTolerated(cfg, INITIAL, luns, lun, id);
      var c := LoneDeadMap(lun, id, luns);
      var m := c.maps[0];
      OnePathMapDown(lun, id, "failed");
      assert c == Cycle([m], luns) && m in Monitored(cfg, c);
      assert Covers(lun, m);
      FilterOne(m, luns, cfg.targetWwids);
      assert Plain([m]);
    }
  }

  lemma OutvotablePair(luns: set<string>, targets: set<string>) returns (lun: string, id: string)
    requires !OneSuffices(luns, targets)
    ensures Outvotable(luns, targets, lun, id)
  {
    lun, id :| Outvotable(luns, targets, lun, id);
  }

  // ---------- the same in terms of the reported states ----------

  /** Outside groups reported offline or failed, every listed path is reported failed, faulty or a ghost. */
  ghost predicate NoPathLeft(m: MultipathMap) {
    && m.pathGroups.Some?
    && forall g, p |
         && g in m.pathGroups.value && g.dmSt !in {Some("offline"), Some("failed")}
         && g.paths.Some? && p in g.paths.value ::
         p.dmSt in {Some("failed"), Some("faulty"), Some("ghost")}
  }

  lemma {:induction false} ObservedAlive(l: Latch, ms: seq<MultipathMap>, k: nat)
    requires DistinctNames(ms) && k < |ms|
    ensures ms[k].name in ObserveAll(l, ms).dead
    ensures ObserveAll(l, ms).dead[ms[k].name] ==> MapDead(ms[k]) || ms[k].name in ObserveAll(l, ms).broken
  {
    if k < |ms| - 1 {
      ObservedAlive(l, ms[..|ms| - 1], k);
    }
  }

  /** A monitored map is dead in a cycle exactly when it has no path left by its reported states or is latched. */
  lemma {:induction false} DeadInCycleIff(cfg: Config, s: State, c: Cycle, m: MultipathMap)
    requires DistinctNames(Monitored(cfg, c)) && m in Monitored(cfg, c)
    ensures var l := LatchAfter(cfg, s, c);
            m.name in l.dead && (l.dead[m.name] <==> NoPathLeft(m) || m.name in l.broken)
  {
    MapDeadIff(m);
    hide MapDead, NoPathLeft, ObserveAll;
    var ms, start := Monitored(cfg, c), Latch(s.had, s.broken, map[]);
    var k: nat :| k < |ms| && ms[k] == m;
    ObservedAlive(start, ms, k);
    if MapDead(m) { ObservedDead(start, ms, k); }
    if m.name in ObserveAll(start, ms).broken { LatchedIsDead(start, ms, m.name); }
    assert MapDead(m) <==> NoPathLeft(m) by { NoPathLeftIff(m); }
  }

  lemma NoPathLeftIff(m: MultipathMap)
    ensures MapDead(m) <==> NoPathLeft(m)
  {
    MapDeadIff(m);
    hide MapDead;
  }

  /** In each plain reply, one monitored map without a path left fails the cycle. */
  ghost predicate PathlessMapFails(cfg: Config, luns: set<string>) {
    forall s: State, maps: seq<MultipathMap>, m |
      Plain(Monitored(cfg, Cycle(maps, luns))) && m in Monitored(cfg, Cycle(maps, luns)) && NoPathLeft(m) ::
      Fails(cfg, s, Cycle(maps, luns))
  }

  /** One monitored map without a path left fails the cycle exactly where no map can be outvoted. */
  lemma {:induction false} PathlessMapRule(cfg: Config, luns: set<string>)
    ensures PathlessMapFails(cfg, luns) <==> OneSuffices(luns, cfg.targetWwids)
  {
    hide OneSuffices, Fails, NoPathLeft, Plain, LatchAfter;
    if OneSuffices(luns, cfg.targetWwids) {
      forall s: State, maps: seq<MultipathMap>, m |
        Plain(Monitored(cfg, Cycle(maps, luns))) && m in Monitored(cfg, Cycle(maps, luns)) && NoPathLeft(m)
        ensures Fails(cfg, s, Cycle(maps, luns))
      {
        PlainParts(Monitored(cfg, Cycle(maps, luns)));
        DeadInCycleIff(cfg, s, Cycle(maps, luns), m);
        OneDeadMapFails(cfg, s, Cycle(maps, luns));
      }
    } else {
      var lun, id := OutvotablePair(luns, cfg.targetWwids);
      LoneDeadMapIsTolerated(cfg, INITIAL, luns, lun, id);
      LoneDeadMapIsPlain(cfg, luns, lun, id);
      var c := LoneDeadMap(lun, id, luns);
      assert c == Cycle(c.maps, luns);
    }
  }

  lemma PlainParts(ms: seq<MultipathMap>)
    requires Plain(ms)
    ensures Unambiguous(ms) && DistinctNames(ms)
  {
  }

  lemma LoneDeadMapIsPlain(cfg: Config, luns: set<string>, lun: string, id: string)
    requires Outvotable(luns, cfg.targetWwids, lun, id)
    ensures var c := LoneDeadMap(lun, id, luns);
            Plain(Monitored(cfg, c)) && c.maps[0] in Monitored(cfg, c) && NoPathLeft(c.maps[0])
  {
    var m := LoneDeadMap(lun, id, luns).maps[0];
    assert Covers(lun, m);
    FilterOne(m, luns, cfg.targetWwids);
    assert Plain([m]) && m in [m];
  }
}
