/** Comparisons of runs, and how soon and when a reboot decision is reached. */
module FencingGuarantees {
  import opened Wrappers
  import opened Multipath
  import opened Fencing
  import opened FencingRuns

  // ---------- erasing reported states never causes a reboot ----------

  ghost predicate ErasedStatus(st: Option<string>, st': Option<string>) {
    st' == st || st'.None?
  }

  ghost predicate ErasedGroup(g: PathGroup, g': PathGroup) {
    && ErasedStatus(g.dmSt, g'.dmSt)
    && g.paths.Some? == g'.paths.Some?
    && (g.paths.Some? ==>
          && |g.paths.value| == |g'.paths.value|
          && forall i | 0 <= i < |g.paths.value| ::
               ErasedStatus(g.paths.value[i].dmSt, g'.paths.value[i].dmSt))
  }

  /** `m'` is `m` with some group-level or path-level states left out. */
  ghost predicate ErasedMap(m: MultipathMap, m': MultipathMap) {
    && m'.name == m.name && m'.uuid == m.uuid
    && m.pathGroups.Some? == m'.pathGroups.Some?
    && (m.pathGroups.Some? ==>
          && |m.pathGroups.value| == |m'.pathGroups.value|
          && forall i | 0 <= i < |m.pathGroups.value| :: ErasedGroup(m.pathGroups.value[i], m'.pathGroups.value[i]))
  }

  ghost predicate ErasedMaps(ms: seq<MultipathMap>, ms': seq<MultipathMap>) {
    |ms| == |ms'| && forall i | 0 <= i < |ms| :: ErasedMap(ms[i], ms'[i])
  }

  ghost predicate ErasedRun(h: seq<Cycle>, h': seq<Cycle>) {
    |h| == |h'| && forall i | 0 <= i < |h| :: h'[i].luns == h[i].luns && ErasedMaps(h[i].maps, h'[i].maps)
  }

  lemma {:induction false} ErasedPathCount(gs: seq<PathGroup>, gs': seq<PathGroup>)
    requires |gs| == |gs'| && forall i | 0 <= i < |gs| :: ErasedGroup(gs[i], gs'[i])
    ensures PathCount(gs) == PathCount(gs')
  {
    if gs != [] { ErasedPathCount(gs[1..], gs'[1..]); }
  }

  lemma ErasedGroupAlive(g: PathGroup, g': PathGroup)
    requires ErasedGroup(g, g')
    ensures GroupAlive(g) ==> GroupAlive(g')
  {
    if GroupAlive(g) {
      var i :| 0 <= i < |g.paths.value| && PathAlive(g.paths.value[i]);
      assert PathAlive(g'.paths.value[i]);
    }
  }

  lemma ErasedMapNotDeader(m: MultipathMap, m': MultipathMap)
    requires ErasedMap(m, m')
    ensures TotalPaths(m') == TotalPaths(m)
    ensures MapDead(m') ==> MapDead(m)
  {
    if m.pathGroups.Some? {
      ErasedPathCount(m.pathGroups.value, m'.pathGroups.value);
      forall i | 0 <= i < |m.pathGroups.value| && GroupAlive(m.pathGroups.value[i])
        ensures m'.pathGroups.value[i] in m'.pathGroups.value && GroupAlive(m'.pathGroups.value[i])
      {
        ErasedGroupAlive(m.pathGroups.value[i], m'.pathGroups.value[i]);
      }
    }
  }

  lemma {:induction false} ErasedFilter(ms: seq<MultipathMap>, ms': seq<MultipathMap>, luns: set<string>,
                                        ts: set<string>)
    requires ErasedMaps(ms, ms')
    ensures ErasedMaps(Filter(ms, luns, ts), Filter(ms', luns, ts))
  {
    if ms != [] {
      ErasedFilter(ms[1..], ms'[1..], luns, ts);
      assert ErasedMap(ms[0], ms'[0]);
      assert IsMonitored(ms[0], luns, ts) == IsMonitored(ms'[0], luns, ts);
    }
  }

  /** Position by position the same identifiers. */
  ghost predicate SameIds(ms: seq<MultipathMap>, ms': seq<MultipathMap>) {
    |ms| == |ms'| && forall i | 0 <= i < |ms| :: ms'[i].name == ms[i].name && ms'[i].uuid == ms[i].uuid
  }

  /** `dead'` speaks of the same maps and calls none dead that `dead` calls alive. */
  ghost predicate NoneDeader(dead: map<string, bool>, dead': map<string, bool>) {
    dead'.Keys == dead.Keys && forall n | n in dead' && dead'[n] :: dead[n]
  }

  ghost predicate NotDeader(l: Latch, l': Latch) {
    l'.had == l.had && l'.broken == l.broken && NoneDeader(l.dead, l'.dead)
  }

  lemma {:induction false} ErasedWalk(l: Latch, l': Latch, ms: seq<MultipathMap>, ms': seq<MultipathMap>)
    requires NotDeader(l, l') && ErasedMaps(ms, ms')
    ensures NotDeader(ObserveAll(l, ms), ObserveAll(l', ms'))
  {
    if ms != [] {
      var i := |ms| - 1;
      ErasedWalk(l, l', ms[..i], ms'[..i]);
      ErasedMapNotDeader(ms[i], ms'[i]);
    }
  }

  lemma {:induction false} SameFirstMatch(ms: seq<MultipathMap>, ms': seq<MultipathMap>, id: string)
    requires SameIds(ms, ms')
    ensures FirstMatch(ms, id).Some? == FirstMatch(ms', id).Some?
    ensures FirstMatch(ms, id).Some? ==> FirstMatch(ms', id).value.name == FirstMatch(ms, id).value.name
  {
    if ms != [] {
      SameFirstMatch(ms[1..], ms'[1..], id);
    }
  }

  lemma GroupNotDeader(lun: string, ms: seq<MultipathMap>, ms': seq<MultipathMap>, dead: map<string, bool>,
                       dead': map<string, bool>)
    requires SameIds(ms, ms') && NoneDeader(dead, dead')
    ensures GroupFailed(lun, ms', dead') ==> GroupFailed(lun, ms, dead)
  {
    if GroupFailed(lun, ms', dead') {
      var part :| part in Parts(lun) && IdDead(part, ms', dead');
      SameFirstMatch(ms, ms', part);
      assert IdDead(part, ms, dead);
    }
  }

  lemma ConditionNotDeader(luns: set<string>, ms: seq<MultipathMap>, ms': seq<MultipathMap>, dead: map<string, bool>,
                           dead': map<string, bool>)
    requires SameIds(ms, ms') && NoneDeader(dead, dead')
    ensures ConditionMet(luns, ms', dead') ==> ConditionMet(luns, ms, dead)
  {
    forall lun | lun in luns
      ensures GroupFailed(lun, ms', dead') ==> GroupFailed(lun, ms, dead)
    {
      GroupNotDeader(lun, ms, ms', dead, dead');
    }
    hide GroupFailed;
  }

  lemma SameNames(ms: seq<MultipathMap>, ms': seq<MultipathMap>)
    requires SameIds(ms, ms')
    ensures Names(ms) == Names(ms')
  {
    forall n ensures n in Names(ms) <==> n in Names(ms') {
      if n in Names(ms) {
        var i :| 0 <= i < |ms| && ms[i].name == n;
        assert ms'[i] in ms' && ms'[i].name == n;
      }
      if n in Names(ms') {
        var i :| 0 <= i < |ms'| && ms'[i].name == n;
        assert ms[i] in ms && ms[i].name == n;
      }
    }
  }

  ghost predicate NoWorse(s: State, s': State) {
    s'.had == s.had && s'.broken == s.broken && s'.failures <= s.failures
  }

  lemma ErasedSameIds(ms: seq<MultipathMap>, ms': seq<MultipathMap>)
    requires ErasedMaps(ms, ms')
    ensures SameIds(ms, ms')
  {
    assert forall i | 0 <= i < |ms| :: ErasedMap(ms[i], ms'[i]);
  }

  lemma ErasedEvaluation(cfg: Config, s: State, s': State, c: Cycle, c': Cycle)
    requires NoWorse(s, s') && c'.luns == c.luns && ErasedMaps(c.maps, c'.maps)
    ensures NotDeader(LatchAfter(cfg, s, c), LatchAfter(cfg, s', c'))
    ensures Names(Monitored(cfg, c)) == Names(Monitored(cfg, c'))
    ensures Fails(cfg, s', c') ==> Fails(cfg, s, c)
  {
    hide ConditionMet, ObserveAll, Names, Filter, ErasedMaps, SameIds;
    var ms, ms' := Monitored(cfg, c), Monitored(cfg, c');
    ErasedFilter(c.maps, c'.maps, c.luns, cfg.targetWwids);
    ErasedWalk(Latch(s.had, s.broken, map[]), Latch(s'.had, s'.broken, map[]), ms, ms');
    ErasedSameIds(ms, ms');
    ConditionNotDeader(c.luns, ms, ms', LatchAfter(cfg, s, c).dead, LatchAfter(cfg, s', c').dead);
    SameNames(ms, ms');
  }

  lemma {:induction false} ErasedCycle(cfg: Config, s: State, s': State, c: Cycle, c': Cycle)
    requires NoWorse(s, s') && c'.luns == c.luns && ErasedMaps(c.maps, c'.maps)
    ensures NoWorse(Step(cfg, s, c), Step(cfg, s', c'))
    ensures Fences(cfg, s', c') ==> Fences(cfg, s, c)
  {
    hide Fails, LatchAfter, Monitored, Names, ErasedMaps, NoneDeader;
    ErasedEvaluation(cfg, s, s', c, c');
  }

  /**
   * Leaving states out of any replies of a run changes no latch, never raises the
   * counter in any cycle, and so never causes a decision the original run did not reach.
   */
  lemma {:induction false} ErasureNeverFences(cfg: Config, h: seq<Cycle>, h': seq<Cycle>)
    requires ErasedRun(h, h')
    ensures Run(cfg, h').had == Run(cfg, h).had && Run(cfg, h').broken == Run(cfg, h).broken
    ensures Run(cfg, h').failures <= Run(cfg, h).failures
    ensures forall i: nat | i < |h| :: FencesAt(cfg, h', i) ==> FencesAt(cfg, h, i)
  {
    hide Step, Fences;
    if h != [] {
      var k := |h| - 1;
      ErasureNeverFences(cfg, h[..k], h'[..k]);
      ErasedCycle(cfg, Run(cfg, h[..k]), Run(cfg, h'[..k]), h[k], h'[k]);
      forall i: nat | i < k ensures FencesAt(cfg, h', i) ==> FencesAt(cfg, h, i) {
        FailsAtPrefix(cfg, h, k, i);
        FailsAtPrefix(cfg, h', k, i);
      }
    }
  }

  // ---------- a latched map forces the decision ----------

  /** Some monitored map answers to `id`, and only maps called `n` do. */
  ghost predicate Identifies(ms: seq<MultipathMap>, id: string, n: string) {
    && (exists m | m in ms :: Answers(m, id))
    && (forall m | m in ms && Answers(m, id) :: m.name == n)
  }

  ghost predicate Resolves(lun: string, ms: seq<MultipathMap>, n: string) {
    exists part | part in Parts(lun) :: Identifies(ms, part, n)
  }

  /** `n` is monitored and is a member of an active "+" group, or every active LUN resolves to it. */
  ghost predicate Pins(cfg: Config, c: Cycle, n: string) {
    var ms := Monitored(cfg, c);
    && n in Names(ms)
    && (|| (exists lun | lun in c.luns :: IsSpanned(lun) && Resolves(lun, ms, n))
        || (forall lun | lun in c.luns :: Resolves(lun, ms, n)))
  }

  lemma ResolvedGroupFails(lun: string, ms: seq<MultipathMap>, dead: map<string, bool>, n: string)
    requires Resolves(lun, ms, n) && n in dead && dead[n]
    ensures GroupFailed(lun, ms, dead)
  {
    var part :| part in Parts(lun) && Identifies(ms, part, n);
    assert IdDead(part, ms, dead);
  }

  lemma {:induction false} BrokenStays(l: Latch, ms: seq<MultipathMap>, n: string)
    requires n in l.broken
    ensures n in ObserveAll(l, ms).broken
  {
    if ms != [] { BrokenStays(l, ms[..|ms| - 1], n); }
  }

  lemma {:induction false} PinnedCycleFails(cfg: Config, s: State, c: Cycle, n: string)
    requires n in s.broken
    ensures Pins(cfg, c, n) ==> Fails(cfg, s, c) && n in Step(cfg, s, c).broken
  {
    var ms, l := Monitored(cfg, c), LatchAfter(cfg, s, c);
    if Pins(cfg, c, n) {
      BrokenStays(Latch(s.had, s.broken, map[]), ms, n);
      LatchedIsDead(Latch(s.had, s.broken, map[]), ms, n);
      forall lun | lun in c.luns && Resolves(lun, ms, n) ensures GroupFailed(lun, ms, l.dead) {
        ResolvedGroupFails(lun, ms, l.dead, n);
      }
      hide GroupFailed, Resolves;
    }
  }

  lemma {:induction false} PinnedRunFails(cfg: Config, h: seq<Cycle>, tail: seq<Cycle>, n: string)
    requires n in Run(cfg, h).broken
    requires forall c | c in tail :: Pins(cfg, c, n)
    ensures n in Run(cfg, h + tail).broken
    ensures forall i: nat | |h| <= i < |h| + |tail| :: FailsAt(cfg, h + tail, i)
  {
    hide Fails, Pins, Step;
    if tail == [] {
      assert h + tail == h;
    } else {
      var k := |tail| - 1;
      var p, all := h + tail[..k], h + tail;
      PinnedRunFails(cfg, h, tail[..k], n);
      assert all[..|p|] == p && all[|p|] == tail[k] && tail[k] in tail;
      PinnedCycleFails(cfg, Run(cfg, p), tail[k], n);
      forall i: nat | |h| <= i < |p| ensures FailsAt(cfg, all, i) {
        FailsAtPrefix(cfg, all, |p|, i);
      }
    }
  }

  /**
   * Once a map has lost all its paths while monitored, every later evaluated cycle
   * that pins it fails whatever the paths do, and the decision falls at the latest in
   * the `maxFailures`-th of them.
   */
  lemma {:induction false} LatchedMapForcesDecision(cfg: Config, h: seq<Cycle>, tail: seq<Cycle>, n: string)
    requires LostItsPaths(cfg, h, n)
    requires forall c | c in tail :: Pins(cfg, c, n)
    ensures forall i: nat | |h| <= i < |h| + |tail| :: FailsAt(cfg, h + tail, i)
    ensures |tail| > 0 && |tail| >= cfg.maxFailures ==> FencesAt(cfg, h + tail, |h| + |tail| - 1)
  {
    LatchIsHistory(cfg, h, n);
    hide Fails, Pins, Fences, Run;
    PinnedRunFails(cfg, h, tail, n);
    if |tail| > 0 && |tail| >= cfg.maxFailures {
      DecisionIsThreshold(cfg, h + tail);
    }
  }

  // ---------- when one dead map is enough ----------

  ghost predicate Unambiguous(ms: seq<MultipathMap>) {
    forall m, m', id | m in ms && m' in ms && Answers(m, id) && Answers(m', id) :: m.name == m'.name
  }

  ghost predicate SomeMonitoredDead(cfg: Config, s: State, c: Cycle) {
    exists m | m in Monitored(cfg, c) :: m.name in LatchAfter(cfg, s, c).dead && LatchAfter(cfg, s, c).dead[m.name]
  }

  /** Some "+" group in use has the member `id`. */
  predicate InGroup(luns: set<string>, id: string) {
    exists g | g in luns :: IsSpanned(g) && id in Parts(g)
  }

  /**
   * A map with the identifiers `lun` and `id` would be monitored because of the single
   * LUN `lun`, would belong to no group, and some LUN would not depend on it.
   */
  predicate Outvotable(luns: set<string>, targets: set<string>, lun: string, id: string) {
    && lun in luns && !IsSpanned(lun) && !InGroup(luns, lun) && !InGroup(luns, id)
    && (targets == {} || lun in targets || id in targets)
    && exists o | o in luns :: o != lun && (o != id || IsSpanned(o))
  }

  /** No map that these LUNs and targets let the daemon monitor can be outvoted by a LUN that still works. */
  predicate OneSuffices(luns: set<string>, targets: set<string>) {
    forall lun, id | lun in luns && id in targets + {lun} :: !Outvotable(luns, targets, lun, id)
  }

  /** An identifier that is no target adds nothing to the LUN itself. */
  lemma OneSufficesForAll(luns: set<string>, targets: set<string>, lun: string, id: string)
    requires OneSuffices(luns, targets)
    ensures !Outvotable(luns, targets, lun, id)
  {
    hide InGroup;
    var other := if id in targets then id else lun;
    assert lun in luns ==> !Outvotable(luns, targets, lun, other);
  }

  /** Without targets: every single LUN is the only one in use or is also a member of a "+" group. */
  lemma OneSufficesWithoutTargets(luns: set<string>)
    ensures OneSuffices(luns, {}) <==>
            forall lun | lun in luns && !IsSpanned(lun) :: luns == {lun} || InGroup(luns, lun)
  {
    hide InGroup;
    forall lun | lun in luns && !IsSpanned(lun) && !InGroup(luns, lun)
      ensures Outvotable(luns, {}, lun, lun) <==> luns != {lun}
    {
      assert luns != {lun} <==> exists o | o in luns :: o != lun;
    }
    assert forall lun | lun in luns :: lun in {} + {lun};
  }

  lemma DeadMemberFailsGroup(lun: string, id: string, m: MultipathMap, ms: seq<MultipathMap>, dead: map<string, bool>)
    requires Unambiguous(ms) && m in ms && m.name in dead && dead[m.name]
    requires id in Parts(lun) && Answers(m, id)
    ensures GroupFailed(lun, ms, dead)
  {
    assert FirstMatch(ms, id).value.name == m.name;
    assert IdDead(id, ms, dead);
  }

  lemma OneDeadMapMeetsCondition(luns: set<string>, targets: set<string>, ms: seq<MultipathMap>,
                                 dead: map<string, bool>, m: MultipathMap, lun: string)
    requires OneSuffices(luns, targets) && Unambiguous(ms) && m in ms && m.name in dead && dead[m.name]
    requires lun in luns && Covers(lun, m) && (targets == {} || m.uuid in targets || m.name in targets)
    ensures ConditionMet(luns, ms, dead)
  {
    var id, other := if m.name in Parts(lun) then m.name else m.uuid, if m.name in Parts(lun) then m.uuid else m.name;
    OneSufficesForAll(luns, targets, lun, other);
    forall g, member | g in luns && member in Parts(g) && Answers(m, member) ensures GroupFailed(g, ms, dead) {
      DeadMemberFailsGroup(g, member, m, ms, dead);
    }
    hide GroupFailed, OneSuffices, Unambiguous;
    if !IsSpanned(lun) && !InGroup(luns, lun) && !InGroup(luns, other) {
      assert id == lun;
      forall o | o in luns ensures GroupFailed(o, ms, dead) {
        assert o == lun || (o == other && !IsSpanned(o));
        assert o in Parts(o);
      }
    }
  }

  /** Where no map can be outvoted, one dead monitored map makes the cycle fail. */
  lemma {:induction false} OneDeadMapFails(cfg: Config, s: State, c: Cycle)
    requires OneSuffices(c.luns, cfg.targetWwids) && Unambiguous(Monitored(cfg, c))
    ensures SomeMonitoredDead(cfg, s, c) ==> Fails(cfg, s, c)
  {
    var ms, dead := Monitored(cfg, c), LatchAfter(cfg, s, c).dead;
    hide LatchAfter, ConditionMet, OneSuffices, Unambiguous, Covers;
    if SomeMonitoredDead(cfg, s, c) {
      var m :| m in ms && m.name in dead && dead[m.name];
      var lun :| lun in c.luns && Covers(lun, m);
      OneDeadMapMeetsCondition(c.luns, cfg.targetWwids, ms, dead, m, lun);
    }
  }

  lemma FilterOne(m: MultipathMap, luns: set<string>, targets: set<string>)
    requires IsMonitored(m, luns, targets)
    ensures Filter([m], luns, targets) == [m]
  {
    var rest: seq<MultipathMap> := [m][1..];
    assert rest == [] && Filter(rest, luns, targets) == [];
  }

  /** A map with a single path, in the given state. */
  function OnePathMap(name: string, uuid: string, dmSt: string): MultipathMap {
    MultipathMap(name, uuid, Some([PathGroup(None, Some([MpathPath(Some(dmSt))]))]), None, None)
  }

  /** A reply with one map, whose only path has failed. */
  function LoneDeadMap(name: string, uuid: string, luns: set<string>): Cycle {
    Cycle([OnePathMap(name, uuid, "failed")], luns)
  }

  /** Where a map can be outvoted, it can be dead without the cycle failing. */
  lemma {:induction false} LoneDeadMapIsTolerated(cfg: Config, s: State, luns: set<string>, lun: string, id: string)
    requires Outvotable(luns, cfg.targetWwids, lun, id)
    ensures var c := LoneDeadMap(lun, id, luns);
            Unambiguous(Monitored(cfg, c)) && SomeMonitoredDead(cfg, s, c) && !Fails(cfg, s, c)
  {
    var c := LoneDeadMap(lun, id, luns);
    var m := c.maps[0];
    assert Covers(lun, m) && MapDead(m);
    FilterOne(m, luns, cfg.targetWwids);
    var dead := LatchAfter(cfg, s, c).dead;
    assert [m][..0] == [];
    forall g | g in luns && (IsSpanned(g) || (g != lun && g != id)) ensures !GroupFailed(g, [m], dead) {
      forall part | part in Parts(g) ensures !IdDead(part, [m], dead) {
        assert part != lun && part != id;
      }
    }
    assert m in [m];
  }

  /**
   * "Any dead monitored map counts as a failure" holds of the code exactly for the LUN
   * sets and targets that let no monitored map be outvoted by a LUN that still works.
   */
  lemma {:induction false} AnyDeadMapRule(cfg: Config, luns: set<string>)
    ensures (forall s: State, maps: seq<MultipathMap> | Unambiguous(Monitored(cfg, Cycle(maps, luns))) ::
               SomeMonitoredDead(cfg, s, Cycle(maps, luns)) ==> Fails(cfg, s, Cycle(maps, luns)))
            <==> OneSuffices(luns, cfg.targetWwids)
  {
    if OneSuffices(luns, cfg.targetWwids) {
      forall s: State, maps: seq<MultipathMap> | Unambiguous(Monitored(cfg, Cycle(maps, luns)))
        ensures SomeMonitoredDead(cfg, s, Cycle(maps, luns)) ==> Fails(cfg, s, Cycle(maps, luns))
      {
        OneDeadMapFails(cfg, s, Cycle(maps, luns));
      }
    } else {
      var lun, id :| Outvotable(luns, cfg.targetWwids, lun, id);
      LoneDeadMapIsTolerated(cfg, INITIAL, luns, lun, id);
      assert LoneDeadMap(lun, id, luns) == Cycle(LoneDeadMap(lun, id, luns).maps, luns);
    }
  }

  // ---------- the reported alert ----------

  /**
   * The alert is the verdict on the last cycle that monitored any map. Cycles without
   * monitored maps reset the counter but leave the alert standing.
   */
  lemma {:induction false} AlertIsLastVerdict(cfg: Config, h: seq<Cycle>, i: nat)
    requires i < |h| && Monitored(cfg, h[i]) != []
    requires forall k: nat | i < k < |h| :: Monitored(cfg, h[k]) == []
    ensures Run(cfg, h).alert ==
            (if !FailsAt(cfg, h, i) then None else if FencesAt(cfg, h, i) then Some(Critical) else Some(Warning))
    ensures i < |h| - 1 ==> Run(cfg, h).failures == 0
  {
    hide LatchAfter, ConditionMet, Monitored;
    var p := h[..|h| - 1];
    if i < |p| {
      assert Monitored(cfg, h[|p|]) == [];
      AlertIsLastVerdict(cfg, p, i);
      FailsAtPrefix(cfg, h, |p|, i);
    }
  }

  /** Some monitored cycle failed, and no cycle since monitored a map. */
  ghost predicate EndedInFailure(cfg: Config, h: seq<Cycle>) {
    exists i: nat | i < |h| ::
      FailsAt(cfg, h, i) && forall k: nat | i < k < |h| :: Monitored(cfg, h[k]) == []
  }

  lemma {:induction false} AlertMeansFailure(cfg: Config, h: seq<Cycle>)
    ensures Run(cfg, h).alert.Some? <==> EndedInFailure(cfg, h)
  {
    hide Fails, EndedInFailure;
    if h != [] {
      AlertMeansFailure(cfg, h[..|h| - 1]);
      EndedNext(cfg, h);
      FailureIsMonitored(cfg, h, |h| - 1);
    } else {
      assert !EndedInFailure(cfg, h) by { NeverEnded(cfg, h); }
    }
  }

  lemma NeverEnded(cfg: Config, h: seq<Cycle>)
    requires h == []
    ensures !EndedInFailure(cfg, h)
  {
  }

  lemma FailureIsMonitored(cfg: Config, h: seq<Cycle>, i: nat)
    requires i < |h|
    ensures FailsAt(cfg, h, i) ==> Monitored(cfg, h[i]) != []
  {
    hide ConditionMet, LatchAfter, Monitored;
  }

  lemma EndedNext(cfg: Config, h: seq<Cycle>)
    requires h != []
    ensures var k := |h| - 1;
            EndedInFailure(cfg, h) <==>
              FailsAt(cfg, h, k) || (Monitored(cfg, h[k]) == [] && EndedInFailure(cfg, h[..k]))
  {
    hide FailsAt, Monitored;
    var k := |h| - 1;
    var p := h[..k];
    forall i: nat | i < k ensures FailsAt(cfg, p, i) == FailsAt(cfg, h, i) {
      FailsAtPrefix(cfg, h, k, i);
    }
    if Monitored(cfg, h[k]) == [] && EndedInFailure(cfg, p) {
      var i: nat :| i < k && FailsAt(cfg, p, i) && forall j: nat | i < j < k :: Monitored(cfg, p[j]) == [];
      assert FailsAt(cfg, h, i);
    }
    if EndedInFailure(cfg, h) && !FailsAt(cfg, h, k) {
      var i: nat :| i < |h| && FailsAt(cfg, h, i) && forall j: nat | i < j < |h| :: Monitored(cfg, h[j]) == [];
      assert FailsAt(cfg, p, i) && Monitored(cfg, h[k]) == [];
    }
  }

  /**
   * The alert stands although the counter is zero exactly when the last cycle monitored
   * nothing and the last one that monitored a map failed.
   */
  lemma {:induction false} AlertWithoutCount(cfg: Config, h: seq<Cycle>)
    ensures Run(cfg, h).alert.Some? && Run(cfg, h).failures == 0 <==>
            h != [] && Monitored(cfg, h[|h| - 1]) == [] && EndedInFailure(cfg, h)
  {
    AlertMeansFailure(cfg, h);
    CounterIsTrailingFailures(cfg, h, 1);
    if h != [] {
      FailureIsMonitored(cfg, h, |h| - 1);
      EndedNext(cfg, h);
    }
    hide Run, FailsAt, Monitored, EndedInFailure;
  }

  /** A run that never monitored a map ends as it began. */
  lemma {:induction false} NothingMonitored(cfg: Config, h: seq<Cycle>)
    requires forall c | c in h :: Monitored(cfg, c) == []
    ensures Run(cfg, h) == INITIAL
  {
    if h != [] {
      NothingMonitored(cfg, h[..|h| - 1]);
    }
  }
}
