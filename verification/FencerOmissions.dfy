/** When leaving out the list of path groups is safe, and when it reboots the node. */
module FencingOmissions {
  import opened Wrappers
  import opened Multipath
  import opened Fencing
  import opened FencingRuns
  import opened FencingGuarantees

  ghost predicate OmittedMap(m: MultipathMap, m': MultipathMap) {
    m' == m || m' == m.(pathGroups := None)
  }

  /** `ms'` is `ms` with the path groups of some maps left out. */
  ghost predicate OmittedMaps(ms: seq<MultipathMap>, ms': seq<MultipathMap>) {
    |ms| == |ms'| && forall i | 0 <= i < |ms| :: OmittedMap(ms[i], ms'[i])
  }

  ghost predicate OmittedRun(h: seq<Cycle>, h': seq<Cycle>) {
    |h| == |h'| && forall i | 0 <= i < |h| :: h'[i].luns == h[i].luns && OmittedMaps(h[i].maps, h'[i].maps)
  }

  // ---------- one map ----------

  /** `l'` has latched nothing that `l` has not, and calls no map dead that `l` calls alive. */
  ghost predicate NoLarger(l: Latch, l': Latch) {
    l'.had <= l.had && l'.broken <= l.broken && NoneDeader(l.dead, l'.dead)
  }

  /** The reply keeps back paths of a map that is known to have had some and is not among the `latched`. */
  ghost predicate Harmful(latched: set<string>, m: MultipathMap, had': set<string>, m': MultipathMap) {
    m'.pathGroups.None? && TotalPaths(m) > 0 && m.name in had' && m.name !in latched
  }

  /** Every difference of `l'` from `l` is made up for once the names in `latched` are. */
  ghost predicate Within(l: Latch, l': Latch, latched: set<string>) {
    && l'.had <= l.had && l'.broken <= latched && l'.dead.Keys == l.dead.Keys
    && forall n | n in l'.dead && l'.dead[n] :: l.dead[n] || n in latched
  }

  lemma ObserveWithin(l: Latch, l': Latch, m: MultipathMap, m': MultipathMap, latched: set<string>)
    requires OmittedMap(m, m') && Within(l, l', latched) && Observe(l, m).broken <= latched
    requires !Harmful(latched, m, l'.had, m')
    ensures Within(Observe(l, m), Observe(l', m'), latched)
  {
  }

  // ---------- one cycle ----------

  lemma {:induction false} OmittedFilter(ms: seq<MultipathMap>, ms': seq<MultipathMap>, luns: set<string>,
                                         ts: set<string>)
    requires OmittedMaps(ms, ms')
    ensures OmittedMaps(Filter(ms, luns, ts), Filter(ms', luns, ts))
  {
    if ms != [] {
      OmittedFilter(ms[1..], ms'[1..], luns, ts);
      assert OmittedMap(ms[0], ms'[0]);
      assert IsMonitored(ms[0], luns, ts) == IsMonitored(ms'[0], luns, ts);
    }
  }

  /** No map that the walk without omissions leaves unlatched meets a harmful omission. */
  ghost predicate HarmlessWalk(l: Latch, l': Latch, ms: seq<MultipathMap>, ms': seq<MultipathMap>) {
    forall k: nat | k < |ms| && k < |ms'| ::
      !Harmful(ObserveAll(l, ms).broken, ms[k], ObserveAll(l', ms'[..k]).had, ms'[k])
  }

  lemma {:induction false} BrokenGrows(l: Latch, ms: seq<MultipathMap>, k: nat)
    requires k <= |ms|
    ensures ObserveAll(l, ms[..k]).broken <= ObserveAll(l, ms).broken
  {
    if k < |ms| {
      var p := ms[..|ms| - 1];
      BrokenGrows(l, p, k);
      assert p[..k] == ms[..k];
    } else {
      assert ms[..k] == ms;
    }
  }

  lemma {:induction false} WalkWithin(l: Latch, l': Latch, ms: seq<MultipathMap>, ms': seq<MultipathMap>, k: nat)
    requires NoLarger(l, l') && OmittedMaps(ms, ms') && HarmlessWalk(l, l', ms, ms') && k <= |ms|
    ensures Within(ObserveAll(l, ms[..k]), ObserveAll(l', ms'[..k]), ObserveAll(l, ms).broken)
  {
    hide Harmful, Observe, OmittedMap;
    BrokenGrows(l, ms, k);
    if k > 0 {
      WalkWithin(l, l', ms, ms', k - 1);
      ObserveNext(l, ms, k - 1);
      ObserveNext(l', ms', k - 1);
      hide NoLarger, Within;
      ObserveWithin(ObserveAll(l, ms[..k - 1]), ObserveAll(l', ms'[..k - 1]), ms[k - 1], ms'[k - 1],
                    ObserveAll(l, ms).broken);
    }
  }

  lemma OmittedWalk(l: Latch, l': Latch, ms: seq<MultipathMap>, ms': seq<MultipathMap>)
    requires NoLarger(l, l') && OmittedMaps(ms, ms') && HarmlessWalk(l, l', ms, ms') && l.dead == map[]
    ensures NoLarger(ObserveAll(l, ms), ObserveAll(l', ms'))
  {
    hide HarmlessWalk, OmittedMap, ObserveAll, Names;
    WalkWithin(l, l', ms, ms', |ms|);
    assert ms[..|ms|] == ms && ms'[..|ms|] == ms';
    ObservedKeys(l, ms);
    forall n | n in ObserveAll(l, ms).broken && n in Names(ms) ensures ObserveAll(l, ms).dead[n] {
      LatchedIsDead(l, ms, n);
    }
  }

  ghost predicate NoLargerState(s: State, s': State) {
    s'.had <= s.had && s'.broken <= s.broken && s'.failures <= s.failures
  }

  ghost function Before(s: State): Latch {
    Latch(s.had, s.broken, map[])
  }

  ghost predicate HarmlessCycle(cfg: Config, s: State, s': State, c: Cycle, c': Cycle) {
    HarmlessWalk(Before(s), Before(s'), Monitored(cfg, c), Monitored(cfg, c'))
  }

  lemma OmittedSameIds(ms: seq<MultipathMap>, ms': seq<MultipathMap>)
    requires OmittedMaps(ms, ms')
    ensures SameIds(ms, ms')
  {
    assert forall i | 0 <= i < |ms| :: OmittedMap(ms[i], ms'[i]);
  }

  lemma OmittedEvaluation(cfg: Config, s: State, s': State, c: Cycle, c': Cycle)
    requires NoLargerState(s, s') && c'.luns == c.luns && OmittedMaps(c.maps, c'.maps)
    requires HarmlessCycle(cfg, s, s', c, c')
    ensures NoLarger(LatchAfter(cfg, s, c), LatchAfter(cfg, s', c'))
    ensures Names(Monitored(cfg, c)) == Names(Monitored(cfg, c'))
    ensures Fails(cfg, s', c') ==> Fails(cfg, s, c)
  {
    var ms, ms' := Monitored(cfg, c), Monitored(cfg, c');
    hide ConditionMet, HarmlessWalk, ObserveAll, Names, Filter, OmittedMaps, SameIds;
    OmittedFilter(c.maps, c'.maps, c.luns, cfg.targetWwids);
    OmittedSameIds(ms, ms');
    OmittedWalk(Before(s), Before(s'), ms, ms');
    ConditionNotDeader(c.luns, ms, ms', LatchAfter(cfg, s, c).dead, LatchAfter(cfg, s', c').dead);
    SameNames(ms, ms');
  }

  lemma OmittedCycle(cfg: Config, s: State, s': State, c: Cycle, c': Cycle)
    requires NoLargerState(s, s') && c'.luns == c.luns && OmittedMaps(c.maps, c'.maps)
    requires HarmlessCycle(cfg, s, s', c, c')
    ensures NoLargerState(Step(cfg, s, c), Step(cfg, s', c'))
    ensures Fences(cfg, s', c') ==> Fences(cfg, s, c)
  {
    hide Fails, LatchAfter, Monitored, Names, HarmlessCycle, OmittedMaps, NoneDeader;
    OmittedEvaluation(cfg, s, s', c, c');
  }

  // ---------- whole runs ----------

  /** In no cycle of the run is an omission harmful. */
  ghost predicate Harmless(cfg: Config, h: seq<Cycle>, h': seq<Cycle>)
    requires |h| == |h'|
  {
    forall i: nat | i < |h| :: HarmlessCycle(cfg, Run(cfg, h[..i]), Run(cfg, h'[..i]), h[i], h'[i])
  }

  lemma RunNext(cfg: Config, h: seq<Cycle>)
    ensures h == [] ==> Run(cfg, h) == INITIAL
    ensures h != [] ==>
              var p, c := Run(cfg, h[..|h| - 1]), h[|h| - 1];
              Run(cfg, h) == Step(cfg, p, c) && FencesAt(cfg, h, |h| - 1) == Fences(cfg, p, c)
  {
    hide Step, Fences;
  }

  /** Without a harmful omission nothing is latched, counted or decided that the full run did not have. */
  lemma {:induction false} HarmlessOmissionsNeverFence(cfg: Config, h: seq<Cycle>, h': seq<Cycle>)
    requires OmittedRun(h, h') && Harmless(cfg, h, h')
    ensures NoLargerState(Run(cfg, h), Run(cfg, h'))
    ensures forall i: nat | i < |h| :: FencesAt(cfg, h', i) ==> FencesAt(cfg, h, i)
  {
    hide Step, Fences, Harmless, HarmlessCycle, OmittedMaps, FailsAt, FencesAt, Run;
    RunNext(cfg, h);
    RunNext(cfg, h');
    if h != [] {
      var k := |h| - 1;
      HarmlessPrefix(cfg, h, h', k);
      HarmlessOmissionsNeverFence(cfg, h[..k], h'[..k]);
      OmittedCycle(cfg, Run(cfg, h[..k]), Run(cfg, h'[..k]), h[k], h'[k]);
      forall i: nat | i < k ensures FencesAt(cfg, h', i) ==> FencesAt(cfg, h, i) {
        FailsAtPrefix(cfg, h, k, i);
        FailsAtPrefix(cfg, h', k, i);
      }
    }
  }

  lemma HarmlessPrefix(cfg: Config, h: seq<Cycle>, h': seq<Cycle>, n: nat)
    requires |h| == |h'| && n <= |h| && Harmless(cfg, h, h')
    ensures Harmless(cfg, h[..n], h'[..n])
    ensures n < |h| ==> HarmlessCycle(cfg, Run(cfg, h[..n]), Run(cfg, h'[..n]), h[n], h'[n])
  {
    hide HarmlessCycle, Run;
    forall i: nat | i < n
      ensures HarmlessCycle(cfg, Run(cfg, h[..n][..i]), Run(cfg, h'[..n][..i]), h[..n][i], h'[..n][i])
    {
      assert h[..n][..i] == h[..i] && h'[..n][..i] == h'[..i];
    }
  }

  // ---------- a map in good health ----------

  function Repeat(c: Cycle, n: nat): seq<Cycle> {
    seq(n, _ => c)
  }

  /** The map is monitored when `lun` is all that is in use, and it has a live path. */
  ghost predicate Healthy(cfg: Config, m: MultipathMap, lun: string) {
    IsMonitored(m, {lun}, cfg.targetWwids) && TotalPaths(m) > 0 && !MapDead(m)
  }

  /** The LUN is all that is in use, and the map is all that the reply lists. */
  function Only(m: MultipathMap, lun: string): Cycle {
    Cycle([m], {lun})
  }

  lemma ObserveOne(l: Latch, m: MultipathMap)
    ensures ObserveAll(l, [m]) == Observe(l, m)
  {
    var ms := [m];
    assert ms[..0] == [];
  }

  lemma HealthyIsMonitored(cfg: Config, m: MultipathMap, lun: string)
    requires Healthy(cfg, m, lun)
    ensures IsMonitored(m, {lun}, cfg.targetWwids)
  {
  }

  /** Whatever is in use, a reply with a single map that lists a live path does not fail the cycle. */
  lemma LoneLiveMapIsFine(cfg: Config, s: State, m: MultipathMap, luns: set<string>)
    requires IsMonitored(m, luns, cfg.targetWwids) && TotalPaths(m) > 0 && !MapDead(m) && m.name !in s.broken
    ensures !Fails(cfg, s, Cycle([m], luns)) && m.name !in Step(cfg, s, Cycle([m], luns)).broken
  {
    FilterOne(m, luns, cfg.targetWwids);
    ObserveOne(Before(s), m);
    FailureHasDeadMap(cfg, s, Cycle([m], luns));
  }

  lemma HealthyCycle(cfg: Config, s: State, m: MultipathMap, lun: string)
    requires Healthy(cfg, m, lun) && m.name !in s.broken
    ensures !Fails(cfg, s, Only(m, lun)) && m.name !in Step(cfg, s, Only(m, lun)).broken
  {
    hide Fails, Step;
    LoneLiveMapIsFine(cfg, s, m, {lun});
  }

  /** While its map is healthy and not latched, no cycle fails. */
  lemma {:induction false} HealthyTail(cfg: Config, h: seq<Cycle>, m: MultipathMap, lun: string, n: nat)
    requires Healthy(cfg, m, lun) && m.name !in Run(cfg, h).broken
    ensures var all := h + Repeat(Only(m, lun), n);
            && m.name !in Run(cfg, all).broken
            && forall i: nat | |h| <= i < |all| :: !FailsAt(cfg, all, i)
  {
    hide Fails, Step, Healthy;
    var all := h + Repeat(Only(m, lun), n);
    if n == 0 {
      assert all == h;
    } else {
      var k := |all| - 1;
      assert all[..k] == h + Repeat(Only(m, lun), n - 1);
      HealthyTail(cfg, h, m, lun, n - 1);
      assert all[k] == Only(m, lun);
      HealthyCycle(cfg, Run(cfg, all[..k]), m, lun);
      forall i: nat | |h| <= i < k ensures !FailsAt(cfg, all, i) {
        FailsAtPrefix(cfg, all, k, i);
      }
    }
  }

  lemma HealthyPins(cfg: Config, m: MultipathMap, lun: string)
    requires IsMonitored(m, {lun}, cfg.targetWwids)
    ensures Pins(cfg, Only(m, lun), m.name)
  {
    FilterOne(m, {lun}, cfg.targetWwids);
    assert m in [m] && m.name in Names([m]);
    assert Covers(lun, m);
    var part := if m.name in Parts(lun) then m.name else m.uuid;
    assert Answers(m, part) && Identifies([m], part, m.name);
    assert Resolves(lun, [m], m.name);
  }

  // ---------- one incomplete reply reboots a healthy node ----------

  /** A map alone in use, seen once with paths and once without a group list, counts as lost. */
  lemma OmissionLosesPaths(cfg: Config, m: MultipathMap, lun: string)
    requires Healthy(cfg, m, lun)
    ensures LostItsPaths(cfg, [Only(m, lun), Only(m.(pathGroups := None), lun)], m.name)
  {
    var none := m.(pathGroups := None);
    var h := [Only(m, lun), Only(none, lun)];
    assert Covers(lun, m) == Covers(lun, none);
    FilterOne(m, {lun}, cfg.targetWwids);
    FilterOne(none, {lun}, cfg.targetWwids);
    assert m in [m] && none in [none];
    assert m.name in Names([m]) && m.name in Names([none]);
    hide Monitored, TotalPaths, Names;
    assert MonitoredSince(cfg, h, 0, m.name);
    assert Sees([m], 0, m.name, true);
    assert Sees([none], 0, m.name, false) by { assert TotalPaths(none) == 0; }
    assert LostAt(cfg, h, m.name, 0, 0, 1, 0);
  }

  /** The map in every reply of a run. */
  function FullRun(m: MultipathMap, lun: string, n: nat): seq<Cycle> {
    [Only(m, lun), Only(m, lun)] + Repeat(Only(m, lun), n)
  }

  /** The same run, the second reply without the group list. */
  function GappedRun(m: MultipathMap, lun: string, n: nat): seq<Cycle> {
    [Only(m, lun), Only(m.(pathGroups := None), lun)] + Repeat(Only(m, lun), n)
  }

  lemma GappedIsOmitted(m: MultipathMap, lun: string, n: nat)
    ensures OmittedRun(FullRun(m, lun, n), GappedRun(m, lun, n))
  {
    var h, h' := FullRun(m, lun, n), GappedRun(m, lun, n);
    forall i | 0 <= i < |h| ensures h'[i].luns == h[i].luns && OmittedMaps(h[i].maps, h'[i].maps) {
      if i >= 2 { assert h[i] == Only(m, lun) && h'[i] == Only(m, lun); }
    }
  }

  /**
   * A map with a live path in every reply never fails a cycle. Without the group list
   * in a single reply, whatever the threshold, the same run ends in a reboot decision.
   */
  lemma {:induction false} OneOmissionFences(cfg: Config, m: MultipathMap, lun: string, n: nat)
    requires Healthy(cfg, m, lun) && n > 0 && n >= cfg.maxFailures
    ensures OmittedRun(FullRun(m, lun, n), GappedRun(m, lun, n))
    ensures forall i: nat | i < |FullRun(m, lun, n)| :: !FailsAt(cfg, FullRun(m, lun, n), i)
    ensures FencesAt(cfg, GappedRun(m, lun, n), |GappedRun(m, lun, n)| - 1)
  {
    hide Healthy, Pins, LostItsPaths, FailsAt, FencesAt, Run, OmittedRun, Only;
    GappedIsOmitted(m, lun, n);
    RunNext(cfg, []);
    HealthyTail(cfg, [], m, lun, n + 2);
    assert [] + Repeat(Only(m, lun), n + 2) == FullRun(m, lun, n);
    OmissionLosesPaths(cfg, m, lun);
    HealthyIsMonitored(cfg, m, lun);
    HealthyPins(cfg, m, lun);
    LatchedMapForcesDecision(cfg, [Only(m, lun), Only(m.(pathGroups := None), lun)], Repeat(Only(m, lun), n), m.name);
  }

  // ---------- exactly when omissions are safe ----------

  ghost predicate FencesNoMore(cfg: Config, g: seq<Cycle>, g': seq<Cycle>)
    requires |g| == |g'|
  {
    forall j: nat | j < |g| :: FencesAt(cfg, g', j) ==> FencesAt(cfg, g, j)
  }

  /** However either run goes on after any of its cycles, the omissions cause no decision. */
  ghost predicate NeverFencesMore(cfg: Config, h: seq<Cycle>, h': seq<Cycle>)
    requires |h| == |h'|
  {
    forall i: nat, tail: seq<Cycle> | i <= |h| :: FencesNoMore(cfg, h[..i] + tail, h'[..i] + tail)
  }

  /** After every cycle, what is latched is latched in the full run as well. */
  ghost predicate NeverLatchesMore(cfg: Config, h: seq<Cycle>, h': seq<Cycle>)
    requires |h| == |h'|
  {
    forall i: nat | i <= |h| :: Run(cfg, h'[..i]).broken <= Run(cfg, h[..i]).broken
  }

  /** Complete replies add nothing harmful. */
  lemma HarmlessStays(cfg: Config, h: seq<Cycle>, h': seq<Cycle>, i: nat, tail: seq<Cycle>)
    requires OmittedRun(h, h') && Harmless(cfg, h, h') && i <= |h|
    ensures OmittedRun(h[..i] + tail, h'[..i] + tail) && Harmless(cfg, h[..i] + tail, h'[..i] + tail)
  {
    hide HarmlessCycle, OmittedMaps, Run;
    var g, g' := h[..i] + tail, h'[..i] + tail;
    forall j: nat | j < |g|
      ensures g'[j].luns == g[j].luns && OmittedMaps(g[j].maps, g'[j].maps)
      ensures HarmlessCycle(cfg, Run(cfg, g[..j]), Run(cfg, g'[..j]), g[j], g'[j])
    {
      if j < i {
        assert g[..j] == h[..j] && g'[..j] == h'[..j];
      } else {
        SameReplyHarmless(cfg, Run(cfg, g[..j]), Run(cfg, g'[..j]), g[j]);
      }
    }
  }

  lemma SameReplyHarmless(cfg: Config, s: State, s': State, c: Cycle)
    ensures HarmlessCycle(cfg, s, s', c, c) && OmittedMaps(c.maps, c.maps)
  {
  }

  lemma HarmfulWalkLatches(l: Latch, l': Latch, ms: seq<MultipathMap>, ms': seq<MultipathMap>) returns (k: nat)
    requires OmittedMaps(ms, ms') && !HarmlessWalk(l, l', ms, ms')
    ensures k < |ms| && ms[k] in ms && ms'[k] in ms' && ms'[k].name == ms[k].name
    ensures ms[k].name in ObserveAll(l', ms').broken && ms[k].name !in ObserveAll(l, ms).broken
  {
    hide ObserveAll;
    k :| k < |ms| && k < |ms'| && Harmful(ObserveAll(l, ms).broken, ms[k], ObserveAll(l', ms'[..k]).had, ms'[k]);
    assert OmittedMap(ms[k], ms'[k]);
    ObserveNext(l', ms', k);
    BrokenGrows(l', ms', k + 1);
  }

  lemma BrokenAfter(cfg: Config, h: seq<Cycle>, i: nat, n: string)
    requires i < |h|
    ensures n in Run(cfg, h[..i + 1]).broken <==>
              n in LatchAfter(cfg, Run(cfg, h[..i]), h[i]).broken && n in Names(Monitored(cfg, h[i]))
  {
    hide Fails, LatchAfter, Names, Monitored;
    assert h[..i + 1][..i] == h[..i];
  }

  /** A harmful omission leaves a monitored map latched that the full run leaves alone. */
  lemma HarmfulLatches(cfg: Config, h: seq<Cycle>, h': seq<Cycle>, i: nat) returns (m: MultipathMap)
    requires OmittedRun(h, h') && i < |h|
    requires !HarmlessCycle(cfg, Run(cfg, h[..i]), Run(cfg, h'[..i]), h[i], h'[i])
    ensures IsMonitored(m, h[i].luns, cfg.targetWwids)
    ensures m.name in Run(cfg, h'[..i + 1]).broken && m.name !in Run(cfg, h[..i + 1]).broken
  {
    hide Run, HarmlessWalk, ObserveAll, IsMonitored;
    var ms, ms' := Monitored(cfg, h[i]), Monitored(cfg, h'[i]);
    OmittedFilter(h[i].maps, h'[i].maps, h[i].luns, cfg.targetWwids);
    var k := HarmfulWalkLatches(Before(Run(cfg, h[..i])), Before(Run(cfg, h'[..i])), ms, ms');
    m := ms[k];
    BrokenAfter(cfg, h, i, m.name);
    BrokenAfter(cfg, h', i, m.name);
  }

  /** Such a map, back in good health, is enough for a decision in the one run and for none in the other. */
  lemma LatchedMoreFencesMore(cfg: Config, g: seq<Cycle>, g': seq<Cycle>, m: MultipathMap, luns: set<string>)
    returns (tail: seq<Cycle>)
    requires |g| == |g'| && IsMonitored(m, luns, cfg.targetWwids)
    requires m.name in Run(cfg, g').broken && m.name !in Run(cfg, g).broken
    ensures !FencesNoMore(cfg, g + tail, g' + tail)
  {
    hide Run, Healthy, Pins, FailsAt, FencesAt, Covers;
    var lun :| lun in luns && Covers(lun, m);
    var healthy := Revived(m);
    var n := if cfg.maxFailures == 0 then 1 else cfg.maxFailures;
    RevivedIsHealthy(cfg, m, lun);
    tail := Repeat(Only(healthy, lun), n);
    HealthyTail(cfg, g, healthy, lun, n);
    HealthyIsMonitored(cfg, healthy, lun);
    HealthyPins(cfg, healthy, lun);
    PinnedRunFails(cfg, g', tail, m.name);
    DecisionIsThreshold(cfg, g' + tail);
    FencesOnlyOnFailure(cfg, g + tail, |g + tail| - 1);
  }

  lemma FencesOnlyOnFailure(cfg: Config, h: seq<Cycle>, i: nat)
    requires i < |h|
    ensures FencesAt(cfg, h, i) ==> FailsAt(cfg, h, i)
  {
    hide Fails, Step;
  }

  /** The map with a single path, whose state is not reported. */
  function Revived(m: MultipathMap): MultipathMap {
    m.(pathGroups := Some([PathGroup(None, Some([MpathPath(None)]))]))
  }

  lemma RevivedIsHealthy(cfg: Config, m: MultipathMap, lun: string)
    requires Covers(lun, m) && (cfg.targetWwids == {} || m.uuid in cfg.targetWwids || m.name in cfg.targetWwids)
    ensures Healthy(cfg, Revived(m), lun)
  {
    var groups := Revived(m).pathGroups.value;
    assert Covers(lun, Revived(m));
    assert PathAlive(groups[0].paths.value[0]);
    assert groups[0] in groups && GroupAlive(groups[0]);
  }

  /**
   * Leaving out path groups never causes a reboot decision, whatever comes after, exactly
   * when no reply keeps back the paths of a map that is known to have had some and that
   * the full replies leave unlatched in that cycle. The same condition decides whether
   * anything more is latched.
   */
  lemma {:induction false} OmissionIsSafeIff(cfg: Config, h: seq<Cycle>, h': seq<Cycle>)
    requires OmittedRun(h, h')
    ensures NeverFencesMore(cfg, h, h') <==> Harmless(cfg, h, h')
    ensures NeverLatchesMore(cfg, h, h') <==> Harmless(cfg, h, h')
  {
    hide HarmlessCycle, FencesNoMore, Run, OmittedMaps, IsMonitored;
    if Harmless(cfg, h, h') {
      forall i: nat | i <= |h| ensures Run(cfg, h'[..i]).broken <= Run(cfg, h[..i]).broken {
        HarmlessStays(cfg, h, h', i, []);
        assert h[..i] + [] == h[..i] && h'[..i] + [] == h'[..i];
        HarmlessOmissionsNeverFence(cfg, h[..i], h'[..i]);
      }
      forall i: nat, tail: seq<Cycle> | i <= |h| ensures FencesNoMore(cfg, h[..i] + tail, h'[..i] + tail) {
        HarmlessStays(cfg, h, h', i, tail);
        HarmlessRunFencesNoMore(cfg, h[..i] + tail, h'[..i] + tail);
      }
    } else {
      var i: nat :| i < |h| && !HarmlessCycle(cfg, Run(cfg, h[..i]), Run(cfg, h'[..i]), h[i], h'[i]);
      var m := HarmfulLatches(cfg, h, h', i);
      var tail := LatchedMoreFencesMore(cfg, h[..i + 1], h'[..i + 1], m, h[i].luns);
    }
  }

  lemma HarmlessRunFencesNoMore(cfg: Config, h: seq<Cycle>, h': seq<Cycle>)
    requires OmittedRun(h, h') && Harmless(cfg, h, h')
    ensures FencesNoMore(cfg, h, h')
  {
    HarmlessOmissionsNeverFence(cfg, h, h');
    hide FencesAt;
  }

  // ---------- within a cycle ----------

  /** As in a harmless walk, but what is not yet latched when a map is reached counts as unlatched. */
  ghost predicate AtOnceWalk(l: Latch, l': Latch, ms: seq<MultipathMap>, ms': seq<MultipathMap>) {
    forall k: nat | k < |ms| && k < |ms'| ::
      !Harmful(ObserveAll(l, ms[..k]).broken, ms[k], ObserveAll(l', ms'[..k]).had, ms'[k])
  }

  ghost predicate HarmlessAtOnce(cfg: Config, h: seq<Cycle>, h': seq<Cycle>)
    requires |h| == |h'|
  {
    forall i: nat | i < |h| ::
      AtOnceWalk(Before(Run(cfg, h[..i])), Before(Run(cfg, h'[..i])), Monitored(cfg, h[i]), Monitored(cfg, h'[i]))
  }

  lemma AtOncePrefix(l: Latch, l': Latch, ms: seq<MultipathMap>, ms': seq<MultipathMap>, n: nat)
    requires AtOnceWalk(l, l', ms, ms') && n <= |ms| == |ms'|
    ensures HarmlessWalk(l, l', ms[..n], ms'[..n])
  {
    hide ObserveAll;
    var p, p' := ms[..n], ms'[..n];
    forall k: nat | k < n ensures !Harmful(ObserveAll(l, p).broken, p[k], ObserveAll(l', p'[..k]).had, p'[k]) {
      assert p[..k] == ms[..k] && p'[..k] == ms'[..k];
      BrokenGrows(l, p, k);
    }
  }

  /** Where no name is listed twice, a map with paths is latched at the end of its cycle just if it was when reached. */
  lemma {:induction false} DistinctNamesAtOnce(l: Latch, l': Latch, ms: seq<MultipathMap>, ms': seq<MultipathMap>)
    requires forall i, j | 0 <= i < j < |ms| :: ms[i].name != ms[j].name
    ensures AtOnceWalk(l, l', ms, ms') <==> HarmlessWalk(l, l', ms, ms')
  {
    hide ObserveAll, TotalPaths;
    forall k: nat | k < |ms| && TotalPaths(ms[k]) > 0
      ensures ms[k].name in ObserveAll(l, ms).broken <==> ms[k].name in ObserveAll(l, ms[..k]).broken
    {
      LatchedWhenReached(l, ms, k);
    }
  }

  lemma LatchedWhenReached(l: Latch, ms: seq<MultipathMap>, k: nat)
    requires forall i, j | 0 <= i < j < |ms| :: ms[i].name != ms[j].name
    requires k < |ms| && TotalPaths(ms[k]) > 0
    ensures ms[k].name in ObserveAll(l, ms).broken <==> ms[k].name in ObserveAll(l, ms[..k]).broken
  {
    hide ObserveAll, TotalPaths;
    ObserveAllBroken(l, ms, ms[k].name);
    ObserveAllBroken(l, ms[..k], ms[k].name);
  }

  /** The latch in cycle `i` after the first `k` monitored maps. */
  ghost function At(cfg: Config, h: seq<Cycle>, i: nat, k: nat): Latch
    requires i < |h| && k <= |Monitored(cfg, h[i])|
  {
    ObserveAll(Before(Run(cfg, h[..i])), Monitored(cfg, h[i])[..k])
  }

  /** At every map of every cycle, what is latched is already latched in the full run as well. */
  ghost predicate NeverLatchesSooner(cfg: Config, h: seq<Cycle>, h': seq<Cycle>)
    requires |h| == |h'|
  {
    forall i: nat, k: nat | i < |h| && k <= |Monitored(cfg, h[i])| && k <= |Monitored(cfg, h'[i])| ::
      At(cfg, h', i, k).broken <= At(cfg, h, i, k).broken
  }

  lemma AtOnceIsHarmless(cfg: Config, h: seq<Cycle>, h': seq<Cycle>)
    requires OmittedRun(h, h') && HarmlessAtOnce(cfg, h, h')
    ensures Harmless(cfg, h, h')
  {
    hide Run, AtOnceWalk, HarmlessWalk, OmittedMap, Filter;
    forall i: nat | i < |h| ensures HarmlessCycle(cfg, Run(cfg, h[..i]), Run(cfg, h'[..i]), h[i], h'[i]) {
      var ms, ms' := Monitored(cfg, h[i]), Monitored(cfg, h'[i]);
      OmittedFilter(h[i].maps, h'[i].maps, h[i].luns, cfg.targetWwids);
      AtOncePrefix(Before(Run(cfg, h[..i])), Before(Run(cfg, h'[..i])), ms, ms', |ms|);
      assert ms[..|ms|] == ms && ms'[..|ms|] == ms';
    }
  }

  lemma HarmlessPoint(cfg: Config, h: seq<Cycle>, h': seq<Cycle>, i: nat, k: nat)
    requires OmittedRun(h, h') && HarmlessAtOnce(cfg, h, h') && i < |h|
    requires k <= |Monitored(cfg, h[i])| && k <= |Monitored(cfg, h'[i])|
    ensures At(cfg, h', i, k).broken <= At(cfg, h, i, k).broken
  {
    hide Run, AtOnceWalk, Harmless, HarmlessCycle, HarmlessWalk, OmittedMap, ObserveAll, Filter, FencesAt;
    var ms, ms' := Monitored(cfg, h[i]), Monitored(cfg, h'[i]);
    var l, l' := Before(Run(cfg, h[..i])), Before(Run(cfg, h'[..i]));
    assert AtOnceWalk(l, l', ms, ms');
    AtOnceIsHarmless(cfg, h, h');
    HarmlessPrefix(cfg, h, h', i);
    HarmlessOmissionsNeverFence(cfg, h[..i], h'[..i]);
    OmittedFilter(h[i].maps, h'[i].maps, h[i].luns, cfg.targetWwids);
    AtOncePrefix(l, l', ms, ms', k);
    OmittedWalk(l, l', ms[..k], ms'[..k]);
  }

  lemma HarmfulPoint(cfg: Config, h: seq<Cycle>, h': seq<Cycle>, i: nat)
    requires OmittedRun(h, h') && i < |h|
    requires !AtOnceWalk(Before(Run(cfg, h[..i])), Before(Run(cfg, h'[..i])),
                         Monitored(cfg, h[i]), Monitored(cfg, h'[i]))
    ensures !NeverLatchesSooner(cfg, h, h')
  {
    var ms, ms' := Monitored(cfg, h[i]), Monitored(cfg, h'[i]);
    var l, l' := Before(Run(cfg, h[..i])), Before(Run(cfg, h'[..i]));
    OmittedFilter(h[i].maps, h'[i].maps, h[i].luns, cfg.targetWwids);
    var k: nat :| k < |ms| && k < |ms'|
                  && Harmful(ObserveAll(l, ms[..k]).broken, ms[k], ObserveAll(l', ms'[..k]).had, ms'[k]);
    hide Run, Monitored;
    ObserveNext(l, ms, k);
    ObserveNext(l', ms', k);
    assert OmittedMap(ms[k], ms'[k]);
    hide ObserveAll, OmittedMaps;
    assert ms[k].name in At(cfg, h', i, k + 1).broken && ms[k].name !in At(cfg, h, i, k + 1).broken;
  }

  /** The latch also never runs ahead within a cycle exactly when no omission is harmful at once. */
  lemma {:induction false} LatchesNoSoonerIff(cfg: Config, h: seq<Cycle>, h': seq<Cycle>)
    requires OmittedRun(h, h')
    ensures NeverLatchesSooner(cfg, h, h') <==> HarmlessAtOnce(cfg, h, h')
  {
    if HarmlessAtOnce(cfg, h, h') {
      forall i: nat, k: nat | i < |h| && k <= |Monitored(cfg, h[i])| && k <= |Monitored(cfg, h'[i])|
        ensures At(cfg, h', i, k).broken <= At(cfg, h, i, k).broken
      {
        HarmlessPoint(cfg, h, h', i, k);
      }
    } else {
      var i: nat :| i < |h| && !AtOnceWalk(Before(Run(cfg, h[..i])), Before(Run(cfg, h'[..i])),
                                           Monitored(cfg, h[i]), Monitored(cfg, h'[i]));
      HarmfulPoint(cfg, h, h', i);
    }
  }
}
