/**
 * The stateful fencer: one call per answered poll evaluates the multipath maps
 * that running VMs use and decides whether the node must be rebooted.
 */
module Fencing {
  import opened Wrappers
  import opened Multipath
  import Text

  datatype Config = Config(maxFailures: U64, targetWwids: set<string>)

  /** What one evaluated poll hands to the fencer. */
  datatype Cycle = Cycle(maps: seq<MultipathMap>, luns: set<string>)

  /** Severity the fencer reports under the status key "fencing". */
  datatype Alert = Warning | Critical

  datatype State = State(
    failures: U64, dead: map<string, bool>, had: set<string>, broken: set<string>, alert: Option<Alert>)

  const INITIAL: State := State(0, map[], {}, {}, None)

  // ---------- which maps are monitored ----------

  predicate IsSpanned(lun: string) {
    '+' in lun
  }

  /** The identifiers a LUN key stands for. */
  function Parts(lun: string): (parts: seq<string>)
    ensures parts == Text.Split(lun, "+")
    ensures IsSpanned(lun) <==> |parts| >= 2
  {
    Text.SplitOnChar(lun, '+');
    if IsSpanned(lun) then Text.Split(lun, "+") else [lun]
  }

  predicate Covers(lun: string, m: MultipathMap) {
    m.name in Parts(lun) || m.uuid in Parts(lun)
  }

  predicate IsMonitored(m: MultipathMap, luns: set<string>, targets: set<string>) {
    && (exists lun | lun in luns :: Covers(lun, m))
    && (targets == {} || m.uuid in targets || m.name in targets)
  }

  function Filter(maps: seq<MultipathMap>, luns: set<string>, targets: set<string>): (ms: seq<MultipathMap>)
    ensures forall m :: m in ms <==> m in maps && IsMonitored(m, luns, targets)
  {
    if maps == [] then []
    else (if IsMonitored(maps[0], luns, targets) then [maps[0]] else []) + Filter(maps[1..], luns, targets)
  }

  /** The maps stay in the order of the reply, repetitions included. */
  lemma {:induction false} FilterKeepsOrder(a: seq<MultipathMap>, b: seq<MultipathMap>, luns: set<string>,
                                            targets: set<string>)
    ensures Filter(a + b, luns, targets) == Filter(a, luns, targets) + Filter(b, luns, targets)
  {
    hide IsMonitored;
    if a == [] {
      assert a + b == b;
    } else {
      assert (a + b)[0] == a[0] && (a + b)[1..] == a[1..] + b;
      FilterKeepsOrder(a[1..], b, luns, targets);
    }
  }

  function Monitored(cfg: Config, c: Cycle): seq<MultipathMap> {
    Filter(c.maps, c.luns, cfg.targetWwids)
  }

  ghost function Names(ms: seq<MultipathMap>): set<string> {
    set m | m in ms :: m.name
  }

  // ---------- the "paths disappeared" latch ----------

  /** The three collections while the monitored maps are being walked. */
  datatype Latch = Latch(had: set<string>, broken: set<string>, dead: map<string, bool>)

  function Observe(l: Latch, m: MultipathMap): Latch {
    var had := if TotalPaths(m) > 0 then l.had + {m.name} else l.had;
    var broken := if TotalPaths(m) == 0 && m.name in l.had then l.broken + {m.name} else l.broken;
    Latch(had, broken, l.dead[m.name := MapDead(m) || m.name in broken])
  }

  function ObserveAll(l: Latch, ms: seq<MultipathMap>): Latch {
    if ms == [] then l else Observe(ObserveAll(l, ms[..|ms| - 1]), ms[|ms| - 1])
  }

  // ---------- the fencing condition ----------

  predicate IdDead(id: string, ms: seq<MultipathMap>, dead: map<string, bool>) {
    var m := FirstMatch(ms, id);
    m.Some? && m.value.name in dead && dead[m.value.name]
  }

  predicate GroupFailed(lun: string, ms: seq<MultipathMap>, dead: map<string, bool>) {
    exists part | part in Parts(lun) :: IdDead(part, ms, dead)
  }

  predicate ConditionMet(luns: set<string>, ms: seq<MultipathMap>, dead: map<string, bool>) {
    || (exists lun | lun in luns :: IsSpanned(lun) && GroupFailed(lun, ms, dead))
    || (forall lun | lun in luns :: GroupFailed(lun, ms, dead))
  }

  // ---------- one cycle on values ----------

  ghost function LatchAfter(cfg: Config, s: State, c: Cycle): Latch {
    ObserveAll(Latch(s.had, s.broken, map[]), Monitored(cfg, c))
  }

  /** The cycle counts towards a reboot. */
  ghost predicate Fails(cfg: Config, s: State, c: Cycle) {
    var ms := Monitored(cfg, c);
    ms != [] && ConditionMet(c.luns, ms, LatchAfter(cfg, s, c).dead)
  }

  ghost function Step(cfg: Config, s: State, c: Cycle): State {
    var ms := Monitored(cfg, c);
    var l := LatchAfter(cfg, s, c);
    var failures := if Fails(cfg, s, c) then SaturatingIncrement(s.failures) else 0;
    var alert :=
      if ms == [] then s.alert
      else if !Fails(cfg, s, c) then None
      else if failures >= cfg.maxFailures then Some(Critical)
      else Some(Warning);
    State(failures, l.dead, l.had * Names(ms), l.broken * Names(ms), alert)
  }

  /** The cycle ends with the decision to reboot the node. */
  ghost predicate Fences(cfg: Config, s: State, c: Cycle) {
    Fails(cfg, s, c) && Step(cfg, s, c).failures >= cfg.maxFailures
  }

  /** The state after a whole run of evaluated cycles. */
  ghost function Run(cfg: Config, h: seq<Cycle>): State {
    if h == [] then INITIAL else Step(cfg, Run(cfg, h[..|h| - 1]), h[|h| - 1])
  }

  // ---------- the class ----------

  class Fencer {
    var consecutiveFailures: U64
    const maxFailures: U64
    const targetWwids: set<string>
    var previousMapStates: map<string, bool>
    var hadWorkingPaths: set<string>
    var permanentlyBrokenLuns: set<string>
    /** The status tracker's entry under the key "fencing", which only the fencer writes. */
    var fencingAlert: Option<Alert>
    /** Every cycle evaluated so far. */
    ghost var history: seq<Cycle>

    ghost function Settings(): Config {
      Config(maxFailures, targetWwids)
    }

    ghost function Fields(): State
      reads this
    {
      State(consecutiveFailures, previousMapStates, hadWorkingPaths, permanentlyBrokenLuns, fencingAlert)
    }

    /** The fields are exactly what the whole history determines. */
    ghost predicate Valid()
      reads this
    {
      Fields() == Run(Settings(), history)
    }

    constructor (maxFailures: U64, targetWwids: set<string>)
      ensures Valid() && history == []
      ensures Settings() == Config(maxFailures, targetWwids)
    {
      this.maxFailures := maxFailures;
      this.targetWwids := targetWwids;
      consecutiveFailures := 0;
      previousMapStates := map[];
      hadWorkingPaths, permanentlyBrokenLuns := {}, {};
      fencingAlert := None;
      history := [];
    }

    /** Evaluates a reply that may have failed to parse, in which case nothing changes. */
    method Update(response: Option<seq<MultipathMap>>, luns: set<string>) returns (fence: bool)
      requires Valid()
      modifies this
      ensures Valid()
      ensures response.None? ==> !fence && Fields() == old(Fields()) && history == old(history)
      ensures response.Some? ==> history == old(history) + [Cycle(response.value, luns)]
      ensures response.Some? ==> fence == Fences(Settings(), old(Fields()), Cycle(response.value, luns))
    {
      if response.Some? {
        fence := UpdateWithMaps(response.value, luns);
      } else {
        fence := false;
      }
    }

    method UpdateWithMaps(maps: seq<MultipathMap>, luns: set<string>) returns (fence: bool)
      requires Valid()
      modifies this
      ensures Valid()
      ensures history == old(history) + [Cycle(maps, luns)]
      ensures fence == Fences(Settings(), old(Fields()), Cycle(maps, luns))
    {
      hide Fails, Filter, ObserveAll, ConditionMet, Names;
      ghost var before := Fields();
      ghost var cycle := Cycle(maps, luns);
      var monitored := Filter(maps, luns, targetWwids);
      var deadStates := WalkMonitored(monitored);
      ObservedKeys(Latch(before.had, before.broken, map[]), monitored);
      Prune(monitored, before.dead, deadStates);
      fence := Decide(luns, monitored, deadStates);
      StepFromParts(Settings(), before, cycle, Fields());
      history := history + [cycle];
      assert history[..|history| - 1] == old(history);
    }

    /** The body of the first loop of a cycle: latch update and dead state of one map. */
    method ObserveMap(m: MultipathMap, deadStates: map<string, bool>) returns (deadStates': map<string, bool>)
      modifies this`previousMapStates, this`hadWorkingPaths, this`permanentlyBrokenLuns
      ensures Latch(hadWorkingPaths, permanentlyBrokenLuns, deadStates')
           == Observe(Latch(old(hadWorkingPaths), old(permanentlyBrokenLuns), deadStates), m)
      ensures m.name in deadStates' && previousMapStates == old(previousMapStates)[m.name := deadStates'[m.name]]
    {
      var totalPaths := TotalPaths(m);
      if totalPaths > 0 {
        hadWorkingPaths := hadWorkingPaths + {m.name};
      } else if totalPaths == 0 && m.name in hadWorkingPaths {
        permanentlyBrokenLuns := permanentlyBrokenLuns + {m.name};
      }
      var isDead := IsMapDead(m);
      if m.name in permanentlyBrokenLuns {
        isDead := true;
      }
      deadStates' := deadStates[m.name := isDead];
      previousMapStates := previousMapStates[m.name := isDead];
    }

    method WalkMonitored(monitored: seq<MultipathMap>) returns (deadStates: map<string, bool>)
      modifies this`previousMapStates, this`hadWorkingPaths, this`permanentlyBrokenLuns
      ensures Latch(hadWorkingPaths, permanentlyBrokenLuns, deadStates)
           == ObserveAll(Latch(old(hadWorkingPaths), old(permanentlyBrokenLuns), map[]), monitored)
      ensures previousMapStates == old(previousMapStates) + deadStates
    {
      deadStates := map[];
      for i := 0 to |monitored|
        invariant Latch(hadWorkingPaths, permanentlyBrokenLuns, deadStates)
               == ObserveAll(Latch(old(hadWorkingPaths), old(permanentlyBrokenLuns), map[]), monitored[..i])
        invariant previousMapStates == old(previousMapStates) + deadStates
      {
        ObserveNext(Latch(old(hadWorkingPaths), old(permanentlyBrokenLuns), map[]), monitored, i);
        deadStates := ObserveMap(monitored[i], deadStates);
      }
      assert monitored[..|monitored|] == monitored;
    }

    /** Drops every entry whose map is no longer monitored. */
    method Prune(monitored: seq<MultipathMap>, ghost stale: map<string, bool>, ghost deadStates: map<string, bool>)
      requires deadStates.Keys == Names(monitored)
      requires previousMapStates == stale + deadStates
      modifies this`previousMapStates, this`hadWorkingPaths, this`permanentlyBrokenLuns
      ensures previousMapStates == deadStates
      ensures hadWorkingPaths == old(hadWorkingPaths) * Names(monitored)
      ensures permanentlyBrokenLuns == old(permanentlyBrokenLuns) * Names(monitored)
    {
      var names := set m | m in monitored :: m.name;
      previousMapStates := map n | n in previousMapStates && n in names :: previousMapStates[n];
      hadWorkingPaths := set n | n in hadWorkingPaths && n in names;
      permanentlyBrokenLuns := set n | n in permanentlyBrokenLuns && n in names;
    }

    /** Moves the failure counter and the alert, and reaches the decision. */
    method Decide(luns: set<string>, monitored: seq<MultipathMap>, deadStates: map<string, bool>)
      returns (fence: bool)
      modifies this`consecutiveFailures, this`fencingAlert
      ensures var fails := monitored != [] && ConditionMet(luns, monitored, deadStates);
              && consecutiveFailures == (if fails then SaturatingIncrement(old(consecutiveFailures)) else 0)
              && fence == (fails && consecutiveFailures >= maxFailures)
              && fencingAlert == (if monitored == [] then old(fencingAlert)
                                  else if !fails then None
                                  else if fence then Some(Critical)
                                  else Some(Warning))
    {
      if monitored == [] {
        consecutiveFailures := 0;
        return false;
      }
      var conditionMet := EvaluateLuns(luns, monitored, deadStates);
      if conditionMet {
        consecutiveFailures := SaturatingIncrement(consecutiveFailures);
        if consecutiveFailures >= maxFailures {
          fencingAlert := Some(Critical);
          return true;
        } else {
          fencingAlert := Some(Warning);
        }
      } else {
        consecutiveFailures := 0;
        fencingAlert := None;
      }
      return false;
    }

    /** The second loop of a cycle; the LUN set is visited in an arbitrary order. */
    method EvaluateLuns(luns: set<string>, monitored: seq<MultipathMap>, deadStates: map<string, bool>)
      returns (conditionMet: bool)
      ensures conditionMet == ConditionMet(luns, monitored, deadStates)
    {
      var hasFailedSpanned, allGroupsFailed := false, true;
      var rest := luns;
      while rest != {}
        invariant rest <= luns
        invariant hasFailedSpanned <==>
          exists lun | lun in luns - rest :: IsSpanned(lun) && GroupFailed(lun, monitored, deadStates)
        invariant allGroupsFailed <==> forall lun | lun in luns - rest :: GroupFailed(lun, monitored, deadStates)
        decreases rest
      {
        var lun :| lun in rest;
        var groupFailed := GroupFailed(lun, monitored, deadStates);
        ghost var seen := luns - rest;
        rest := rest - {lun};
        assert luns - rest == seen + {lun};
        if IsSpanned(lun) && groupFailed {
          hasFailedSpanned := true;
        }
        if !groupFailed {
          allGroupsFailed := false;
        }
      }
      assert luns - rest == luns;
      conditionMet := hasFailedSpanned || allGroupsFailed;
    }
  }

  lemma StepFromParts(cfg: Config, s: State, c: Cycle, t: State)
    requires var ms, l := Monitored(cfg, c), LatchAfter(cfg, s, c);
             var fails := ms != [] && ConditionMet(c.luns, ms, l.dead);
             && t.dead == l.dead && t.had == l.had * Names(ms) && t.broken == l.broken * Names(ms)
             && t.failures == (if fails then SaturatingIncrement(s.failures) else 0)
             && t.alert == (if ms == [] then s.alert
                            else if !fails then None
                            else if t.failures >= cfg.maxFailures then Some(Critical)
                            else Some(Warning))
    ensures t == Step(cfg, s, c)
    ensures Fences(cfg, s, c) <==>
            && Monitored(cfg, c) != [] && ConditionMet(c.luns, Monitored(cfg, c), t.dead)
            && t.failures >= cfg.maxFailures
  {
    hide Monitored, LatchAfter, ConditionMet, Names;
  }

  lemma ObserveNext(l: Latch, ms: seq<MultipathMap>, i: nat)
    requires i < |ms|
    ensures ObserveAll(l, ms[..i + 1]) == Observe(ObserveAll(l, ms[..i]), ms[i])
  {
    assert ms[..i + 1][..i] == ms[..i];
  }

  /** Walking the maps records exactly their names. */
  lemma {:induction false} ObservedKeys(l: Latch, ms: seq<MultipathMap>)
    ensures ObserveAll(l, ms).dead.Keys == l.dead.Keys + Names(ms)
  {
    if ms != [] {
      ObservedKeys(l, ms[..|ms| - 1]);
      assert ms == ms[..|ms| - 1] + [ms[|ms| - 1]];
    }
  }
}
