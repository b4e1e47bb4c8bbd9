/** What the fencer promises over whole runs of evaluated cycles. */
module FencingRuns {
  import opened Wrappers
  import opened Multipath
  import opened Fencing

  ghost predicate FailsAt(cfg: Config, h: seq<Cycle>, i: nat)
    requires i < |h|
  {
    Fails(cfg, Run(cfg, h[..i]), h[i])
  }

  ghost predicate FencesAt(cfg: Config, h: seq<Cycle>, i: nat)
    requires i < |h|
  {
    Fences(cfg, Run(cfg, h[..i]), h[i])
  }

  /** The last `k` cycles of the run all failed. */
  ghost predicate LastFail(cfg: Config, h: seq<Cycle>, k: nat) {
    k <= |h| && forall i: nat | |h| - k <= i < |h| :: FailsAt(cfg, h, i)
  }

  lemma FailsAtPrefix(cfg: Config, h: seq<Cycle>, n: nat, i: nat)
    requires i < n <= |h|
    ensures FailsAt(cfg, h[..n], i) == FailsAt(cfg, h, i)
    ensures FencesAt(cfg, h[..n], i) == FencesAt(cfg, h, i)
  {
    assert h[..n][..i] == h[..i];
  }

  // ---------- the counter and the decision ----------

  /**
   * The counter is the length of the trailing run of failing cycles, as far as
   * 64 bits can count: it has reached `k` exactly when the last `k` cycles failed.
   */
  lemma {:induction false} CounterIsTrailingFailures(cfg: Config, h: seq<Cycle>, k: nat)
    requires k <= U64_MAX
    ensures Run(cfg, h).failures >= k <==> LastFail(cfg, h, k)
  {
    if h != [] && k > 0 {
      LastFailNext(cfg, h, k);
      CounterIsTrailingFailures(cfg, h[..|h| - 1], k - 1);
      CounterSaturates(cfg, h, k);
    }
  }

  lemma LastFailNext(cfg: Config, h: seq<Cycle>, k: nat)
    requires h != [] && k > 0
    ensures LastFail(cfg, h, k) <==> FailsAt(cfg, h, |h| - 1) && LastFail(cfg, h[..|h| - 1], k - 1)
  {
    hide Fails, FailsAt;
    var p := h[..|h| - 1];
    if k <= |h| {
      forall i: nat | |h| - k <= i < |p|
        ensures FailsAt(cfg, p, i) == FailsAt(cfg, h, i)
      {
        FailsAtPrefix(cfg, h, |p|, i);
      }
      if FailsAt(cfg, h, |p|) && LastFail(cfg, p, k - 1) {
        forall i: nat | |h| - k <= i < |h| ensures FailsAt(cfg, h, i) {
          if i < |p| { assert FailsAt(cfg, p, i); }
        }
      }
    }
  }

  lemma CounterSaturates(cfg: Config, h: seq<Cycle>, k: nat)
    requires h != [] && 0 < k <= U64_MAX
    ensures var p := Run(cfg, h[..|h| - 1]);
            Run(cfg, h).failures >= k <==> Fails(cfg, p, h[|h| - 1]) && p.failures >= k - 1
  {
  }

  /** A cycle ends in a reboot decision exactly when it and the ones before it fill the threshold with failures. */
  lemma {:induction false} DecisionIsThreshold(cfg: Config, h: seq<Cycle>)
    requires h != []
    ensures FencesAt(cfg, h, |h| - 1) <==>
            LastFail(cfg, h, if cfg.maxFailures == 0 then 1 else cfg.maxFailures)
  {
    var k := if cfg.maxFailures == 0 then 1 else cfg.maxFailures;
    CounterIsTrailingFailures(cfg, h, k);
    CounterSaturates(cfg, h, k);
  }

  /** A cycle can only fail while some monitored map is dead. */
  lemma FailureHasDeadMap(cfg: Config, s: State, c: Cycle)
    ensures Fails(cfg, s, c) ==>
              exists m | m in Monitored(cfg, c) :: m.name in Step(cfg, s, c).dead && Step(cfg, s, c).dead[m.name]
  {
    var ms := Monitored(cfg, c);
    if Fails(cfg, s, c) {
      assert ms[0] in ms;
      ConditionNeedsDead(c.luns, ms, LatchAfter(cfg, s, c).dead);
    }
  }

  lemma GroupNeedsDead(lun: string, ms: seq<MultipathMap>, dead: map<string, bool>)
    requires GroupFailed(lun, ms, dead)
    ensures exists m | m in ms :: m.name in dead && dead[m.name]
  {
    var part :| part in Parts(lun) && IdDead(part, ms, dead);
    assert FirstMatch(ms, part).value in ms;
  }

  lemma ConditionNeedsDead(luns: set<string>, ms: seq<MultipathMap>, dead: map<string, bool>)
    requires ConditionMet(luns, ms, dead) && luns != {}
    ensures exists m | m in ms :: m.name in dead && dead[m.name]
  {
    var lun :| lun in luns && GroupFailed(lun, ms, dead);
    GroupNeedsDead(lun, ms, dead);
  }

  // ---------- the latch ----------

  lemma {:induction false} ObserveAllHad(l: Latch, ms: seq<MultipathMap>, n: string)
    ensures n in ObserveAll(l, ms).had <==> n in l.had || exists a: nat | a < |ms| :: Sees(ms, a, n, true)
  {
    if ms != [] {
      var p := ms[..|ms| - 1];
      ObserveAllHad(l, p, n);
      assert forall a: nat, paths: bool | a < |p| :: Sees(p, a, n, paths) == Sees(ms, a, n, paths);
      assert Sees(ms, |p|, n, true) == (ms[|p|].name == n && TotalPaths(ms[|p|]) > 0);
    }
  }

  /** The `a`-th map is called `n` and lists paths (or, with `paths` false, lists none). */
  ghost predicate Sees(ms: seq<MultipathMap>, a: nat, n: string, paths: bool)
    requires a < |ms|
  {
    ms[a].name == n && (TotalPaths(ms[a]) > 0) == paths
  }

  lemma {:induction false} ObserveAllBroken(l: Latch, ms: seq<MultipathMap>, n: string)
    ensures n in ObserveAll(l, ms).broken <==>
            || n in l.broken
            || (exists b: nat | b < |ms| :: Sees(ms, b, n, false) && n in l.had)
            || (exists a: nat, b: nat | a < b < |ms| :: Sees(ms, a, n, true) && Sees(ms, b, n, false))
  {
    if ms != [] {
      var p := ms[..|ms| - 1];
      ObserveAllBroken(l, p, n);
      ObserveAllHad(l, p, n);
      assert forall a: nat, paths: bool | a < |p| :: Sees(p, a, n, paths) == Sees(ms, a, n, paths);
      assert Sees(ms, |p|, n, false) == (ms[|p|].name == n && TotalPaths(ms[|p|]) == 0);
    }
  }

  ghost predicate SeesAt(cfg: Config, h: seq<Cycle>, i: nat, a: nat, n: string, paths: bool) {
    i < |h| && a < |Monitored(cfg, h[i])| && Sees(Monitored(cfg, h[i]), a, n, paths)
  }

  /** `n` was monitored in every cycle from the `i`-th on. */
  ghost predicate MonitoredSince(cfg: Config, h: seq<Cycle>, i: nat, n: string) {
    forall k: nat | i <= k < |h| :: n in Names(Monitored(cfg, h[k]))
  }

  /** `n` once listed paths and has been monitored ever since. */
  ghost predicate Worked(cfg: Config, h: seq<Cycle>, n: string) {
    exists i: nat, a: nat :: SeesAt(cfg, h, i, a, n, true) && MonitoredSince(cfg, h, i, n)
  }

  /** `n` once listed paths, later listed none, and has been monitored since it listed them. */
  ghost predicate LostItsPaths(cfg: Config, h: seq<Cycle>, n: string) {
    exists i: nat, a: nat, j: nat, b: nat :: LostAt(cfg, h, n, i, a, j, b)
  }

  ghost predicate LostAt(cfg: Config, h: seq<Cycle>, n: string, i: nat, a: nat, j: nat, b: nat) {
    && SeesAt(cfg, h, i, a, n, true) && SeesAt(cfg, h, j, b, n, false)
    && (i < j || (i == j && a < b)) && MonitoredSince(cfg, h, i, n)
  }

  /**
   * The latch is exactly the history it stands for, including replies that list
   * the same name more than once.
   */
  lemma {:induction false} LatchIsHistory(cfg: Config, h: seq<Cycle>, n: string)
    ensures n in Run(cfg, h).had <==> Worked(cfg, h, n)
    ensures n in Run(cfg, h).broken <==> LostItsPaths(cfg, h, n)
  {
    if h != [] {
      var p, c := h[..|h| - 1], h[|h| - 1];
      LatchIsHistory(cfg, p, n);
      WorkedNext(cfg, p, c, n);
      LostNext(cfg, p, c, n);
      assert p + [c] == h;
    }
  }

  lemma SeesAtPrefix(cfg: Config, p: seq<Cycle>, c: Cycle, n: string)
    ensures forall i: nat, a: nat, paths: bool | i < |p| ::
              SeesAt(cfg, p + [c], i, a, n, paths) == SeesAt(cfg, p, i, a, n, paths)
    ensures forall i: nat | i <= |p| ::
              MonitoredSince(cfg, p + [c], i, n) <==> MonitoredSince(cfg, p, i, n) && n in Names(Monitored(cfg, c))
  {
    var h := p + [c];
    forall i: nat | i <= |p|
      ensures MonitoredSince(cfg, h, i, n) <==> MonitoredSince(cfg, p, i, n) && n in Names(Monitored(cfg, c))
    {
      assert h[|p|] == c && forall k: nat | k < |p| :: h[k] == p[k];
      if MonitoredSince(cfg, h, i, n) {
        assert n in Names(Monitored(cfg, h[|p|]));
        forall k: nat | i <= k < |p| ensures n in Names(Monitored(cfg, p[k])) {
          assert n in Names(Monitored(cfg, h[k]));
        }
      }
    }
  }

  /** What one more cycle does to the two latch sets. */
  lemma LatchNext(cfg: Config, p: seq<Cycle>, c: Cycle, n: string)
    ensures var s, t, ms := Run(cfg, p), Run(cfg, p + [c]), Monitored(cfg, c);
            && (n in t.had <==> n in Names(ms) && (n in s.had || exists a: nat | a < |ms| :: Sees(ms, a, n, true)))
            && (n in t.broken <==>
                (&& n in Names(ms)
                 && (|| n in s.broken
                     || (exists b: nat | b < |ms| :: Sees(ms, b, n, false) && n in s.had)
                     || (exists a: nat, b: nat | a < b < |ms| :: Sees(ms, a, n, true) && Sees(ms, b, n, false)))))
  {
    hide Fails;
    var s := Run(cfg, p);
    assert (p + [c])[..|p|] == p;
    ObserveAllHad(Latch(s.had, s.broken, map[]), Monitored(cfg, c), n);
    ObserveAllBroken(Latch(s.had, s.broken, map[]), Monitored(cfg, c), n);
  }

  lemma WorkedNext(cfg: Config, p: seq<Cycle>, c: Cycle, n: string)
    requires n in Run(cfg, p).had <==> Worked(cfg, p, n)
    ensures n in Run(cfg, p + [c]).had <==> Worked(cfg, p + [c], n)
  {
    LatchNext(cfg, p, c, n);
    SeesAtPrefix(cfg, p, c, n);
    hide Run, Monitored, Sees;
    var h, ms, s := p + [c], Monitored(cfg, c), Run(cfg, p);
    if n in Run(cfg, h).had {
      if n in s.had {
        var i: nat, a: nat :| SeesAt(cfg, p, i, a, n, true) && MonitoredSince(cfg, p, i, n);
        assert SeesAt(cfg, h, i, a, n, true) && MonitoredSince(cfg, h, i, n);
      } else {
        var a: nat :| a < |ms| && Sees(ms, a, n, true);
        assert SeesAt(cfg, h, |p|, a, n, true) && MonitoredSince(cfg, h, |p|, n);
      }
    }
    if Worked(cfg, h, n) {
      var i: nat, a: nat :| SeesAt(cfg, h, i, a, n, true) && MonitoredSince(cfg, h, i, n);
      assert MonitoredSince(cfg, p, i, n);
      assert i == |p| ==> Sees(ms, a, n, true);
    }
  }

  lemma LostNext(cfg: Config, p: seq<Cycle>, c: Cycle, n: string)
    requires n in Run(cfg, p).had <==> Worked(cfg, p, n)
    requires n in Run(cfg, p).broken <==> LostItsPaths(cfg, p, n)
    ensures n in Run(cfg, p + [c]).broken <==> LostItsPaths(cfg, p + [c], n)
  {
    LatchNext(cfg, p, c, n);
    SeesAtPrefix(cfg, p, c, n);
    hide Run, Monitored, Sees;
    var h, ms, s := p + [c], Monitored(cfg, c), Run(cfg, p);
    if n in Run(cfg, h).broken {
      if n in s.broken {
        var i: nat, a: nat, j: nat, b: nat :| LostAt(cfg, p, n, i, a, j, b);
        assert LostAt(cfg, h, n, i, a, j, b);
      } else if exists b: nat | b < |ms| :: Sees(ms, b, n, false) && n in s.had {
        var b: nat :| b < |ms| && Sees(ms, b, n, false);
        var i: nat, a: nat :| SeesAt(cfg, p, i, a, n, true) && MonitoredSince(cfg, p, i, n);
        assert LostAt(cfg, h, n, i, a, |p|, b);
      } else {
        var a: nat, b: nat :| a < b < |ms| && Sees(ms, a, n, true) && Sees(ms, b, n, false);
        assert LostAt(cfg, h, n, |p|, a, |p|, b);
      }
    }
    if LostItsPaths(cfg, h, n) {
      var i: nat, a: nat, j: nat, b: nat :| LostAt(cfg, h, n, i, a, j, b);
      assert MonitoredSince(cfg, p, i, n) && n in Names(ms);
      if j < |p| {
        assert LostAt(cfg, p, n, i, a, j, b);
      } else if i < |p| {
        assert SeesAt(cfg, p, i, a, n, true) && Sees(ms, b, n, false);
      }
    }
  }

  /** The collections always nest, and every poll leaves exactly the monitored names behind. */
  lemma {:induction false} CollectionsNest(cfg: Config, h: seq<Cycle>)
    ensures Run(cfg, h).broken <= Run(cfg, h).had <= Run(cfg, h).dead.Keys
    ensures h != [] ==> Run(cfg, h).dead.Keys == Names(Monitored(cfg, h[|h| - 1]))
    ensures forall n | n in Run(cfg, h).broken :: n in Run(cfg, h).dead && Run(cfg, h).dead[n]
  {
    if h != [] {
      var s, ms := Run(cfg, h[..|h| - 1]), Monitored(cfg, h[|h| - 1]);
      CollectionsNest(cfg, h[..|h| - 1]);
      var l := Latch(s.had, s.broken, map[]);
      ObservedKeys(l, ms);
      forall n | n in Run(cfg, h).broken ensures n in Run(cfg, h).had && Run(cfg, h).dead[n] {
        ObserveAllHad(l, ms, n);
        ObserveAllBroken(l, ms, n);
        LatchedIsDead(l, ms, n);
      }
    }
  }

  lemma {:induction false} LatchedIsDead(l: Latch, ms: seq<MultipathMap>, n: string)
    requires n in ObserveAll(l, ms).broken && n in Names(ms)
    ensures n in ObserveAll(l, ms).dead && ObserveAll(l, ms).dead[n]
  {
    var p, m := ms[..|ms| - 1], ms[|ms| - 1];
    assert ms == p + [m];
    if m.name != n {
      LatchedIsDead(l, p, n);
    }
  }
}
