/**
 * The check of a device's effective multipath settings against the fencing time, and
 * what settings without warnings buy: the decision falls before I/O is failed and
 * before the device is lost.
 */
module Thresholds {
  import opened Wrappers
  import opened ConfigParser
  import opened Fencing
  import opened FencingRuns

  datatype Warning =
    | RetryZero
    | QueueTimeTooLow(queueTime: nat, minimum: nat)
    | RetryFail
    | RetryNotNumeric(val: string)
    | RetryMissing
    | DevLossTooLow(val: string, minimum: nat)
    | DevLossNotAboveQueueTime(devLoss: nat, queueTime: nat)
    | DevLossNotNumeric(val: string)
    | DevLossMissing

  // ---------- the settings as numbers ----------

  function CheckInterval(d: DeviceConfig): U64 {
    d.pollingInterval.GetOr(5)
  }

  /** The number of retries, where it is configured as a number. */
  function Retries(d: DeviceConfig): Option<U64> {
    if d.noPathRetry.Some? && d.noPathRetry.value != "queue" then ParseU64(d.noPathRetry.value) else None
  }

  /** How long I/O is queued after the last path is gone, where that is a positive number. */
  function QueueTime(d: DeviceConfig): Option<nat> {
    match Retries(d)
    case Some(n) => if n == 0 then None else Some(n * CheckInterval(d))
    case None => None
  }

  /** When the kernel gives the device up, where that is a number. */
  function DevLoss(d: DeviceConfig): Option<U64> {
    if d.devLossTmo.Some? && d.devLossTmo.value != "infinity" then ParseU64(d.devLossTmo.value) else None
  }

  // ---------- which warnings are due ----------

  ghost predicate Warranted(d: DeviceConfig, fencingTime: nat, w: Warning) {
    match w
    case RetryZero => Retries(d) == Some(0)
    case QueueTimeTooLow(q, m) => QueueTime(d) == Some(q) && m == fencingTime + 15 && q < m
    case RetryFail => d.noPathRetry == Some("fail") && Retries(d).None?
    case RetryNotNumeric(v) => d.noPathRetry == Some(v) && v != "queue" && v != "fail" && Retries(d).None?
    case RetryMissing => d.noPathRetry.None?
    case DevLossTooLow(v, m) =>
      d.devLossTmo == Some(v) && m == fencingTime + 60 && DevLoss(d).Some? && DevLoss(d).value < m
    case DevLossNotAboveQueueTime(l, q) => DevLoss(d) == Some(l) && QueueTime(d) == Some(q) && l <= q
    case DevLossNotNumeric(v) => d.devLossTmo == Some(v) && v != "infinity" && DevLoss(d).None?
    case DevLossMissing => d.devLossTmo.None?
  }

  /** The sums and the product stay within 64 bits, as the source takes for granted. */
  predicate NoOverflow(d: DeviceConfig, fencingTime: nat) {
    fencingTime + 60 <= U64_MAX && (QueueTime(d).Some? ==> QueueTime(d).value <= U64_MAX)
  }

  predicate AboutRetry(w: Warning) {
    w.RetryZero? || w.QueueTimeTooLow? || w.RetryFail? || w.RetryNotNumeric? || w.RetryMissing?
  }

  method ValidateMergedDeviceConfig(merged: DeviceConfig, fencingTime: U64) returns (warnings: seq<Warning>)
    requires NoOverflow(merged, fencingTime)
    ensures forall w :: w in warnings <==> Warranted(merged, fencingTime, w)
  {
    hide Warranted;
    var retryWarnings, queueTime := ValidateRetry(merged, fencingTime);
    var devLossWarnings := ValidateDevLoss(merged, fencingTime, queueTime);
    warnings := retryWarnings + devLossWarnings;
  }

  /** The first half: the retry count and the queue time it yields. */
  method ValidateRetry(merged: DeviceConfig, fencingTime: U64) returns (warnings: seq<Warning>, queueTime: Option<U64>)
    requires NoOverflow(merged, fencingTime)
    ensures queueTime == QueueTime(merged)
    ensures forall w :: w in warnings <==> AboutRetry(w) && Warranted(merged, fencingTime, w)
  {
    hide ParseU64;
    warnings, queueTime := [], None;
    var pollingInterval := merged.pollingInterval.GetOr(5);
    var minQueueTime: U64 := fencingTime + 15;
    if merged.noPathRetry.Some? {
      var val := merged.noPathRetry.value;
      if val != "queue" {
        var num := ParseU64(val);
        if num.Some? {
          if num.value == 0 {
            warnings := warnings + [RetryZero];
          } else {
            var qt: U64 := num.value * pollingInterval;
            queueTime := Some(qt);
            if qt < minQueueTime {
              warnings := warnings + [QueueTimeTooLow(qt, minQueueTime)];
            }
          }
        } else if val == "fail" {
          warnings := warnings + [RetryFail];
        } else {
          warnings := warnings + [RetryNotNumeric(val)];
        }
      }
    } else {
      warnings := warnings + [RetryMissing];
    }
  }

  /** The second half: the device-loss timeout, against the queue time found in the first. */
  method ValidateDevLoss(merged: DeviceConfig, fencingTime: U64, queueTime: Option<U64>)
    returns (warnings: seq<Warning>)
    requires NoOverflow(merged, fencingTime) && queueTime == QueueTime(merged)
    ensures forall w :: w in warnings <==>
              !AboutRetry(w) && Warranted(merged, fencingTime, w)
  {
    hide ParseU64, QueueTime;
    warnings := [];
    var minDevLossTmo: U64 := fencingTime + 60;
    if merged.devLossTmo.Some? {
      var val := merged.devLossTmo.value;
      if val != "infinity" {
        var num := ParseU64(val);
        if num.Some? {
          if num.value < minDevLossTmo {
            warnings := warnings + [DevLossTooLow(val, minDevLossTmo)];
          }
          if queueTime.Some? && num.value <= queueTime.value {
            warnings := warnings + [DevLossNotAboveQueueTime(num.value, queueTime.value)];
          }
        } else {
          warnings := warnings + [DevLossNotNumeric(val)];
        }
      }
    } else {
      warnings := warnings + [DevLossMissing];
    }
  }

  /** No warning is due exactly for settings that queue long enough and lose the device late enough. */
  lemma NoWarningIffSafe(d: DeviceConfig, fencingTime: nat)
    ensures (forall w :: !Warranted(d, fencingTime, w)) <==>
            && (d.noPathRetry == Some("queue") || (QueueTime(d).Some? && QueueTime(d).value >= fencingTime + 15))
            && (|| d.devLossTmo == Some("infinity")
                || (&& DevLoss(d).Some? && DevLoss(d).value >= fencingTime + 60
                    && (QueueTime(d).Some? ==> DevLoss(d).value > QueueTime(d).value)))
  {
    hide ParseU64;
    if forall w :: !Warranted(d, fencingTime, w) {
      assert !Warranted(d, fencingTime, RetryMissing) && !Warranted(d, fencingTime, DevLossMissing);
      assert !Warranted(d, fencingTime, RetryZero) && !Warranted(d, fencingTime, RetryFail);
      assert !Warranted(d, fencingTime, RetryNotNumeric(d.noPathRetry.value));
      assert !Warranted(d, fencingTime, DevLossNotNumeric(d.devLossTmo.value));
      if QueueTime(d).Some? {
        assert !Warranted(d, fencingTime, QueueTimeTooLow(QueueTime(d).value, fencingTime + 15));
      }
      if DevLoss(d).Some? {
        assert !Warranted(d, fencingTime, DevLossTooLow(d.devLossTmo.value, fencingTime + 60));
        if QueueTime(d).Some? {
          assert !Warranted(d, fencingTime, DevLossNotAboveQueueTime(DevLoss(d).value, QueueTime(d).value));
        }
      }
    }
  }

  // ---------- timing ----------

  /** That many intervals of `step` units each; or that many seconds of `step` units each. */
  function Units(count: nat, step: nat): nat {
    count * step
  }

  /** When the `k`-th poll happens: every `step` time units from `start` on. */
  function TickTime(start: int, step: nat, k: nat): int {
    start + k * step
  }

  lemma {:induction false} FirstTickFrom(start: int, step: nat, onset: int, n: nat) returns (k: nat)
    requires step > 0 && onset <= TickTime(start, step, n)
    ensures k <= n && onset <= TickTime(start, step, k) <= Noticeable(start, step, onset) + step
  {
    if n == 0 || TickTime(start, step, n - 1) < onset {
      k := n;
    } else {
      k := FirstTickFrom(start, step, onset, n - 1);
    }
  }

  /** When a failure with this onset first concerns the daemon: not earlier than one interval before its first poll. */
  function Noticeable(start: int, step: nat, onset: int): int {
    if onset < start - step then start - step else onset
  }

  /**
   * Polls come every `step` units and are all evaluated; from `onset` on every one of
   * them fails. Then the decision falls within `maxFailures * step` units of the onset,
   * or of one interval before the first poll when the failure is older than that.
   */
  lemma {:induction false} DecisionInTime(cfg: Config, h: seq<Cycle>, start: int, step: nat, onset: int)
    returns (k: nat)
    requires cfg.maxFailures >= 1 && step > 0 && h != []
    requires forall i: nat | i < |h| && onset <= TickTime(start, step, i) :: FailsAt(cfg, h, i)
    requires Noticeable(start, step, onset) + Units(cfg.maxFailures, step) <= TickTime(start, step, |h| - 1)
    ensures k < |h| && FencesAt(cfg, h, k)
    ensures onset <= TickTime(start, step, k) <= Noticeable(start, step, onset) + Units(cfg.maxFailures, step)
  {
    hide FailsAt, FencesAt, TickTime, Noticeable, Units;
    var first := DecisionTick(cfg.maxFailures, start, step, onset, |h| - 1);
    k := first + (cfg.maxFailures - 1);
    FailingFrom(cfg, h, start, step, onset, first);
    DecisionAfterFailures(cfg, h, first, k);
  }

  /** The first poll that sees the failure, and `m` polls in all, lie within `m` intervals. */
  lemma DecisionTick(m: nat, start: int, step: nat, onset: int, n: nat) returns (first: nat)
    requires m >= 1 && step > 0
    requires Noticeable(start, step, onset) + Units(m, step) <= TickTime(start, step, n)
    ensures first + (m - 1) <= n && onset <= TickTime(start, step, first)
    ensures onset <= TickTime(start, step, first + (m - 1)) <= Noticeable(start, step, onset) + Units(m, step)
  {
    assert onset <= Noticeable(start, step, onset);
    hide TickTime, Noticeable, Units;
    Product(m, step);
    first := FirstTickFrom(start, step, onset, n);
    TickShift(start, step, first, m - 1);
    TickOrder(start, step, first + (m - 1), n);
    TickMonotone(start, step, first, first + (m - 1));
  }

  lemma FailingFrom(cfg: Config, h: seq<Cycle>, start: int, step: nat, onset: int, first: nat)
    requires forall i: nat | i < |h| && onset <= TickTime(start, step, i) :: FailsAt(cfg, h, i)
    requires onset <= TickTime(start, step, first)
    ensures forall i: nat | first <= i < |h| :: FailsAt(cfg, h, i)
  {
    hide FailsAt, TickTime;
    forall i: nat | first <= i < |h| ensures FailsAt(cfg, h, i) {
      TickMonotone(start, step, first, i);
    }
  }

  lemma Product(m: nat, step: nat)
    ensures m >= 1 ==> Units(m - 1, step) + step == Units(m, step)
  {
  }

  lemma TickShift(start: int, step: nat, a: nat, b: nat)
    ensures TickTime(start, step, a + b) == TickTime(start, step, a) + Units(b, step)
  {
  }

  lemma {:induction false} TickMonotone(start: int, step: nat, a: nat, b: nat)
    requires a <= b
    ensures TickTime(start, step, a) <= TickTime(start, step, b)
    ensures a < b && step > 0 ==> TickTime(start, step, a) < TickTime(start, step, b)
    decreases b - a
  {
    if a < b {
      TickShift(start, step, b - 1, 1);
      TickMonotone(start, step, a, b - 1);
    }
  }

  lemma TickOrder(start: int, step: nat, a: nat, b: nat)
    requires step > 0 && TickTime(start, step, a) <= TickTime(start, step, b)
    ensures a <= b
  {
    hide TickTime;
    if b < a {
      TickMonotone(start, step, b, a);
    }
  }

  lemma DecisionAfterFailures(cfg: Config, h: seq<Cycle>, first: nat, k: nat)
    requires cfg.maxFailures >= 1 && first + (cfg.maxFailures - 1) == k < |h|
    requires forall i: nat | first <= i < |h| :: FailsAt(cfg, h, i)
    ensures FencesAt(cfg, h, k)
  {
    hide FailsAt, FencesAt;
    var p := h[..k + 1];
    forall i: nat | |p| - cfg.maxFailures <= i < |p| ensures FailsAt(cfg, p, i) {
      FailsAtPrefix(cfg, h, k + 1, i);
    }
    assert LastFail(cfg, p, cfg.maxFailures);
    DecisionIsThreshold(cfg, p);
    FailsAtPrefix(cfg, h, k + 1, k);
  }

  /** The fencing time in seconds that the validator is given. */
  function FencingTime(cfg: Config, pollInterval: nat): nat {
    cfg.maxFailures * pollInterval
  }

  /**
   * With settings that draw no warning, the decision falls at least 15 seconds before
   * queued I/O starts to fail and at least 60 seconds before the device is lost, and the
   * device is lost after I/O starts to fail. Times are in units of which `res` make a second;
   * the first poll comes at most one interval after the onset.
   */
  lemma {:induction false} DecisionBeforeLoss(cfg: Config, h: seq<Cycle>, start: int, pollInterval: nat, res: nat,
                                              onset: int, d: DeviceConfig) returns (k: nat)
    requires cfg.maxFailures >= 1 && Units(pollInterval, res) > 0 && h != []
    requires start <= onset + Units(pollInterval, res)
    requires forall i: nat | i < |h| && onset <= TickTime(start, Units(pollInterval, res), i) :: FailsAt(cfg, h, i)
    requires onset + Units(FencingTime(cfg, pollInterval), res) <= TickTime(start, Units(pollInterval, res), |h| - 1)
    ensures k < |h| && FencesAt(cfg, h, k)
    ensures var decided := TickTime(start, Units(pollInterval, res), k);
            && onset <= decided <= onset + Units(FencingTime(cfg, pollInterval), res)
            && ((forall w :: !Warranted(d, FencingTime(cfg, pollInterval), w)) ==>
                  && (QueueTime(d).Some? ==> decided + Units(15, res) <= onset + Units(QueueTime(d).value, res))
                  && (DevLoss(d).Some? ==> decided + Units(60, res) <= onset + Units(DevLoss(d).value, res))
                  && (QueueTime(d).Some? && DevLoss(d).Some? ==> DevLoss(d).value > QueueTime(d).value))
  {
    hide FailsAt, FencesAt, TickTime, Warranted;
    var f := FencingTime(cfg, pollInterval);
    Regroup(cfg.maxFailures, pollInterval, res);
    assert Units(f, res) == cfg.maxFailures * Units(pollInterval, res);
    k := DecisionInTime(cfg, h, start, Units(pollInterval, res), onset);
    if forall w :: !Warranted(d, f, w) {
      NumbersAreSafe(d, f);
      hide QueueTime, DevLoss, Units, FencingTime;
      if QueueTime(d).Some? { Scale(f, 15, QueueTime(d).value, res); }
      if DevLoss(d).Some? { Scale(f, 60, DevLoss(d).value, res); }
    }
  }

  lemma NumbersAreSafe(d: DeviceConfig, fencingTime: nat)
    requires forall w :: !Warranted(d, fencingTime, w)
    ensures QueueTime(d).Some? ==> QueueTime(d).value >= fencingTime + 15
    ensures DevLoss(d).Some? ==> DevLoss(d).value >= fencingTime + 60
    ensures QueueTime(d).Some? && DevLoss(d).Some? ==> DevLoss(d).value > QueueTime(d).value
  {
    hide Warranted;
    NoWarningIffSafe(d, fencingTime);
  }

  lemma Regroup(a: nat, b: nat, c: nat)
    ensures a * (b * c) == a * b * c
  {
  }

  lemma Scale(a: nat, margin: nat, b: nat, res: nat)
    requires a + margin <= b
    ensures Units(a, res) + Units(margin, res) <= Units(b, res)
  {
    assert (a + margin) * res <= b * res;
  }
}
