/** The per-poll check that ties the configuration compiler to the maps in use. */
module ConfigCheck {
  import opened Wrappers
  import opened Multipath
  import opened Fencing
  import opened ConfigParser
  import opened Merge
  import opened Thresholds
  import opened ConfigGuarantees
  import opened ConfigValues

  datatype Finding = Finding(name: string, vendor: string, product: string, warnings: seq<Warning>)

  /** `d` holds the effective settings of the map under the configuration. */
  ghost predicate IsEffective<Regex>(engine: Engine<Regex>, c: MultipathConfig, m: MultipathMap, d: DeviceConfig) {
    IsMerged(d, c.defaults, c.devices, c.overrides,
             Matching(engine, c.devices, m.vend.GetOr(""), m.prod.GetOr("")))
  }

  /** A vendor or product that is not reported counts as the empty string. */
  lemma MissingCountsAsEmpty<Regex>(engine: Engine<Regex>, c: MultipathConfig, m: MultipathMap, d: DeviceConfig)
    ensures m.vend.None? ==> (IsEffective(engine, c, m, d) <==> IsEffective(engine, c, m.(vend := Some("")), d))
    ensures m.prod.None? ==> (IsEffective(engine, c, m, d) <==> IsEffective(engine, c, m.(prod := Some("")), d))
  {
    hide IsMerged;
  }

  ghost predicate InUse(m: MultipathMap, luns: set<string>) {
    exists lun | lun in luns :: Covers(lun, m)
  }

  /** The finding reports exactly the warnings due for the map's effective settings, and at least one. */
  ghost predicate Reports<Regex>(engine: Engine<Regex>, c: MultipathConfig, fencingTime: nat, m: MultipathMap,
                                 f: Finding) {
    && f.name == m.name && f.vendor == m.vend.GetOr("") && f.product == m.prod.GetOr("") && f.warnings != []
    && exists d :: IsEffective(engine, c, m, d) && forall w :: w in f.warnings <==> Warranted(d, fencingTime, w)
  }

  /** No warning is due for the map's effective settings. */
  ghost predicate IsSafe<Regex>(engine: Engine<Regex>, c: MultipathConfig, fencingTime: nat, m: MultipathMap) {
    exists d :: IsEffective(engine, c, m, d) && forall w :: !Warranted(d, fencingTime, w)
  }

  /** Whatever the effective settings of a map in use are, validating them does not overflow. */
  ghost predicate AllFit<Regex>(engine: Engine<Regex>, c: MultipathConfig, fencingTime: nat, maps: seq<MultipathMap>,
                                luns: set<string>) {
    forall m | m in maps && InUse(m, luns) :: Fits(engine, c, fencingTime, m)
  }

  ghost predicate Fits<Regex>(engine: Engine<Regex>, c: MultipathConfig, fencingTime: nat, m: MultipathMap) {
    forall d | IsEffective(engine, c, m, d) :: NoOverflow(d, fencingTime)
  }

  /** The map is safe or among the findings. */
  ghost predicate Handled<Regex>(engine: Engine<Regex>, c: MultipathConfig, fencingTime: nat, m: MultipathMap,
                                 findings: seq<Finding>) {
    IsSafe(engine, c, fencingTime, m) || exists f | f in findings :: Reports(engine, c, fencingTime, m, f)
  }

  /** The finding reports one of the maps. */
  ghost predicate Justified<Regex>(engine: Engine<Regex>, c: MultipathConfig, fencingTime: nat, maps: seq<MultipathMap>,
                                   f: Finding) {
    exists m | m in maps :: Reports(engine, c, fencingTime, m, f)
  }

  lemma HandledStays<Regex>(engine: Engine<Regex>, c: MultipathConfig, fencingTime: nat, m: MultipathMap,
                            findings: seq<Finding>, f: Finding)
    ensures Handled(engine, c, fencingTime, m, findings) ==> Handled(engine, c, fencingTime, m, findings + [f])
    ensures Reports(engine, c, fencingTime, m, f) ==> Handled(engine, c, fencingTime, m, findings + [f])
  {
    hide IsSafe, Reports;
    assert f in findings + [f];
    assert forall g :: g in findings ==> g in findings + [f];
  }

  /**
   * Every map in use is either safe or reported with exactly the warnings due, and
   * nothing else is reported.
   */
  method CheckMapsConfig<Regex>(engine: Engine<Regex>, maps: seq<MultipathMap>, luns: set<string>, text: string,
                                fencingTime: U64) returns (findings: seq<Finding>)
    requires AllFit(engine, Parsed(text), fencingTime, maps, luns)
    ensures forall m | m in maps && InUse(m, luns) :: Handled(engine, Parsed(text), fencingTime, m, findings)
    ensures forall f | f in findings ::
              exists m | m in maps && InUse(m, luns) :: Reports(engine, Parsed(text), fencingTime, m, f)
  {
    hide Parsed, Handled, Fits;
    hide Reports, IsSafe, Covers;
    var config := ParseMultipathConfig(text);
    var compiled := CompileDevices(engine, config);
    findings := [];
    var monitored := Filter(maps, luns, {});
    assert forall m | m in monitored :: Fits(engine, config, fencingTime, m) by {
      assert forall m | m in monitored :: m in maps && InUse(m, luns);
    }
    for i := 0 to |monitored|
      invariant forall k | 0 <= k < i :: Handled(engine, config, fencingTime, monitored[k], findings)
      invariant forall f | f in findings :: Justified(engine, config, fencingTime, monitored, f)
    {
      var m := monitored[i];
      var finding := CheckMap(engine, config, compiled, fencingTime, m);
      if finding.warnings != [] {
        forall k | 0 <= k <= i ensures Handled(engine, config, fencingTime, monitored[k], findings + [finding]) {
          HandledStays(engine, config, fencingTime, monitored[k], findings, finding);
        }
        findings := findings + [finding];
      } else {
        SafeIsHandled(engine, config, fencingTime, m, findings);
      }
    }
    assert forall m | m in maps && InUse(m, luns) :: m in monitored;
  }

  lemma SafeIsHandled<Regex>(engine: Engine<Regex>, c: MultipathConfig, fencingTime: nat, m: MultipathMap,
                             findings: seq<Finding>)
    requires IsSafe(engine, c, fencingTime, m)
    ensures Handled(engine, c, fencingTime, m, findings)
  {
  }

  /** One map: its effective settings by the precompiled merge, and their warnings. */
  method CheckMap<Regex>(engine: Engine<Regex>, config: MultipathConfig, compiled: seq<CompiledDevice<Regex>>,
                         fencingTime: U64, m: MultipathMap) returns (finding: Finding)
    requires compiled == CompileDevices(engine, config)
    requires Fits(engine, config, fencingTime, m)
    ensures if finding.warnings == [] then IsSafe(engine, config, fencingTime, m)
            else Reports(engine, config, fencingTime, m, finding)
  {
    hide IsMerged, Warranted, NoOverflow;
    var vendor, product := m.vend.GetOr(""), m.prod.GetOr("");
    var merged := GetMergedConfigCompiled(engine, config.defaults, compiled, config.overrides, vendor, product);
    CompilingKeepsMatches(engine, config, vendor, product);
    assert IsEffective(engine, config, m, merged);
    var warnings := ValidateMergedDeviceConfig(merged, fencingTime);
    finding := Finding(m.name, vendor, product, warnings);
  }

  /** A map is reported by a finding or safe, never both. */
  lemma SafeIsNotReported<Regex>(engine: Engine<Regex>, c: MultipathConfig, fencingTime: nat, m: MultipathMap,
                                 f: Finding)
    requires IsSafe(engine, c, fencingTime, m)
    ensures !Reports(engine, c, fencingTime, m, f)
  {
    hide Warranted, IsMerged;
    var d :| IsEffective(engine, c, m, d) && forall w :: !Warranted(d, fencingTime, w);
    forall e | IsEffective(engine, c, m, e) ensures e == d {
      MergedUnique(d, e, c.defaults, c.devices, c.overrides,
                   Matching(engine, c.devices, m.vend.GetOr(""), m.prod.GetOr("")));
    }
    if f.warnings != [] {
      assert f.warnings[0] in f.warnings && !Warranted(d, fencingTime, f.warnings[0]);
    }
  }

  // ---------- from the text to the verdict ----------

  /** How a number of retries is written, and how retrying without end is. */
  function RetryText(retries: Option<nat>): string {
    match retries
    case Some(n) => Decimal(n)
    case None => "queue"
  }

  function DevLossText(seconds: Option<nat>): string {
    match seconds
    case Some(n) => Decimal(n)
    case None => "infinity"
  }

  /** A configuration with nothing but these defaults. */
  function DefaultsOnly(retries: Option<nat>, devLoss: Option<nat>, interval: Option<U64>): MultipathConfig {
    MultipathConfig(DeviceConfig(None, None, Some(DevLossText(devLoss)), Some(RetryText(retries)), interval), [],
                    EMPTY_BLOCK)
  }

  lemma DecimalReadsBack(n: nat)
    requires n <= U64_MAX
    ensures ParseU64(Decimal(n)) == Some(n) && Decimal(n) !in {"queue", "infinity"} && !IsReserved(Decimal(n))
  {
    ParseU64Iff(Decimal(n), n);
    assert Zeros(0) + Decimal(n) == Decimal(n);
    DecimalDigits(n);
    hide Decimal, ParseU64;
    var s := Decimal(n);
    assert s[0] in s;
    DigitsAreNoKey(s);
  }

  lemma {:induction false} DefaultsComeBack(retries: Option<nat>, devLoss: Option<nat>, interval: Option<U64>)
    requires (retries.Some? ==> retries.value <= U64_MAX) && (devLoss.Some? ==> devLoss.value <= U64_MAX)
    ensures Parsed(Print(DefaultsOnly(retries, devLoss, interval))) == DefaultsOnly(retries, devLoss, interval)
  {
    hide Decimal, Parsed, Print, IsReserved;
    if retries.Some? { DecimalReadsBack(retries.value); }
    if devLoss.Some? { DecimalReadsBack(devLoss.value); }
    UsualIsNotReserved("queue");
    UsualIsNotReserved("infinity");
    RoundTrip(DefaultsOnly(retries, devLoss, interval));
  }

  /** With defaults alone, these are the effective settings of every map. */
  lemma DefaultsAreEffective<Regex>(engine: Engine<Regex>, c: MultipathConfig, m: MultipathMap, d: DeviceConfig)
    requires c.devices == [] && c.overrides == EMPTY_BLOCK
    ensures IsEffective(engine, c, m, d) <==> d == c.defaults
  {
    MergedStart(c.defaults);
    hide Effective;
    var matching := Matching(engine, c.devices, m.vend.GetOr(""), m.prod.GetOr(""));
    assert matching == [];
    if IsEffective(engine, c, m, d) {
      MergedUnique(d, c.defaults, c.defaults, [], EMPTY_BLOCK, []);
    }
  }

  lemma SafeByDefaults<Regex>(engine: Engine<Regex>, c: MultipathConfig, fencingTime: nat, m: MultipathMap)
    requires c.devices == [] && c.overrides == EMPTY_BLOCK
    ensures IsSafe(engine, c, fencingTime, m) <==> forall w :: !Warranted(c.defaults, fencingTime, w)
  {
    hide Warranted, IsEffective;
    DefaultsAreEffective(engine, c, m, c.defaults);
    if IsSafe(engine, c, fencingTime, m) {
      var d :| IsEffective(engine, c, m, d) && forall w :: !Warranted(d, fencingTime, w);
      DefaultsAreEffective(engine, c, m, d);
    }
  }

  lemma DefaultsSafeIff(retries: Option<nat>, devLoss: Option<nat>, interval: Option<U64>, fencingTime: nat)
    requires (retries.Some? ==> retries.value <= U64_MAX) && (devLoss.Some? ==> devLoss.value <= U64_MAX)
    ensures var d := DefaultsOnly(retries, devLoss, interval).defaults;
            var each := if interval.Some? then interval.value else 5;
            (forall w :: !Warranted(d, fencingTime, w)) <==>
              && (retries.Some? ==> retries.value > 0 && retries.value * each >= fencingTime + 15)
              && (devLoss.Some? ==> devLoss.value >= fencingTime + 60)
              && (retries.Some? && devLoss.Some? ==> devLoss.value > retries.value * each)
  {
    if retries.Some? { DecimalReadsBack(retries.value); }
    if devLoss.Some? { DecimalReadsBack(devLoss.value); }
    hide Decimal, ParseU64, Warranted, IsReserved;
    NoWarningIffSafe(DefaultsOnly(retries, devLoss, interval).defaults, fencingTime);
  }

  /**
   * From the text to the verdict: with these defaults written out and nothing else, a map
   * is safe exactly when I/O is queued for 15 seconds more than the fencing time and the
   * device is lost 60 seconds later than that time and after the queue, each if at all.
   * Without a polling interval, retries come every five seconds.
   */
  lemma {:induction false} TextIsSafeIff<Regex>(engine: Engine<Regex>, retries: Option<nat>, devLoss: Option<nat>,
                                                interval: Option<U64>, fencingTime: nat, m: MultipathMap)
    requires (retries.Some? ==> retries.value <= U64_MAX) && (devLoss.Some? ==> devLoss.value <= U64_MAX)
    ensures var each := if interval.Some? then interval.value else 5;
            IsSafe(engine, Parsed(Print(DefaultsOnly(retries, devLoss, interval))), fencingTime, m) <==>
              && (retries.Some? ==> retries.value > 0 && retries.value * each >= fencingTime + 15)
              && (devLoss.Some? ==> devLoss.value >= fencingTime + 60)
              && (retries.Some? && devLoss.Some? ==> devLoss.value > retries.value * each)
  {
    var c := DefaultsOnly(retries, devLoss, interval);
    hide Warranted, Parsed, Print, IsSafe;
    DefaultsComeBack(retries, devLoss, interval);
    SafeByDefaults(engine, c, fencingTime, m);
    DefaultsSafeIff(retries, devLoss, interval, fencingTime);
  }
}
