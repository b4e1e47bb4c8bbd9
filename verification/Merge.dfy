/**
 * The effective settings of a device: defaults, then every matching device entry in
 * order, then overrides, in the plain version and in the one with precompiled patterns.
 */
module Merge {
  import opened Wrappers
  import opened ConfigParser

  /** A regular-expression engine: compiling may fail, and a compiled pattern matches or not. */
  datatype Engine<!Regex> = Engine(compile: string -> Option<Regex>, isMatch: (Regex, string) -> bool)

  // ---------- what the merge promises ----------

  /** An absent pattern matches everything, one that does not compile matches nothing. */
  predicate PatternMatches<Regex>(engine: Engine<Regex>, pattern: Option<string>, subject: string) {
    match pattern
    case None => true
    case Some(p) =>
      match engine.compile(p)
      case None => false
      case Some(re) => engine.isMatch(re, subject)
  }

  predicate DeviceMatches<Regex>(engine: Engine<Regex>, d: DeviceConfig, vendor: string, product: string) {
    PatternMatches(engine, d.vendor, vendor) && PatternMatches(engine, d.product, product)
  }

  /** An entry applies unless one of the patterns it has does not compile or does not match. */
  lemma DeviceMatchesIff<Regex>(engine: Engine<Regex>, d: DeviceConfig, vendor: string, product: string)
    ensures DeviceMatches(engine, d, vendor, product) <==>
              forall pattern, subject |
                (pattern, subject) in {(d.vendor, vendor), (d.product, product)} && pattern.Some? ::
                var re := engine.compile(pattern.value);
                re.Some? && engine.isMatch(re.value, subject)
  {
    var pairs := {(d.vendor, vendor), (d.product, product)};
    assert (d.vendor, vendor) in pairs && (d.product, product) in pairs;
  }

  ghost function Matching<Regex>(engine: Engine<Regex>, devices: seq<DeviceConfig>, vendor: string, product: string)
    : seq<bool>
  {
    seq(|devices|, i requires 0 <= i < |devices| => DeviceMatches(engine, devices[i], vendor, product))
  }

  /** `i` is the last matching entry that sets the tunable. */
  ghost predicate LastSetter<T>(devices: seq<DeviceConfig>, matching: seq<bool>, get: DeviceConfig -> Option<T>, i: nat)
    requires |matching| == |devices|
  {
    && i < |devices| && matching[i] && get(devices[i]).Some?
    && forall j | i < j < |devices| && matching[j] :: get(devices[j]).None?
  }

  /** The override if set, else the value of the last matching entry that sets it, else the default. */
  ghost predicate Effective<T>(v: Option<T>, defaults: DeviceConfig, devices: seq<DeviceConfig>,
                               overrides: DeviceConfig, matching: seq<bool>, get: DeviceConfig -> Option<T>)
    requires |matching| == |devices|
  {
    if get(overrides).Some? then v == get(overrides)
    else if exists i: nat :: LastSetter(devices, matching, get, i)
    then exists i: nat :: LastSetter(devices, matching, get, i) && v == get(devices[i])
    else v == get(defaults)
  }

  function DevLossTmo(d: DeviceConfig): Option<string> { d.devLossTmo }
  function NoPathRetry(d: DeviceConfig): Option<string> { d.noPathRetry }
  function PollingInterval(d: DeviceConfig): Option<U64> { d.pollingInterval }

  /** All three tunables are effective; vendor and product stay those of the defaults. */
  ghost predicate IsMerged(r: DeviceConfig, defaults: DeviceConfig, devices: seq<DeviceConfig>,
                           overrides: DeviceConfig, matching: seq<bool>)
    requires |matching| == |devices|
  {
    && r.vendor == defaults.vendor && r.product == defaults.product
    && Effective(r.devLossTmo, defaults, devices, overrides, matching, DevLossTmo)
    && Effective(r.noPathRetry, defaults, devices, overrides, matching, NoPathRetry)
    && Effective(r.pollingInterval, defaults, devices, overrides, matching, PollingInterval)
  }

  lemma EffectiveUnique<T>(v: Option<T>, w: Option<T>, defaults: DeviceConfig, devices: seq<DeviceConfig>,
                           overrides: DeviceConfig, matching: seq<bool>, get: DeviceConfig -> Option<T>)
    requires |matching| == |devices|
    requires Effective(v, defaults, devices, overrides, matching, get)
    requires Effective(w, defaults, devices, overrides, matching, get)
    ensures v == w
  {
    if get(overrides).None? && exists i: nat :: LastSetter(devices, matching, get, i) {
      var i: nat :| LastSetter(devices, matching, get, i) && v == get(devices[i]);
      var j: nat :| LastSetter(devices, matching, get, j) && w == get(devices[j]);
      assert !(i < j) && !(j < i);
    }
  }

  lemma MergedUnique(r: DeviceConfig, r': DeviceConfig, defaults: DeviceConfig, devices: seq<DeviceConfig>,
                     overrides: DeviceConfig, matching: seq<bool>)
    requires |matching| == |devices|
    requires IsMerged(r, defaults, devices, overrides, matching) && IsMerged(r', defaults, devices, overrides, matching)
    ensures r == r'
  {
    hide Effective;
    EffectiveUnique(r.devLossTmo, r'.devLossTmo, defaults, devices, overrides, matching, DevLossTmo);
    EffectiveUnique(r.noPathRetry, r'.noPathRetry, defaults, devices, overrides, matching, NoPathRetry);
    EffectiveUnique(r.pollingInterval, r'.pollingInterval, defaults, devices, overrides, matching, PollingInterval);
  }

  // ---------- one layer at a time ----------

  /** The assignments made for a matching entry and for the overrides. */
  function Overlay(merged: DeviceConfig, d: DeviceConfig): DeviceConfig {
    merged.(devLossTmo := d.devLossTmo.Or(merged.devLossTmo),
            noPathRetry := d.noPathRetry.Or(merged.noPathRetry),
            pollingInterval := d.pollingInterval.Or(merged.pollingInterval))
  }

  lemma EffectiveNext<T>(v: Option<T>, w: Option<T>, defaults: DeviceConfig, devices: seq<DeviceConfig>,
                         matching: seq<bool>, get: DeviceConfig -> Option<T>, d: DeviceConfig, matches: bool)
    requires |matching| == |devices| && get(EMPTY_BLOCK).None?
    requires Effective(v, defaults, devices, EMPTY_BLOCK, matching, get)
    requires w == if matches then get(d).Or(v) else v
    ensures Effective(w, defaults, devices + [d], EMPTY_BLOCK, matching + [matches], get)
  {
    var all, allMatching, n := devices + [d], matching + [matches], |devices|;
    assert forall j | 0 <= j < n :: all[j] == devices[j] && allMatching[j] == matching[j];
    assert all[n] == d && allMatching[n] == matches;
    if matches && get(d).Some? {
      assert LastSetter(all, allMatching, get, n);
    } else {
      if exists i: nat :: LastSetter(devices, matching, get, i) {
        var i: nat :| LastSetter(devices, matching, get, i) && v == get(devices[i]);
        assert LastSetter(all, allMatching, get, i);
      }
      forall i: nat | LastSetter(all, allMatching, get, i) ensures LastSetter(devices, matching, get, i) {
      }
    }
  }

  lemma MergedStart(defaults: DeviceConfig)
    ensures IsMerged(defaults, defaults, [], EMPTY_BLOCK, [])
  {
  }

  lemma MergedNext(merged: DeviceConfig, defaults: DeviceConfig, devices: seq<DeviceConfig>, matching: seq<bool>,
                   d: DeviceConfig, matches: bool)
    requires |matching| == |devices| && IsMerged(merged, defaults, devices, EMPTY_BLOCK, matching)
    ensures IsMerged(if matches then Overlay(merged, d) else merged,
                     defaults, devices + [d], EMPTY_BLOCK, matching + [matches])
  {
    hide Effective;
    var r := if matches then Overlay(merged, d) else merged;
    EffectiveNext(merged.devLossTmo, r.devLossTmo, defaults, devices, matching, DevLossTmo, d, matches);
    EffectiveNext(merged.noPathRetry, r.noPathRetry, defaults, devices, matching, NoPathRetry, d, matches);
    EffectiveNext(merged.pollingInterval, r.pollingInterval, defaults, devices, matching, PollingInterval, d, matches);
  }

  lemma MergedOverrides(merged: DeviceConfig, defaults: DeviceConfig, devices: seq<DeviceConfig>, matching: seq<bool>,
                        overrides: DeviceConfig)
    requires |matching| == |devices| && IsMerged(merged, defaults, devices, EMPTY_BLOCK, matching)
    ensures IsMerged(Overlay(merged, overrides), defaults, devices, overrides, matching)
  {
    hide LastSetter;
  }

  // ---------- the plain merge ----------

  method GetMergedConfig<Regex>(engine: Engine<Regex>, config: MultipathConfig, vendor: string, product: string)
    returns (merged: DeviceConfig)
    ensures IsMerged(merged, config.defaults, config.devices, config.overrides,
                     Matching(engine, config.devices, vendor, product))
  {
    hide IsMerged, Overlay;
    ghost var matching := Matching(engine, config.devices, vendor, product);
    merged := config.defaults;
    MergedStart(config.defaults);
    assert config.devices[..0] == [] && matching[..0] == [];
    for i := 0 to |config.devices|
      invariant IsMerged(merged, config.defaults, config.devices[..i], EMPTY_BLOCK, matching[..i])
    {
      var device := config.devices[i];
      var vendorMatch := true;
      if device.vendor.Some? {
        var re := engine.compile(device.vendor.value);
        vendorMatch := re.Some? && engine.isMatch(re.value, vendor);
      }
      var productMatch := true;
      if device.product.Some? {
        var re := engine.compile(device.product.value);
        productMatch := re.Some? && engine.isMatch(re.value, product);
      }
      assert matching[i] == (vendorMatch && productMatch);
      MergedNext(merged, config.defaults, config.devices[..i], matching[..i], device, matching[i]);
      assert config.devices[..i + 1] == config.devices[..i] + [device];
      assert matching[..i + 1] == matching[..i] + [matching[i]];
      if vendorMatch && productMatch {
        merged := OverlaySet(merged, device);
      }
    }
    assert config.devices[..|config.devices|] == config.devices && matching[..|matching|] == matching;
    MergedOverrides(merged, config.defaults, config.devices, matching, config.overrides);
    merged := OverlaySet(merged, config.overrides);
  }

  method OverlaySet(merged0: DeviceConfig, d: DeviceConfig) returns (merged: DeviceConfig)
    ensures merged == Overlay(merged0, d)
  {
    merged := merged0;
    if d.devLossTmo.Some? {
      merged := merged.(devLossTmo := d.devLossTmo);
    }
    if d.noPathRetry.Some? {
      merged := merged.(noPathRetry := d.noPathRetry);
    }
    if d.pollingInterval.Some? {
      merged := merged.(pollingInterval := d.pollingInterval);
    }
  }

  // ---------- the precompiled merge ----------

  datatype CompiledPattern<Regex> = AbsentPattern | InvalidPattern | Compiled(re: Regex)

  datatype CompiledDevice<Regex> = CompiledDevice(
    vendor: CompiledPattern<Regex>, product: CompiledPattern<Regex>, config: DeviceConfig)

  function CompilePattern<Regex>(engine: Engine<Regex>, pattern: Option<string>): CompiledPattern<Regex> {
    match pattern
    case None => AbsentPattern
    case Some(p) =>
      match engine.compile(p)
      case Some(re) => Compiled(re)
      case None => InvalidPattern
  }

  function CompileDevices<Regex>(engine: Engine<Regex>, config: MultipathConfig): seq<CompiledDevice<Regex>> {
    seq(|config.devices|, i requires 0 <= i < |config.devices| =>
      var d := config.devices[i];
      CompiledDevice(CompilePattern(engine, d.vendor), CompilePattern(engine, d.product), d))
  }

  predicate CompiledMatches<Regex>(engine: Engine<Regex>, pattern: CompiledPattern<Regex>, subject: string) {
    match pattern
    case AbsentPattern => true
    case InvalidPattern => false
    case Compiled(re) => engine.isMatch(re, subject)
  }

  ghost function Configs<Regex>(compiled: seq<CompiledDevice<Regex>>): seq<DeviceConfig> {
    seq(|compiled|, i requires 0 <= i < |compiled| => compiled[i].config)
  }

  ghost function CompiledMatching<Regex>(engine: Engine<Regex>, compiled: seq<CompiledDevice<Regex>>,
                                         vendor: string, product: string): seq<bool>
  {
    seq(|compiled|, i requires 0 <= i < |compiled| =>
      CompiledMatches(engine, compiled[i].vendor, vendor) && CompiledMatches(engine, compiled[i].product, product))
  }

  method GetMergedConfigCompiled<Regex>(engine: Engine<Regex>, defaults: DeviceConfig,
                                        compiled: seq<CompiledDevice<Regex>>, overrides: DeviceConfig,
                                        vendor: string, product: string)
    returns (merged: DeviceConfig)
    ensures IsMerged(merged, defaults, Configs(compiled), overrides,
                     CompiledMatching(engine, compiled, vendor, product))
  {
    hide IsMerged, Overlay, CompiledMatches;
    ghost var devices, matching := Configs(compiled), CompiledMatching(engine, compiled, vendor, product);
    merged := defaults;
    MergedStart(defaults);
    assert devices[..0] == [] && matching[..0] == [];
    for i := 0 to |compiled|
      invariant IsMerged(merged, defaults, devices[..i], EMPTY_BLOCK, matching[..i])
    {
      var device := compiled[i];
      MergedNext(merged, defaults, devices[..i], matching[..i], device.config, matching[i]);
      assert devices[..i + 1] == devices[..i] + [device.config] && matching[..i + 1] == matching[..i] + [matching[i]];
      if CompiledMatches(engine, device.vendor, vendor) && CompiledMatches(engine, device.product, product) {
        merged := OverlaySet(merged, device.config);
      }
    }
    assert devices[..|devices|] == devices && matching[..|matching|] == matching;
    MergedOverrides(merged, defaults, devices, matching, overrides);
    merged := OverlaySet(merged, overrides);
  }

  /** Compiling first changes neither the entries nor which of them match. */
  lemma CompilingKeepsMatches<Regex>(engine: Engine<Regex>, config: MultipathConfig, vendor: string, product: string)
    ensures Configs(CompileDevices(engine, config)) == config.devices
    ensures CompiledMatching(engine, CompileDevices(engine, config), vendor, product)
         == Matching(engine, config.devices, vendor, product)
  {
  }

  /** For every configuration and every engine, the two merges give the same result. */
  lemma MergesAgree<Regex>(engine: Engine<Regex>, config: MultipathConfig, vendor: string, product: string,
                           plain: DeviceConfig, compiled: DeviceConfig)
    requires IsMerged(plain, config.defaults, config.devices, config.overrides,
                      Matching(engine, config.devices, vendor, product))
    requires var cs := CompileDevices(engine, config);
             IsMerged(compiled, config.defaults, Configs(cs), config.overrides,
                      CompiledMatching(engine, cs, vendor, product))
    ensures plain == compiled
  {
    CompilingKeepsMatches(engine, config, vendor, product);
    MergedUnique(plain, compiled, config.defaults, config.devices, config.overrides,
                 Matching(engine, config.devices, vendor, product));
  }
}
