/** Which values the parser reads from a block, and what it makes of numbers. */
module ConfigValues {
  import opened Wrappers
  import opened Tokenizer
  import opened ConfigParser
  import opened ConfigGuarantees

  // ---------- numbers ----------

  function Zeros(k: nat): string {
    seq(k, _ => '0')
  }

  lemma ValueOfLast(p: string, d: char)
    requires IsDigit(d) && forall c | c in p :: IsDigit(c)
    ensures forall c | c in p + [d] :: IsDigit(c)
    ensures DigitsValue(p + [d]) == DigitsValue(p) * 10 + (d as int - '0' as int)
  {
    assert (p + [d])[..|p|] == p;
  }

  lemma DecimalLast(m: nat, d: char)
    requires IsDigit(d)
    ensures Decimal(m * 10 + (d as int - '0' as int)) == (if m == 0 then "" else Decimal(m)) + [d]
  {
    var n := m * 10 + (d as int - '0' as int);
    assert n / 10 == m && n % 10 == d as int - '0' as int;
  }

  lemma {:induction false} ZerosDecimal(k: nat, n: nat)
    ensures var s := Zeros(k) + Decimal(n);
            s != "" && (forall c | c in s :: IsDigit(c)) && DigitsValue(s) == n
  {
    hide DigitsValue, Decimal;
    var d := (n % 10 + '0' as int) as char;
    DecimalLast(n / 10, d);
    if n < 10 {
      ZerosValue(k);
      ValueOfLast(Zeros(k), d);
      assert Zeros(k) + ("" + [d]) == Zeros(k) + [d];
    } else {
      ZerosDecimal(k, n / 10);
      ValueOfLast(Zeros(k) + Decimal(n / 10), d);
      assert Zeros(k) + (Decimal(n / 10) + [d]) == Zeros(k) + Decimal(n / 10) + [d];
    }
  }

  lemma {:induction false} ZerosValue(k: nat)
    ensures DigitsValue(Zeros(k)) == 0
  {
    if k > 0 {
      assert Zeros(k)[..k - 1] == Zeros(k - 1);
      ZerosValue(k - 1);
    }
  }

  lemma OneMoreDigit(k: nat, m: nat, d: char) returns (k': nat)
    requires IsDigit(d)
    ensures Zeros(k) + Decimal(m) + [d] == Zeros(k') + Decimal(m * 10 + (d as int - '0' as int))
  {
    hide Decimal;
    DecimalLast(m, d);
    if m == 0 {
      DecimalLast(0, '0');
      k' := k + 1;
      assert Zeros(k) + ("" + ['0']) + [d] == Zeros(k') + ("" + [d]);
    } else {
      k' := k;
      assert Zeros(k) + Decimal(m) + [d] == Zeros(k) + (Decimal(m) + [d]);
    }
  }

  /** Digits are zeros and the decimal form of their value. */
  lemma {:induction false} DigitsAreDecimal(s: string) returns (k: nat)
    requires s != "" && forall c | c in s :: IsDigit(c)
    ensures s == Zeros(k) + Decimal(DigitsValue(s))
    decreases |s|
  {
    hide DigitsValue, Decimal, Zeros;
    var p, d := s[..|s| - 1], s[|s| - 1];
    assert s == p + [d] && d in s && forall c | c in p :: c in s;
    ValueOfLast(p, d);
    if p == "" {
      assert p + [d] == [d];
      k := FirstDigit(d);
    } else {
      k := DigitsAreDecimal(p);
      k := OneMoreDigit(k, DigitsValue(p), d);
    }
  }

  lemma FirstDigit(d: char) returns (k: nat)
    requires IsDigit(d)
    ensures [d] == Zeros(k) + Decimal(DigitsValue("") * 10 + (d as int - '0' as int))
  {
    DecimalLast(0, d);
    k := 0;
    assert Zeros(0) + ("" + [d]) == [d];
  }

  /** Numbers are read from their decimal form, behind zeros and one plus sign if any, when they fit 64 bits. */
  lemma {:induction false} ParseU64Iff(s: string, n: nat)
    ensures (ParseU64(s).Some? && ParseU64(s).value == n) <==>
            && n <= 0xFFFF_FFFF_FFFF_FFFF
            && exists k: nat :: s == Zeros(k) + Decimal(n) || s == "+" + (Zeros(k) + Decimal(n))
  {
    hide Decimal, DigitsValue;
    var digits := if s != "" && s[0] == '+' then s[1..] else s;
    assert s == digits || s == "+" + digits;
    if ParseU64(s).Some? && ParseU64(s).value == n {
      var k := DigitsAreDecimal(digits);
      assert digits == Zeros(k) + Decimal(n);
    }
    if exists k: nat :: s == Zeros(k) + Decimal(n) || s == "+" + (Zeros(k) + Decimal(n)) {
      var k: nat :| s == Zeros(k) + Decimal(n) || s == "+" + (Zeros(k) + Decimal(n));
      ZerosDecimal(k, n);
      var t := Zeros(k) + Decimal(n);
      assert t[0] in t;
      assert digits == t;
    }
  }

  // ---------- a block is its last settings ----------

  function SettingTokens(settings: seq<(string, string)>): seq<Token> {
    if settings == [] then []
    else SettingTokens(settings[..|settings| - 1])
         + [Word(settings[|settings| - 1].0), Word(settings[|settings| - 1].1)]
  }

  /** The value of the last setting with the key. */
  function LastValue(settings: seq<(string, string)>, key: string): Option<string> {
    if settings == [] then None
    else if settings[|settings| - 1].0 == key then Some(settings[|settings| - 1].1)
    else LastValue(settings[..|settings| - 1], key)
  }

  function LastInterval(settings: seq<(string, string)>): Option<U64> {
    match LastValue(settings, "polling_interval")
    case Some(v) => ParseU64(v)
    case None => None
  }

  function LastSettings(settings: seq<(string, string)>): DeviceConfig {
    DeviceConfig(LastValue(settings, "vendor"), LastValue(settings, "product"), LastValue(settings, "dev_loss_tmo"),
                 LastValue(settings, "no_path_retry"), LastInterval(settings))
  }

  ghost predicate NoReservedValue(settings: seq<(string, string)>) {
    forall i | 0 <= i < |settings| :: !IsReserved(settings[i].1)
  }

  function Inside(target: Target, block: DeviceConfig): Place {
    InBlock(target, block, 1, None)
  }

  lemma OneSetting(config: MultipathConfig, target: Target, block: DeviceConfig, key: string, val: string)
    requires !IsReserved(val)
    ensures ConsumeAll(Parser(config, Inside(target, block)), [Word(key), Word(val)])
         == Parser(config, Inside(target, Assign(block, key, val)))
  {
    hide IsReserved, IsKnownKey, Assign;
    KnownKeysAreReserved(val);
    ConsumeTwo(Parser(config, Inside(target, block)), Word(key), Word(val));
  }

  lemma {:induction false} SettingsConsumed(config: MultipathConfig, target: Target, settings: seq<(string, string)>)
    requires NoReservedValue(settings)
    ensures ConsumeAll(Parser(config, Inside(target, EMPTY_BLOCK)), SettingTokens(settings))
         == Parser(config, Inside(target, LastSettings(settings)))
  {
    hide IsReserved, ParseU64, Consume;
    if settings != [] {
      var k := |settings| - 1;
      SettingsConsumed(config, target, settings[..k]);
      ConsumeConcat(Parser(config, Inside(target, EMPTY_BLOCK)), SettingTokens(settings[..k]),
                    [Word(settings[k].0), Word(settings[k].1)]);
      OneSetting(config, target, LastSettings(settings[..k]), settings[k].0, settings[k].1);
    }
  }

  /** A block holds for each of the five settings the last value given, and nothing of any other. */
  lemma {:induction false} BlockIsLastSettings(config: MultipathConfig, settings: seq<(string, string)>)
    requires NoReservedValue(settings)
    ensures ConsumeAll(Parser(config, Top), Section("defaults", SettingTokens(settings)))
         == Parser(config.(defaults := LastSettings(settings)), Top)
    ensures ConsumeAll(Parser(config, Top), Section("overrides", SettingTokens(settings)))
         == Parser(config.(overrides := LastSettings(settings)), Top)
    ensures ConsumeAll(Parser(config, InDevices), Section("device", SettingTokens(settings)))
         == Parser(config.(devices := config.devices + [LastSettings(settings)]), InDevices)
  {
    hide ConsumeAll, LastSettings, SettingTokens, NoReservedValue, Section;
    var ts, t := SettingTokens(settings), Parser(config, Top);
    SectionConsumed(t, "defaults", ts);
    SectionConsumed(t, "overrides", ts);
    SectionConsumed(Parser(config, InDevices), "device", ts);
    BlockClosed(config, IntoDefaults, settings);
    BlockClosed(config, IntoOverrides, settings);
    BlockClosed(config, IntoDevices, settings);
  }

  lemma BlockClosed(config: MultipathConfig, target: Target, settings: seq<(string, string)>)
    requires NoReservedValue(settings)
    ensures ConsumeAll(Parser(config, Inside(target, EMPTY_BLOCK)), SettingTokens(settings) + [CloseBrace])
         == Parser(Store(config, target, LastSettings(settings)), Outside(target))
  {
    hide ConsumeAll, LastSettings, SettingTokens, NoReservedValue;
    var p := Parser(config, Inside(target, EMPTY_BLOCK));
    SettingsConsumed(config, target, settings);
    ConsumeConcat(p, SettingTokens(settings), [CloseBrace]);
    ConsumeOne(Parser(config, Inside(target, LastSettings(settings))), CloseBrace);
  }

  // ---------- nested and unfinished blocks ----------

  lemma {:induction false} DeeperIgnored(p: Parser, body: seq<Token>, depth: nat)
    requires p.place.InBlock? && p.place.depth == depth + 2 && Balanced(body, depth)
    ensures ConsumeAll(p, body + [CloseBrace]) == Parser(p.config, Inside(p.place.target, p.place.block))
    decreases body
  {
    if body == [] {
      ConsumeOne(p, CloseBrace);
      assert body + [CloseBrace] == [CloseBrace];
    } else {
      var next := Consume(p, body[0]);
      assert (body + [CloseBrace])[0] == body[0] && (body + [CloseBrace])[1..] == body[1..] + [CloseBrace];
      match body[0]
      case OpenBrace => DeeperIgnored(next, body[1..], depth + 1);
      case CloseBrace => DeeperIgnored(next, body[1..], depth - 1);
      case Word(_) => DeeperIgnored(next, body[1..], depth);
    }
  }

  /** A block nested in a block leaves its settings alone. */
  lemma NestedBlockIgnored(config: MultipathConfig, target: Target, block: DeviceConfig, name: string, body: seq<Token>)
    requires Balanced(body, 0)
    ensures ConsumeAll(Parser(config, Inside(target, block)), Section(name, body))
         == Parser(config, Inside(target, block))
  {
    hide IsKnownKey;
    var p := Parser(config, Inside(target, block));
    SectionConsumed(p, name, body);
    DeeperIgnored(Consume(Consume(p, Word(name)), OpenBrace), body, 0);
  }

  /** A block that the input breaks off in counts as if it were closed there. */
  lemma UnfinishedBlockCounts(pre: seq<Token>)
    requires var place := ConsumeAll(BEGIN, pre).place; place.InBlock? && place.depth == 1
    ensures ParseTokens(pre) == ParseTokens(pre + [CloseBrace])
  {
    ConsumeConcat(BEGIN, pre, [CloseBrace]);
    ConsumeOne(ConsumeAll(BEGIN, pre), CloseBrace);
  }

  // ---------- values that always come back ----------

  ghost predicate IsUsual(v: string) {
    v in {"queue", "fail", "infinity"} || exists n: nat :: v == Decimal(n)
  }

  /** Where `b` sets one of the usual values, `b'` sets it as well. */
  ghost predicate UsualKept(b: DeviceConfig, b': DeviceConfig) {
    && (b.vendor.Some? && IsUsual(b.vendor.value) ==> b'.vendor == b.vendor)
    && (b.product.Some? && IsUsual(b.product.value) ==> b'.product == b.product)
    && (b.devLossTmo.Some? && IsUsual(b.devLossTmo.value) ==> b'.devLossTmo == b.devLossTmo)
    && (b.noPathRetry.Some? && IsUsual(b.noPathRetry.value) ==> b'.noPathRetry == b.noPathRetry)
    && b'.pollingInterval == b.pollingInterval
  }

  lemma UsualIsNotReserved(v: string)
    requires IsUsual(v)
    ensures !IsReserved(v)
  {
    if v !in {"queue", "fail", "infinity"} {
      var n: nat :| v == Decimal(n);
      DecimalDigits(n);
      hide Decimal;
      assert v[0] in v;
      DigitsAreNoKey(v);
    }
  }

  lemma UsualBlockKept(b: DeviceConfig)
    ensures UsualKept(b, KeptBlock(b))
  {
    hide IsReserved, IsUsual;
    forall v | IsUsual(v) ensures !IsReserved(v) { UsualIsNotReserved(v); }
  }

  /** "queue", "fail", "infinity" and every number come back from a printout in every field of every block. */
  lemma {:induction false} UsualValuesComeBack(c: MultipathConfig)
    ensures var r := Parsed(Print(c));
            && UsualKept(c.defaults, r.defaults) && UsualKept(c.overrides, r.overrides)
            && |r.devices| == |c.devices|
            && forall i | 0 <= i < |c.devices| :: UsualKept(c.devices[i], r.devices[i])
  {
    ParsePrinted(c);
    hide Print, Parsed, UsualKept, KeptBlock;
    forall b ensures UsualKept(b, KeptBlock(b)) { UsualBlockKept(b); }
  }
}
