/** Parsing undoes printing, and foreign sections do not matter. */
module ConfigGuarantees {
  import opened Wrappers
  import opened Tokenizer
  import opened ConfigParser

  lemma {:induction false} ConsumeConcat(p: Parser, a: seq<Token>, b: seq<Token>)
    ensures ConsumeAll(p, a + b) == ConsumeAll(ConsumeAll(p, a), b)
    decreases a
  {
    if a == [] {
      assert a + b == b;
    } else {
      assert (a + b)[0] == a[0] && (a + b)[1..] == a[1..] + b;
      ConsumeConcat(Consume(p, a[0]), a[1..], b);
    }
  }

  lemma ConsumeTwo(p: Parser, t: Token, u: Token)
    ensures ConsumeAll(p, [t, u]) == Consume(Consume(p, t), u)
  {
    hide Consume;
    ConsumeOne(Consume(p, t), u);
    var ts := [t, u];
    assert ts[1..] == [u];
  }

  lemma ConsumeOne(p: Parser, t: Token)
    ensures ConsumeAll(p, [t]) == Consume(p, t)
  {
    hide Consume;
    var ts := [t];
    assert ts[1..] == [];
  }

  // ---------- foreign sections ----------

  lemma {:induction false} SkipBalanced(config: MultipathConfig, body: seq<Token>, depth: nat)
    requires Balanced(body, depth)
    ensures ConsumeAll(Parser(config, Skipping(depth + 1)), body) == Parser(config, Skipping(1))
    decreases body
  {
    if body != [] {
      match body[0]
      case OpenBrace => SkipBalanced(config, body[1..], depth + 1);
      case CloseBrace => SkipBalanced(config, body[1..], depth - 1);
      case Word(_) => SkipBalanced(config, body[1..], depth);
    }
  }

  function Section(name: string, body: seq<Token>): seq<Token> {
    [Word(name), OpenBrace] + body + [CloseBrace]
  }

  /** Not the name of a section that is read. */
  predicate IsForeign(name: string) {
    name !in {"defaults", "devices", "overrides"}
  }

  /** Between sections, a balanced section under an unknown name leaves no trace. */
  lemma ForeignSectionConsumed(config: MultipathConfig, name: string, body: seq<Token>)
    requires IsForeign(name) && Balanced(body, 0)
    ensures ConsumeAll(Parser(config, Top), Section(name, body)) == Parser(config, Top)
  {
    var p := Parser(config, Top);
    var open := [Word(name), OpenBrace];
    ConsumeConcat(p, open + body, [CloseBrace]);
    ConsumeConcat(p, open, body);
    SkipBalanced(config, body, 0);
    ConsumeTwo(p, Word(name), OpenBrace);
    ConsumeOne(Parser(config, Skipping(1)), CloseBrace);
  }

  /**
   * Whatever precedes it, as long as that ends between sections, and whatever follows:
   * inserting a balanced foreign section leaves the parsed configuration unchanged.
   */
  lemma ForeignSectionIgnored(pre: seq<Token>, name: string, body: seq<Token>, post: seq<Token>)
    requires ConsumeAll(BEGIN, pre).place == Top
    requires IsForeign(name) && Balanced(body, 0)
    ensures ParseTokens(pre + Section(name, body) + post) == ParseTokens(pre + post)
  {
    ConsumeConcat(BEGIN, pre + Section(name, body), post);
    ConsumeConcat(BEGIN, pre, Section(name, body));
    ConsumeConcat(BEGIN, pre, post);
    ForeignSectionConsumed(ConsumeAll(BEGIN, pre).config, name, body);
  }

  /** The same for texts. */
  lemma ForeignTextIgnored(a: string, foreign: string, b: string, name: string, body: seq<Token>)
    requires EndsOutsideQuotes(a) && ConsumeAll(BEGIN, Tokens(a)).place == Top
    requires EndsOutsideQuotes(foreign) && Tokens(foreign) == Section(name, body)
    requires IsForeign(name) && Balanced(body, 0)
    ensures Parsed(a + "\n" + (foreign + "\n" + b)) == Parsed(a + "\n" + b)
  {
    LinesConcat(a, foreign + "\n" + b);
    LinesConcat(foreign, b);
    LinesConcat(a, b);
    assert Tokens(a) + (Tokens(foreign) + Tokens(b)) == Tokens(a) + Tokens(foreign) + Tokens(b);
    ForeignSectionIgnored(Tokens(a), name, body, Tokens(b));
  }

  // ---------- unknown blocks inside the devices section ----------

  /**
   * The words of a block mean nothing to the parser: none before the first closing brace
   * is "device" and none after it is the name of a section.
   */
  ghost predicate Inert(body: seq<Token>, closed: bool)
    decreases body
  {
    if body == [] then true
    else
      match body[0]
      case OpenBrace => Inert(body[1..], closed)
      case CloseBrace => Inert(body[1..], true)
      case Word(w) => (if closed then IsForeign(w) else w != "device") && Inert(body[1..], closed)
  }

  lemma {:induction false} InertBody(config: MultipathConfig, place: Place, body: seq<Token>, depth: nat)
    requires place in {InDevices, Top, AfterHead(OtherHead)} || (place.Skipping? && 1 <= place.depth <= depth)
    requires Balanced(body, depth) && Inert(body, place != InDevices)
    ensures ConsumeAll(Parser(config, place), body + [CloseBrace]) == Parser(config, Top)
    decreases body
  {
    if body == [] {
      ConsumeOne(Parser(config, place), CloseBrace);
      assert body + [CloseBrace] == [CloseBrace];
    } else {
      var next := Consume(Parser(config, place), body[0]);
      assert (body + [CloseBrace])[0] == body[0] && (body + [CloseBrace])[1..] == body[1..] + [CloseBrace];
      match body[0]
      case OpenBrace => InertBody(config, next.place, body[1..], depth + 1);
      case CloseBrace => InertBody(config, next.place, body[1..], depth - 1);
      case Word(_) => InertBody(config, next.place, body[1..], depth);
    }
  }

  /**
   * Inside the devices section the same insertion is not harmless: an unknown block
   * there, nested blocks included, ends the section.
   */
  lemma UnknownBlockEndsDevices(config: MultipathConfig, name: string, body: seq<Token>)
    requires name != "device" && Balanced(body, 0) && Inert(body, false)
    ensures ConsumeAll(Parser(config, InDevices), Section(name, body)) == Parser(config, Top)
  {
    SectionConsumed(Parser(config, InDevices), name, body);
    InertBody(config, InDevices, body, 0);
  }

  function DeviceSections(bodies: seq<seq<Token>>): seq<Token> {
    if bodies == [] then [] else Section("device", bodies[0]) + DeviceSections(bodies[1..])
  }

  /** The devices that these blocks configure. */
  function Listed(bodies: seq<seq<Token>>): seq<DeviceConfig> {
    ParseTokens(Section("devices", DeviceSections(bodies))).devices
  }

  /** From `a` to `b` and from `c` to `d` the same devices were added, and settings that were the same still are. */
  ghost predicate GrewAlike(a: MultipathConfig, b: MultipathConfig, c: MultipathConfig, d: MultipathConfig) {
    && a.devices <= b.devices && c.devices <= d.devices
    && b.devices[|a.devices|..] == d.devices[|c.devices|..]
    && (a.defaults == c.defaults && a.overrides == c.overrides ==>
          b.defaults == d.defaults && b.overrides == d.overrides)
  }

  lemma ConsumeAlike(p: Parser, q: Parser, t: Token)
    requires p.place == q.place
    ensures Consume(p, t).place == Consume(q, t).place
    ensures GrewAlike(p.config, Consume(p, t).config, q.config, Consume(q, t).config)
  {
    hide IsKnownKey, Assign, HeadOf;
  }

  /** What the parser adds to a configuration does not depend on what it already holds. */
  lemma {:induction false} ReadAlike(p: Parser, q: Parser, ts: seq<Token>)
    requires p.place == q.place
    ensures ConsumeAll(p, ts).place == ConsumeAll(q, ts).place
    ensures GrewAlike(p.config, ConsumeAll(p, ts).config, q.config, ConsumeAll(q, ts).config)
    ensures GrewAlike(p.config, Result(ConsumeAll(p, ts)), q.config, Result(ConsumeAll(q, ts)))
    decreases ts
  {
    if ts != [] {
      ConsumeAlike(p, q, ts[0]);
      ReadAlike(Consume(p, ts[0]), Consume(q, ts[0]), ts[1..]);
    }
  }

  lemma {:induction false} BalancedInBlock(p: Parser, body: seq<Token>, depth: nat)
    requires p.place.InBlock? && p.place.depth == depth + 1 && Balanced(body, depth)
    ensures var q := ConsumeAll(p, body);
            q.config == p.config && q.place.InBlock? && q.place.target == p.place.target && q.place.depth == 1
    decreases body
  {
    if body != [] {
      var next := Consume(p, body[0]);
      match body[0]
      case OpenBrace => BalancedInBlock(next, body[1..], depth + 1);
      case CloseBrace => BalancedInBlock(next, body[1..], depth - 1);
      case Word(_) => BalancedInBlock(next, body[1..], depth);
    }
  }

  lemma DeviceStored(config: MultipathConfig, body: seq<Token>) returns (block: DeviceConfig)
    requires Balanced(body, 0)
    ensures ConsumeAll(Parser(config, InDevices), Section("device", body))
         == Parser(Store(config, IntoDevices, block), InDevices)
  {
    var p := Parser(config, InBlock(IntoDevices, EMPTY_BLOCK, 1, None));
    SectionConsumed(Parser(config, InDevices), "device", body);
    ConsumeConcat(p, body, [CloseBrace]);
    BalancedInBlock(p, body, 0);
    ConsumeOne(ConsumeAll(p, body), CloseBrace);
    block := ConsumeAll(p, body).place.block;
  }

  ghost predicate AllBalanced(bodies: seq<seq<Token>>) {
    forall i | 0 <= i < |bodies| :: Balanced(bodies[i], 0)
  }

  lemma {:induction false} DevicesStored(config: MultipathConfig, bodies: seq<seq<Token>>)
    returns (blocks: seq<DeviceConfig>)
    requires AllBalanced(bodies)
    ensures |blocks| == |bodies|
    ensures ConsumeAll(Parser(config, InDevices), DeviceSections(bodies))
         == Parser(config.(devices := config.devices + blocks), InDevices)
    decreases |bodies|
  {
    if bodies == [] {
      blocks := [];
      assert config.devices + blocks == config.devices;
    } else {
      var block := DeviceStored(config, bodies[0]);
      var rest := DevicesStored(Store(config, IntoDevices, block), bodies[1..]);
      ConsumeConcat(Parser(config, InDevices), Section("device", bodies[0]), DeviceSections(bodies[1..]));
      blocks := [block] + rest;
      assert config.devices + blocks == config.devices + [block] + rest;
    }
  }

  /** Inside the devices section, blocks add the devices they configure, one each. */
  lemma ListedDevicesStored(config: MultipathConfig, bodies: seq<seq<Token>>)
    requires AllBalanced(bodies)
    ensures |Listed(bodies)| == |bodies|
    ensures ConsumeAll(Parser(config, InDevices), DeviceSections(bodies))
         == Parser(config.(devices := config.devices + Listed(bodies)), InDevices)
  {
    var ds, e := DeviceSections(bodies), Parser(EMPTY_CONFIG, InDevices);
    var listed := DevicesStored(EMPTY_CONFIG, bodies);
    var blocks := DevicesStored(config, bodies);
    ReadAlike(Parser(config, InDevices), e, ds);
    assert (config.devices + blocks)[|config.devices|..] == blocks && ([] + listed)[0..] == listed;
    SectionConsumed(BEGIN, "devices", ds);
    ConsumeConcat(e, ds, [CloseBrace]);
    ConsumeOne(ConsumeAll(e, ds), CloseBrace);
  }

  /** Outside it, they are foreign sections. */
  lemma {:induction false} DeviceSectionsSkipped(config: MultipathConfig, bodies: seq<seq<Token>>)
    requires AllBalanced(bodies)
    ensures ConsumeAll(Parser(config, Top), DeviceSections(bodies)) == Parser(config, Top)
    decreases |bodies|
  {
    if bodies != [] {
      ConsumeConcat(Parser(config, Top), Section("device", bodies[0]), DeviceSections(bodies[1..]));
      ForeignSectionConsumed(config, "device", bodies[0]);
      DeviceSectionsSkipped(config, bodies[1..]);
    }
  }

  /** The input goes on with an unknown block that means nothing to the parser. */
  ghost predicate StartsInert(tail: seq<Token>) {
    exists name, body, more ::
      && tail == Section(name, body) + more
      && IsForeign(name) && name != "device" && Balanced(body, 0) && Inert(body, false)
  }

  /** The devices section ends here: with the input, at a closing brace, or by another unknown block. */
  ghost predicate EndsSection(tail: seq<Token>) {
    tail == [] || tail[0] == CloseBrace || StartsInert(tail)
  }

  /** Where the section ends, it makes no difference whether the parser is still inside it. */
  lemma EndAlike(a: MultipathConfig, b: MultipathConfig, tail: seq<Token>)
    requires EndsSection(tail)
    ensures GrewAlike(a, Result(ConsumeAll(Parser(a, Top), tail)), b, Result(ConsumeAll(Parser(b, InDevices), tail)))
  {
    hide Inert, Balanced;
    if tail != [] && tail[0] == CloseBrace {
      ReadAlike(Parser(a, Top), Parser(b, Top), tail[1..]);
    } else if tail != [] {
      var name, body, more :|
        && tail == Section(name, body) + more
        && IsForeign(name) && name != "device" && Balanced(body, 0) && Inert(body, false);
      hide ConsumeAll, Section, GrewAlike, Result, StartsInert;
      ForeignSectionConsumed(a, name, body);
      UnknownBlockEndsDevices(b, name, body);
      ConsumeConcat(Parser(a, Top), Section(name, body), more);
      ConsumeConcat(Parser(b, InDevices), Section(name, body), more);
      ReadAlike(Parser(a, Top), Parser(b, Top), more);
    }
  }

  /** `cut` is `full` without the devices `lost`, which come right after the devices `before`. */
  ghost predicate Lacks(cut: MultipathConfig, full: MultipathConfig, before: seq<DeviceConfig>,
                        lost: seq<DeviceConfig>) {
    before + lost <= full.devices && cut == full.(devices := before + full.devices[|before + lost|..])
  }

  /** Reading on from inside the devices section with some devices more, and from behind it without them. */
  lemma TailAlike(config: MultipathConfig, lost: seq<DeviceConfig>, tail: seq<Token>)
    requires EndsSection(tail)
    ensures var more := config.(devices := config.devices + lost);
            Lacks(Result(ConsumeAll(Parser(config, Top), tail)), Result(ConsumeAll(Parser(more, InDevices), tail)),
                  config.devices, lost)
  {
    hide ConsumeAll, Result, EndsSection;
    var more := config.(devices := config.devices + lost);
    EndAlike(config, more, tail);
  }

  /**
   * Wherever in a devices section an inert unknown block stands, and whatever precedes
   * it: exactly the devices behind it are lost, up to the next unknown block or the end
   * of the section, behind which everything is read alike.
   */
  lemma DevicesAfterUnknownBlockAreLost(pre: seq<Token>, name: string, body: seq<Token>, bodies: seq<seq<Token>>,
                                        tail: seq<Token>)
    requires ConsumeAll(BEGIN, pre).place == InDevices
    requires name != "device" && Balanced(body, 0) && Inert(body, false)
    requires AllBalanced(bodies) && EndsSection(tail)
    ensures |Listed(bodies)| == |bodies|
    ensures Lacks(ParseTokens(pre + Section(name, body) + (DeviceSections(bodies) + tail)),
                  ParseTokens(pre + (DeviceSections(bodies) + tail)),
                  ConsumeAll(BEGIN, pre).config.devices, Listed(bodies))
  {
    hide Balanced, Inert, Section, DeviceSections, Consume, Result, Lacks, Listed, EndsSection;
    var config, ds := ConsumeAll(BEGIN, pre).config, DeviceSections(bodies);
    ConsumeConcat(BEGIN, pre + Section(name, body), ds + tail);
    ConsumeConcat(BEGIN, pre, Section(name, body));
    ConsumeConcat(BEGIN, pre, ds + tail);
    UnknownBlockEndsDevices(config, name, body);
    ConsumeConcat(Parser(config, Top), ds, tail);
    ConsumeConcat(Parser(config, InDevices), ds, tail);
    DeviceSectionsSkipped(config, bodies);
    ListedDevicesStored(config, bodies);
    TailAlike(config, Listed(bodies), tail);
  }

  /** So the block is harmless exactly when no device follows it before the next unknown block or the end. */
  lemma {:induction false} UnknownBlockIsHarmlessIff(pre: seq<Token>, name: string, body: seq<Token>,
                                                     bodies: seq<seq<Token>>, tail: seq<Token>)
    requires ConsumeAll(BEGIN, pre).place == InDevices
    requires name != "device" && Balanced(body, 0) && Inert(body, false)
    requires AllBalanced(bodies) && EndsSection(tail)
    ensures (ParseTokens(pre + Section(name, body) + (DeviceSections(bodies) + tail))
             == ParseTokens(pre + (DeviceSections(bodies) + tail))) <==> bodies == []
  {
    hide Balanced, Inert, Section, DeviceSections, ConsumeAll, ParseTokens, Listed, EndsSection;
    DevicesAfterUnknownBlockAreLost(pre, name, body, bodies, tail);
    var full := ParseTokens(pre + (DeviceSections(bodies) + tail));
    var before := ConsumeAll(BEGIN, pre).config.devices;
    if bodies == [] {
      assert before + Listed(bodies) == before;
      assert before + full.devices[|before|..] == full.devices;
    }
  }

  // ---------- any unknown block ----------

  /** What a block leads to when it is all that the devices section holds so far. */
  function Landing(name: string, body: seq<Token>): Parser {
    ConsumeAll(Parser(EMPTY_CONFIG, InDevices), Section(name, body))
  }

  lemma {:induction false} BalancedLands(p: Parser, body: seq<Token>, depth: nat)
    requires Balanced(body, depth)
    requires p.place.Skipping? || p.place.InBlock? ==> 1 <= p.place.depth <= depth
    ensures ConsumeAll(p, body + [CloseBrace]).place in {Top, InDevices}
    decreases body
  {
    if body == [] {
      ConsumeOne(p, CloseBrace);
      assert body + [CloseBrace] == [CloseBrace];
    } else {
      var next := Consume(p, body[0]);
      assert (body + [CloseBrace])[0] == body[0] && (body + [CloseBrace])[1..] == body[1..] + [CloseBrace];
      match body[0]
      case OpenBrace => BalancedLands(next, body[1..], depth + 1);
      case CloseBrace => BalancedLands(next, body[1..], depth - 1);
      case Word(_) => BalancedLands(next, body[1..], depth);
    }
  }

  /** Behind any unknown block the parser is between sections or still among the devices, and it has added the same. */
  lemma UnknownBlockLands(config: MultipathConfig, name: string, body: seq<Token>)
    requires name != "device" && Balanced(body, 0)
    ensures Landing(name, body).place in {Top, InDevices}
    ensures var q := ConsumeAll(Parser(config, InDevices), Section(name, body));
            && q.place == Landing(name, body).place
            && q.config.devices == config.devices + Landing(name, body).config.devices
  {
    var p := Parser(EMPTY_CONFIG, InDevices);
    SectionConsumed(p, name, body);
    BalancedLands(p, body, 0);
    hide ConsumeAll, Section, Balanced;
    ReadAlike(Parser(config, InDevices), p, Section(name, body));
  }

  /**
   * For any unknown block at all: it adds the devices it holds itself, and if it ends
   * the section, exactly the devices listed behind it are lost.
   */
  lemma UnknownBlockEffect(pre: seq<Token>, name: string, body: seq<Token>, bodies: seq<seq<Token>>, tail: seq<Token>)
    requires ConsumeAll(BEGIN, pre).place == InDevices
    requires name != "device" && Balanced(body, 0) && AllBalanced(bodies) && EndsSection(tail)
    ensures var before, end := ConsumeAll(BEGIN, pre).config.devices, Landing(name, body);
            var full := ParseTokens(pre + (DeviceSections(bodies) + tail)).devices;
            && end.place in {Top, InDevices}
            && before + Listed(bodies) <= full
            && ParseTokens(pre + Section(name, body) + (DeviceSections(bodies) + tail)).devices
               == before + end.config.devices + (if end.place == Top then [] else Listed(bodies))
                  + full[|before + Listed(bodies)|..]
  {
    hide Balanced, Section, DeviceSections, Consume, Result, Listed, EndsSection, Landing, ConsumeAll;
    var config, ds := ConsumeAll(BEGIN, pre).config, DeviceSections(bodies);
    ConsumeConcat(BEGIN, pre + Section(name, body), ds + tail);
    ConsumeConcat(BEGIN, pre, Section(name, body));
    ConsumeConcat(BEGIN, pre, ds + tail);
    UnknownBlockLands(config, name, body);
    var q := ConsumeAll(Parser(config, InDevices), Section(name, body));
    ConsumeConcat(q, ds, tail);
    ConsumeConcat(Parser(config, InDevices), ds, tail);
    ListedDevicesStored(config, bodies);
    var more := config.(devices := config.devices + Listed(bodies));
    if q.place == Top {
      DeviceSectionsSkipped(q.config, bodies);
      EndAlike(q.config, more, tail);
    } else {
      var next := q.config.(devices := q.config.devices + Listed(bodies));
      ListedDevicesStored(q.config, bodies);
      ReadAlike(Parser(next, InDevices), Parser(more, InDevices), tail);
    }
  }

  /** So any unknown block leaves the devices alone exactly when it makes up for the ones it costs. */
  lemma {:induction false} UnknownBlockKeepsDevicesIff(pre: seq<Token>, name: string, body: seq<Token>,
                                                       bodies: seq<seq<Token>>, tail: seq<Token>)
    requires ConsumeAll(BEGIN, pre).place == InDevices
    requires name != "device" && Balanced(body, 0) && AllBalanced(bodies) && EndsSection(tail)
    ensures (ParseTokens(pre + Section(name, body) + (DeviceSections(bodies) + tail)).devices
             == ParseTokens(pre + (DeviceSections(bodies) + tail)).devices) <==>
            Landing(name, body).config.devices == (if Landing(name, body).place == Top then Listed(bodies) else [])
  {
    hide Balanced, Inert, Section, DeviceSections, ConsumeAll, ParseTokens, Listed, EndsSection, Landing, AllBalanced;
    UnknownBlockEffect(pre, name, body, bodies, tail);
    var before, end := ConsumeAll(BEGIN, pre).config.devices, Landing(name, body);
    MakesUpIff(before, end.config.devices, Listed(bodies), end.place == Top,
               ParseTokens(pre + (DeviceSections(bodies) + tail)).devices);
  }

  lemma MakesUpIff(before: seq<DeviceConfig>, own: seq<DeviceConfig>, listed: seq<DeviceConfig>, ends: bool,
                   full: seq<DeviceConfig>)
    requires before + listed <= full
    ensures before + own + (if ends then [] else listed) + full[|before + listed|..] == full <==>
            own == if ends then listed else []
  {
    var later := full[|before + listed|..];
    assert full == before + listed + later;
    Cancel(before, own + (if ends then [] else listed), listed, later);
    assert before + (own + (if ends then [] else listed)) == before + own + (if ends then [] else listed);
    assert own + [] == own;
    assert own + listed == listed <==> own == [] by {
      if own + listed == listed { assert |own| == 0; }
    }
  }

  lemma Cancel(a: seq<DeviceConfig>, x: seq<DeviceConfig>, y: seq<DeviceConfig>, b: seq<DeviceConfig>)
    ensures a + x + b == a + y + b <==> x == y
  {
    if a + x + b == a + y + b {
      assert |x| == |y|;
      assert (a + x + b)[|a|..|a| + |x|] == x && (a + y + b)[|a|..|a| + |y|] == y;
    }
  }

  // ---------- printing ----------

  /** A quotation with its quotes doubled. */
  function Escape(v: string): string {
    if v == "" then "" else (if v[0] == '"' then "\"\"" else [v[0]]) + Escape(v[1..])
  }

  function Decimal(n: nat): string {
    (if n < 10 then "" else Decimal(n / 10)) + [(n % 10 + '0' as int) as char]
  }

  function Line(key: string, val: string): string {
    key + " \"" + Escape(val) + "\"\n"
  }

  function OptLine(key: string, val: Option<string>): string {
    if val.Some? then Line(key, val.value) else ""
  }

  function Interval(block: DeviceConfig): Option<string> {
    match block.pollingInterval
    case Some(n) => Some(Decimal(n))
    case None => None
  }

  function PrintFields(b: DeviceConfig): string {
    OptLine("vendor", b.vendor) + OptLine("product", b.product) + OptLine("dev_loss_tmo", b.devLossTmo)
    + OptLine("no_path_retry", b.noPathRetry) + OptLine("polling_interval", Interval(b))
  }

  function PrintBlock(name: string, b: DeviceConfig): string {
    name + " {\n" + PrintFields(b) + "}\n"
  }

  function PrintDevices(devices: seq<DeviceConfig>): string {
    if devices == [] then "" else PrintBlock("device", devices[0]) + PrintDevices(devices[1..])
  }

  function PrintDevicesSection(devices: seq<DeviceConfig>): string {
    "devices" + " {\n" + PrintDevices(devices) + "}\n"
  }

  function Print(c: MultipathConfig): string {
    PrintBlock("defaults", c.defaults) + PrintDevicesSection(c.devices) + PrintBlock("overrides", c.overrides)
  }

  // ---------- the tokens of a printout ----------

  function OptField(key: string, val: Option<string>): seq<Token> {
    if val.Some? then [Word(key), Word(val.value)] else []
  }

  function FieldTokens(b: DeviceConfig): seq<Token> {
    OptField("vendor", b.vendor) + OptField("product", b.product) + OptField("dev_loss_tmo", b.devLossTmo)
    + OptField("no_path_retry", b.noPathRetry) + OptField("polling_interval", Interval(b))
  }

  function DevicesTokens(devices: seq<DeviceConfig>): seq<Token> {
    if devices == [] then [] else Section("device", FieldTokens(devices[0])) + DevicesTokens(devices[1..])
  }

  function ConfigTokens(c: MultipathConfig): seq<Token> {
    Section("defaults", FieldTokens(c.defaults)) + Section("devices", DevicesTokens(c.devices))
    + Section("overrides", FieldTokens(c.overrides))
  }

  /** Read with no word in progress, the text gives exactly these tokens and leaves no word in progress. */
  ghost predicate Lexes(s: string, ts: seq<Token>) {
    FeedAll(START, s) == Lexer(Plain, "", ts)
  }

  lemma LexesConcat(a: string, ta: seq<Token>, b: string, tb: seq<Token>)
    requires Lexes(a, ta) && Lexes(b, tb)
    ensures Lexes(a + b, ta + tb)
  {
    FeedConcat(START, a, b);
    FeedAllAfter(ta, START, b);
    assert ta + [] == ta;
  }

  lemma LexesTokens(s: string, ts: seq<Token>)
    ensures Lexes(s, ts) ==> Tokens(s) == ts
  {
  }

  predicate IsKeyChar(c: char) {
    'a' <= c <= 'z' || c == '_'
  }

  lemma {:induction false} FeedKey(word: string, ts: seq<Token>, key: string)
    requires forall c | c in key :: IsKeyChar(c)
    ensures FeedAll(Lexer(Plain, word, ts), key) == Lexer(Plain, word + key, ts)
    decreases key
  {
    if key != "" {
      assert key[0] in key && forall c | c in key[1..] :: c in key;
      FeedKeyChar(word, ts, key[0]);
      hide Feed;
      FeedKey(word + [key[0]], ts, key[1..]);
      assert word + [key[0]] + key[1..] == word + key;
    } else {
      assert word + key == word;
    }
  }

  lemma FeedKeyChar(word: string, ts: seq<Token>, c: char)
    requires IsKeyChar(c)
    ensures Feed(Lexer(Plain, word, ts), c) == Lexer(Plain, word + [c], ts)
  {
  }

  lemma {:induction false} FeedEscaped(word: string, ts: seq<Token>, v: string)
    ensures FeedAll(Lexer(Quoted, word, ts), Escape(v)) == Lexer(Quoted, word + v, ts)
    decreases v
  {
    if v != "" {
      var first := if v[0] == '"' then "\"\"" else [v[0]];
      FeedConcat(Lexer(Quoted, word, ts), first, Escape(v[1..]));
      FeedOneEscaped(word, ts, v[0]);
      FeedEscaped(word + [v[0]], ts, v[1..]);
      assert word + [v[0]] + v[1..] == word + v;
    } else {
      assert word + v == word;
    }
  }

  lemma FeedOneEscaped(word: string, ts: seq<Token>, c: char)
    ensures FeedAll(Lexer(Quoted, word, ts), if c == '"' then "\"\"" else [c]) == Lexer(Quoted, word + [c], ts)
  {
    if c == '"' {
      var s := "\"\"";
      assert s[1..] == "\"" && s[1..][1..] == "";
    } else {
      assert [c][1..] == [];
    }
  }

  /** A key, blank, and opening quote; the closing quote and end of line. */
  lemma FeedQuotes(key: string, ts: seq<Token>, val: string)
    requires key != ""
    ensures FeedAll(Lexer(Plain, key, ts), " \"") == Lexer(Quoted, "", ts + [Word(key)])
    ensures FeedAll(Lexer(Quoted, val, ts), "\"\n") == Lexer(Plain, "", ts + [Word(val)])
  {
    var open, close := " \"", "\"\n";
    assert open[1..] == "\"" && open[1..][1..] == "";
    assert close[1..] == "\n" && close[1..][1..] == "";
  }

  lemma LineLexes(key: string, val: string)
    requires key != "" && forall c | c in key :: IsKeyChar(c)
    ensures Lexes(Line(key, val), [Word(key), Word(val)])
  {
    hide FeedAll;
    FeedConcat(START, key + " \"" + Escape(val), "\"\n");
    FeedConcat(START, key + " \"", Escape(val));
    FeedConcat(START, key, " \"");
    FeedKey("", [], key);
    FeedQuotes(key, [], val);
    FeedEscaped("", [Word(key)], val);
    FeedQuotes(key, [Word(key)], val);
    assert "" + val == val && "" + key == key && [] + [Word(key)] == [Word(key)];
  }

  predicate IsKey(key: string) {
    key != "" && forall c | c in key :: IsKeyChar(c)
  }

  lemma OptLineLexes(key: string, val: Option<string>)
    requires IsKey(key)
    ensures Lexes(OptLine(key, val), OptField(key, val))
  {
    if val.Some? { LineLexes(key, val.value); }
  }

  lemma FieldsLex(b: DeviceConfig)
    ensures Lexes(PrintFields(b), FieldTokens(b))
  {
    OptLineLexes("vendor", b.vendor);
    OptLineLexes("product", b.product);
    OptLineLexes("dev_loss_tmo", b.devLossTmo);
    OptLineLexes("no_path_retry", b.noPathRetry);
    OptLineLexes("polling_interval", Interval(b));
    hide Lexes, OptLine, OptField;
    var s1, t1 := OptLine("vendor", b.vendor), OptField("vendor", b.vendor);
    var s2, t2 := s1 + OptLine("product", b.product), t1 + OptField("product", b.product);
    var s3, t3 := s2 + OptLine("dev_loss_tmo", b.devLossTmo), t2 + OptField("dev_loss_tmo", b.devLossTmo);
    var s4, t4 := s3 + OptLine("no_path_retry", b.noPathRetry), t3 + OptField("no_path_retry", b.noPathRetry);
    LexesConcat(s1, t1, OptLine("product", b.product), OptField("product", b.product));
    LexesConcat(s2, t2, OptLine("dev_loss_tmo", b.devLossTmo), OptField("dev_loss_tmo", b.devLossTmo));
    LexesConcat(s3, t3, OptLine("no_path_retry", b.noPathRetry), OptField("no_path_retry", b.noPathRetry));
    LexesConcat(s4, t4, OptLine("polling_interval", Interval(b)), OptField("polling_interval", Interval(b)));
  }

  /** A name, its braces, and a body that lexes. */
  lemma BracesLex(name: string, body: string, ts: seq<Token>)
    requires IsKey(name) && Lexes(body, ts)
    ensures Lexes(name + " {\n" + body + "}\n", Section(name, ts))
  {
    var open, close := " {\n", "}\n";
    OpenLexes(name);
    assert Lexes(close, [CloseBrace]) by {
      assert close[1..] == "\n" && close[1..][1..] == "";
    }
    hide Lexes;
    LexesConcat(name + open, [Word(name), OpenBrace], body, ts);
    LexesConcat(name + open + body, [Word(name), OpenBrace] + ts, close, [CloseBrace]);
  }

  lemma OpenLexes(name: string)
    requires IsKey(name)
    ensures Lexes(name + " {\n", [Word(name), OpenBrace])
  {
    var open := " {\n";
    FeedConcat(START, name, open);
    FeedKey("", [], name);
    assert "" + name == name;
    assert open[1..] == "{\n" && open[1..][1..] == "\n" && open[1..][1..][1..] == "";
  }

  lemma BlockLexes(name: string, b: DeviceConfig)
    requires IsKey(name)
    ensures Lexes(PrintBlock(name, b), Section(name, FieldTokens(b)))
  {
    FieldsLex(b);
    BracesLex(name, PrintFields(b), FieldTokens(b));
  }

  lemma {:induction false} DevicesLex(devices: seq<DeviceConfig>)
    ensures Lexes(PrintDevices(devices), DevicesTokens(devices))
  {
    if devices != [] {
      BlockLexes("device", devices[0]);
      DevicesLex(devices[1..]);
      hide Lexes, PrintBlock, FieldTokens;
      LexesConcat(PrintBlock("device", devices[0]), Section("device", FieldTokens(devices[0])),
                  PrintDevices(devices[1..]), DevicesTokens(devices[1..]));
    }
  }

  /** Tokenizing a printout gives the tokens of the configuration. */
  lemma PrintLexes(c: MultipathConfig)
    ensures Tokens(Print(c)) == ConfigTokens(c)
  {
    BlockLexes("defaults", c.defaults);
    DevicesLex(c.devices);
    BracesLex("devices", PrintDevices(c.devices), DevicesTokens(c.devices));
    BlockLexes("overrides", c.overrides);
    var s1, t1 := PrintBlock("defaults", c.defaults), Section("defaults", FieldTokens(c.defaults));
    var s2, t2 := PrintDevicesSection(c.devices), Section("devices", DevicesTokens(c.devices));
    var s3, t3 := PrintBlock("overrides", c.overrides), Section("overrides", FieldTokens(c.overrides));
    assert Lexes(s2, t2);
    hide Lexes, Tokens, PrintBlock, FieldTokens, PrintDevicesSection, DevicesTokens, Section;
    LexesConcat(s1, t1, s2, t2);
    LexesConcat(s1 + s2, t1 + t2, s3, t3);
    LexesTokens(s1 + s2 + s3, t1 + t2 + t3);
  }

  // ---------- parsing a printout ----------

  /** The words that are never read as a value: names of sections, of settings that are read, and of others. */
  predicate IsReserved(w: string) {
    || w in {"defaults", "devices", "device", "overrides"}
    || w in {"vendor", "product", "dev_loss_tmo", "no_path_retry", "polling_interval"}
    || w in {"path_grouping_policy", "path_selector", "path_checker", "features", "prio", "failback", "rr_weight",
             "rr_min_io", "rr_min_io_rq", "fast_io_fail_tmo"}
  }

  lemma KnownKeysAreReserved(w: string)
    ensures IsKnownKey(w) <==> IsReserved(w)
  {
  }

  /** What survives of a printed value: a reserved word is lost. */
  function Kept(val: Option<string>): Option<string> {
    if val.Some? && IsReserved(val.value) then None else val
  }

  function KeptBlock(b: DeviceConfig): DeviceConfig {
    DeviceConfig(Kept(b.vendor), Kept(b.product), Kept(b.devLossTmo), Kept(b.noPathRetry), b.pollingInterval)
  }

  function KeptDevices(devices: seq<DeviceConfig>): seq<DeviceConfig> {
    seq(|devices|, i requires 0 <= i < |devices| => KeptBlock(devices[i]))
  }

  function KeptConfig(c: MultipathConfig): MultipathConfig {
    MultipathConfig(KeptBlock(c.defaults), KeptDevices(c.devices), KeptBlock(c.overrides))
  }

  /** In some block at its top level, whatever key may be waiting for a value. */
  ghost predicate Fills(p: Parser, config: MultipathConfig, target: Target, block: DeviceConfig) {
    p.config == config && p.place.InBlock? && p.place.target == target && p.place.block == block && p.place.depth == 1
  }

  lemma FieldConsumed(p: Parser, config: MultipathConfig, target: Target, block: DeviceConfig,
                      key: string, val: Option<string>)
    requires Fills(p, config, target, block) && IsKnownKey(key)
    ensures Fills(ConsumeAll(p, OptField(key, val)), config, target,
                  if Kept(val).Some? then Assign(block, key, val.value) else block)
  {
    hide IsKnownKey, IsReserved, Assign;
    if val.Some? {
      KnownKeysAreReserved(val.value);
      ConsumeTwo(p, Word(key), Word(val.value));
    }
  }

  lemma FieldsConsumed(p: Parser, config: MultipathConfig, target: Target, b: DeviceConfig)
    requires Fills(p, config, target, EMPTY_BLOCK)
    ensures Fills(ConsumeAll(p, FieldTokens(b)), config, target, KeptBlock(b))
  {
    DecimalParses(b);
    var f1, f2 := OptField("vendor", b.vendor), OptField("product", b.product);
    var f3 := OptField("dev_loss_tmo", b.devLossTmo);
    var f4, f5 := OptField("no_path_retry", b.noPathRetry), OptField("polling_interval", Interval(b));
    ConsumeConcat(p, f1 + f2 + f3 + f4, f5);
    ConsumeConcat(p, f1 + f2 + f3, f4);
    ConsumeConcat(p, f1 + f2, f3);
    ConsumeConcat(p, f1, f2);
    var b1 := EMPTY_BLOCK.(vendor := Kept(b.vendor));
    var b2 := b1.(product := Kept(b.product));
    var b3 := b2.(devLossTmo := Kept(b.devLossTmo));
    var b4 := b3.(noPathRetry := Kept(b.noPathRetry));
    FieldConsumed(p, config, target, EMPTY_BLOCK, "vendor", b.vendor);
    FieldConsumed(ConsumeAll(p, f1), config, target, b1, "product", b.product);
    FieldConsumed(ConsumeAll(p, f1 + f2), config, target, b2, "dev_loss_tmo", b.devLossTmo);
    FieldConsumed(ConsumeAll(p, f1 + f2 + f3), config, target, b3, "no_path_retry", b.noPathRetry);
    FieldConsumed(ConsumeAll(p, f1 + f2 + f3 + f4), config, target, b4, "polling_interval", Interval(b));
  }

  lemma {:induction false} DecimalDigits(n: nat)
    ensures Decimal(n) != "" && (forall c | c in Decimal(n) :: IsDigit(c)) && DigitsValue(Decimal(n)) == n
  {
    var s := Decimal(n);
    if n >= 10 { DecimalDigits(n / 10); }
    assert s[..|s| - 1] == if n < 10 then "" else Decimal(n / 10);
  }

  lemma DigitsAreNoKey(s: string)
    requires s != "" && IsDigit(s[0])
    ensures !IsReserved(s)
  {
  }

  /** A printed interval is no known key and parses back to the same number. */
  lemma DecimalParses(b: DeviceConfig)
    ensures Kept(Interval(b)) == Interval(b)
    ensures Interval(b).Some? ==> ParseU64(Interval(b).value) == b.pollingInterval
  {
    if b.pollingInterval.Some? {
      var s := Decimal(b.pollingInterval.value);
      DecimalDigits(b.pollingInterval.value);
      assert s[0] in s;
      DigitsAreNoKey(s);
      hide IsReserved, Decimal;
    }
  }

  lemma BlockConsumed(config: MultipathConfig, target: Target, b: DeviceConfig)
    ensures ConsumeAll(Parser(config, InBlock(target, EMPTY_BLOCK, 1, None)), FieldTokens(b) + [CloseBrace])
         == Parser(Store(config, target, KeptBlock(b)), Outside(target))
  {
    var p := Parser(config, InBlock(target, EMPTY_BLOCK, 1, None));
    ConsumeConcat(p, FieldTokens(b), [CloseBrace]);
    FieldsConsumed(p, config, target, b);
    hide FieldTokens, KeptBlock, Store;
    ConsumeOne(ConsumeAll(p, FieldTokens(b)), CloseBrace);
  }

  /** A section's two opening tokens, then its body and closing brace. */
  lemma SectionConsumed(p: Parser, name: string, body: seq<Token>)
    ensures ConsumeAll(p, Section(name, body))
         == ConsumeAll(Consume(Consume(p, Word(name)), OpenBrace), body + [CloseBrace])
  {
    var open := [Word(name), OpenBrace];
    assert Section(name, body) == open + (body + [CloseBrace]);
    ConsumeConcat(p, open, body + [CloseBrace]);
    ConsumeTwo(p, Word(name), OpenBrace);
  }

  lemma {:induction false} DevicesConsumed(config: MultipathConfig, devices: seq<DeviceConfig>)
    ensures ConsumeAll(Parser(config, InDevices), DevicesTokens(devices))
         == Parser(config.(devices := config.devices + KeptDevices(devices)), InDevices)
    decreases |devices|
  {
    hide FieldTokens, KeptBlock;
    if devices == [] {
      assert config.devices + KeptDevices([]) == config.devices;
    } else {
      var p := Parser(config, InDevices);
      var next := Store(config, IntoDevices, KeptBlock(devices[0]));
      ConsumeConcat(p, Section("device", FieldTokens(devices[0])), DevicesTokens(devices[1..]));
      SectionConsumed(p, "device", FieldTokens(devices[0]));
      BlockConsumed(config, IntoDevices, devices[0]);
      DevicesConsumed(next, devices[1..]);
      assert KeptDevices(devices) == [KeptBlock(devices[0])] + KeptDevices(devices[1..]);
      assert config.devices + KeptDevices(devices) == next.devices + KeptDevices(devices[1..]);
    }
  }

  lemma DevicesSectionConsumed(config: MultipathConfig, devices: seq<DeviceConfig>)
    ensures ConsumeAll(Parser(config, Top), Section("devices", DevicesTokens(devices)))
         == Parser(config.(devices := config.devices + KeptDevices(devices)), Top)
  {
    hide DevicesTokens, KeptDevices;
    SectionConsumed(Parser(config, Top), "devices", DevicesTokens(devices));
    ConsumeConcat(Parser(config, InDevices), DevicesTokens(devices), [CloseBrace]);
    DevicesConsumed(config, devices);
    ConsumeOne(ConsumeAll(Parser(config, InDevices), DevicesTokens(devices)), CloseBrace);
  }

  /** Parsing a printout gives the configuration without the values that are reserved words. */
  lemma ParsePrinted(c: MultipathConfig)
    ensures Parsed(Print(c)) == KeptConfig(c)
  {
    PrintLexes(c);
    hide FieldTokens, KeptBlock, DevicesTokens, KeptDevices, Section, Print;
    var t1, t2, t3 := Section("defaults", FieldTokens(c.defaults)), Section("devices", DevicesTokens(c.devices)),
                      Section("overrides", FieldTokens(c.overrides));
    ConsumeConcat(BEGIN, t1 + t2, t3);
    ConsumeConcat(BEGIN, t1, t2);
    SectionConsumed(BEGIN, "defaults", FieldTokens(c.defaults));
    BlockConsumed(EMPTY_CONFIG, IntoDefaults, c.defaults);
    var c1 := EMPTY_CONFIG.(defaults := KeptBlock(c.defaults));
    DevicesSectionConsumed(c1, c.devices);
    assert [] + KeptDevices(c.devices) == KeptDevices(c.devices);
    var c2 := c1.(devices := KeptDevices(c.devices));
    SectionConsumed(Parser(c2, Top), "overrides", FieldTokens(c.overrides));
    BlockConsumed(c2, IntoOverrides, c.overrides);
  }

  ghost predicate NoKeyAsValue(b: DeviceConfig) {
    forall v | v in [b.vendor, b.product, b.devLossTmo, b.noPathRetry] && v.Some? :: !IsReserved(v.value)
  }

  /** Parsing undoes printing exactly for the configurations in which no value is a reserved word. */
  lemma RoundTrip(c: MultipathConfig)
    ensures Parsed(Print(c)) == c <==>
            NoKeyAsValue(c.defaults) && NoKeyAsValue(c.overrides) && forall d | d in c.devices :: NoKeyAsValue(d)
  {
    ParsePrinted(c);
    hide Print, Parsed;
    KeptIffNoKey(c.defaults);
    KeptIffNoKey(c.overrides);
    forall i | 0 <= i < |c.devices| ensures KeptDevices(c.devices)[i] == c.devices[i] <==> NoKeyAsValue(c.devices[i]) {
      KeptIffNoKey(c.devices[i]);
    }
    hide KeptBlock, NoKeyAsValue;
    if forall d | d in c.devices :: NoKeyAsValue(d) {
      assert KeptDevices(c.devices) == c.devices;
    } else {
      var i :| 0 <= i < |c.devices| && !NoKeyAsValue(c.devices[i]);
      assert KeptDevices(c.devices)[i] != c.devices[i];
    }
  }

  lemma KeptIffNoKey(b: DeviceConfig)
    ensures KeptBlock(b) == b <==> NoKeyAsValue(b)
  {
    hide IsReserved;
    var vs := [b.vendor, b.product, b.devLossTmo, b.noPathRetry];
    assert vs[0] == b.vendor && vs[1] == b.product && vs[2] == b.devLossTmo && vs[3] == b.noPathRetry;
  }
}
