/** The brace-tracking parser of the multipath configuration. */
module ConfigParser {
  import opened Wrappers
  import opened Tokenizer

  datatype DeviceConfig = DeviceConfig(
    vendor: Option<string>, product: Option<string>, devLossTmo: Option<string>,
    noPathRetry: Option<string>, pollingInterval: Option<U64>)

  datatype MultipathConfig = MultipathConfig(
    defaults: DeviceConfig, devices: seq<DeviceConfig>, overrides: DeviceConfig)

  const EMPTY_BLOCK: DeviceConfig := DeviceConfig(None, None, None, None, None)
  const EMPTY_CONFIG: MultipathConfig := MultipathConfig(EMPTY_BLOCK, [], EMPTY_BLOCK)

  // ---------- values ----------

  predicate IsDigit(c: char) {
    '0' <= c <= '9'
  }

  function DigitsValue(s: string): nat
    requires forall c | c in s :: IsDigit(c)
  {
    if s == "" then 0
    else
      var last := s[|s| - 1];
      assert last in s && IsDigit(last);
      DigitsValue(s[..|s| - 1]) * 10 + (last as int - '0' as int)
  }

  /** Unsigned 64-bit parsing: an optional plus sign, at least one digit, no overflow. */
  function ParseU64(s: string): Option<U64> {
    var digits := if s != "" && s[0] == '+' then s[1..] else s;
    if digits != "" && (forall c | c in digits :: IsDigit(c)) && DigitsValue(digits) <= U64_MAX
    then Some(DigitsValue(digits))
    else None
  }

  predicate IsKnownKey(s: string) {
    s in {"vendor", "product", "dev_loss_tmo", "no_path_retry", "defaults", "devices", "device", "overrides",
          "path_grouping_policy", "path_selector", "path_checker", "features", "prio", "failback", "rr_weight",
          "rr_min_io", "rr_min_io_rq", "fast_io_fail_tmo", "polling_interval"}
  }

  function Assign(block: DeviceConfig, key: string, val: string): DeviceConfig {
    if key == "vendor" then block.(vendor := Some(val))
    else if key == "product" then block.(product := Some(val))
    else if key == "dev_loss_tmo" then block.(devLossTmo := Some(val))
    else if key == "no_path_retry" then block.(noPathRetry := Some(val))
    else if key == "polling_interval" then block.(pollingInterval := ParseU64(val))
    else block
  }

  // ---------- the reference: an automaton that takes one token at a time ----------

  datatype Head = DefaultsHead | DevicesHead | OverridesHead | OtherHead

  /** Where a block goes once it is complete. */
  datatype Target = IntoDefaults | IntoDevices | IntoOverrides

  datatype Place =
    | Top
    | AfterHead(head: Head)
    | InDevices
    | AfterDevice
    | InBlock(target: Target, block: DeviceConfig, depth: nat, pending: Option<string>)
    | Skipping(depth: nat)

  datatype Parser = Parser(config: MultipathConfig, place: Place)

  const BEGIN: Parser := Parser(EMPTY_CONFIG, Top)

  function HeadOf(w: string): Head {
    if w == "defaults" then DefaultsHead
    else if w == "devices" then DevicesHead
    else if w == "overrides" then OverridesHead
    else OtherHead
  }

  function Opened(head: Head): Place {
    match head
    case DefaultsHead => InBlock(IntoDefaults, EMPTY_BLOCK, 1, None)
    case DevicesHead => InDevices
    case OverridesHead => InBlock(IntoOverrides, EMPTY_BLOCK, 1, None)
    case OtherHead => Skipping(1)
  }

  function Store(config: MultipathConfig, target: Target, block: DeviceConfig): MultipathConfig {
    match target
    case IntoDefaults => config.(defaults := block)
    case IntoDevices => config.(devices := config.devices + [block])
    case IntoOverrides => config.(overrides := block)
  }

  function Outside(target: Target): Place {
    if target == IntoDevices then InDevices else Top
  }

  /** A word in a block is a key, or the value of the key before it unless it is itself a known key. */
  function WordInBlock(b: Place, w: string): Place
    requires b.InBlock?
  {
    if b.depth != 1 then b
    else if b.pending.Some? && !IsKnownKey(w) then
      InBlock(b.target, Assign(b.block, b.pending.value, w), 1, None)
    else b.(pending := Some(w))
  }

  function Consume(p: Parser, t: Token): Parser {
    match p.place
    case Top => if t.Word? then p.(place := AfterHead(HeadOf(t.text))) else p
    case AfterHead(head) => p.(place := if t.OpenBrace? then Opened(head) else Top)
    case InDevices =>
      if t == Word("device") then p.(place := AfterDevice)
      else if t.CloseBrace? then p.(place := Top)
      else p
    case AfterDevice =>
      p.(place := if t.OpenBrace? then InBlock(IntoDevices, EMPTY_BLOCK, 1, None) else InDevices)
    case Skipping(depth) =>
      (match t
       case OpenBrace => p.(place := Skipping(depth + 1))
       case CloseBrace => p.(place := if depth <= 1 then Top else Skipping(depth - 1))
       case Word(_) => p)
    case InBlock(target, block, depth, pending) =>
      (match t
       case OpenBrace => p.(place := InBlock(target, block, depth + 1, None))
       case CloseBrace =>
         if depth <= 1 then Parser(Store(p.config, target, block), Outside(target))
         else p.(place := InBlock(target, block, depth - 1, None))
       case Word(w) => p.(place := WordInBlock(p.place, w)))
  }

  function ConsumeAll(p: Parser, ts: seq<Token>): Parser
    decreases ts
  {
    if ts == [] then p else ConsumeAll(Consume(p, ts[0]), ts[1..])
  }

  /** At the end of the input an unfinished block still counts. */
  function Result(p: Parser): MultipathConfig {
    if p.place.InBlock? then Store(p.config, p.place.target, p.place.block) else p.config
  }

  function ParseTokens(ts: seq<Token>): MultipathConfig {
    Result(ConsumeAll(BEGIN, ts))
  }

  function Parsed(text: string): MultipathConfig {
    ParseTokens(Tokens(text))
  }

  /** What is still to be read, read from `p`, gives the result `r`. */
  ghost predicate Yields(p: Parser, rest: seq<Token>, r: MultipathConfig) {
    Result(ConsumeAll(p, rest)) == r
  }

  lemma YieldsNext(p: Parser, rest: seq<Token>, r: MultipathConfig)
    requires Yields(p, rest, r) && rest != []
    ensures Yields(Consume(p, rest[0]), rest[1..], r)
  {
  }

  // ---------- matching braces ----------

  /** How many tokens it takes from inside `depth` open braces to close the outermost one. */
  ghost function BlockEnd(ts: seq<Token>, depth: nat): (n: nat)
    ensures n <= |ts|
    decreases ts
  {
    if ts == [] || depth == 0 then 0
    else
      match ts[0]
      case OpenBrace => 1 + BlockEnd(ts[1..], depth + 1)
      case CloseBrace => 1 + BlockEnd(ts[1..], depth - 1)
      case Word(_) => 1 + BlockEnd(ts[1..], depth)
  }

  /** The braces of `ts` match up once `depth` more closing braces are taken into account. */
  ghost predicate Balanced(ts: seq<Token>, depth: nat)
    decreases ts
  {
    if ts == [] then depth == 0
    else
      match ts[0]
      case OpenBrace => Balanced(ts[1..], depth + 1)
      case CloseBrace => depth > 0 && Balanced(ts[1..], depth - 1)
      case Word(_) => Balanced(ts[1..], depth)
  }

  /** The outermost brace of a balanced body is closed by the brace that follows the body. */
  lemma {:induction false} BlockEndIsMatchingBrace(body: seq<Token>, depth: nat, post: seq<Token>)
    requires Balanced(body, depth)
    ensures BlockEnd(body + [CloseBrace] + post, depth + 1) == |body| + 1
    decreases body
  {
    var ts := body + [CloseBrace] + post;
    if body != [] {
      assert ts[0] == body[0] && ts[1..] == body[1..] + [CloseBrace] + post;
      match body[0]
      case OpenBrace => BlockEndIsMatchingBrace(body[1..], depth + 1, post);
      case CloseBrace => BlockEndIsMatchingBrace(body[1..], depth - 1, post);
      case Word(_) => BlockEndIsMatchingBrace(body[1..], depth, post);
    } else {
      assert ts[0] == CloseBrace && BlockEnd(ts[1..], 0) == 0;
    }
  }

  // ---------- the source's loops over a peekable iterator ----------

  class TokenIterator {
    const tokens: seq<Token>
    var pos: nat

    ghost predicate Valid()
      reads this
    {
      pos <= |tokens|
    }

    ghost function Rest(): seq<Token>
      reads this
      requires Valid()
    {
      tokens[pos..]
    }

    constructor (tokens: seq<Token>)
      ensures Valid() && Rest() == tokens
    {
      this.tokens := tokens;
      pos := 0;
    }

    method Next() returns (t: Option<Token>)
      requires Valid()
      modifies this
      ensures Valid()
      ensures old(Rest()) == [] ==> t == None && Rest() == []
      ensures old(Rest()) != [] ==> t == Some(old(Rest())[0]) && Rest() == old(Rest())[1..]
    {
      if pos < |tokens| {
        t := Some(tokens[pos]);
        pos := pos + 1;
      } else {
        t := None;
      }
    }

    method Peek() returns (t: Option<Token>)
      requires Valid()
      ensures Rest() == [] ==> t == None
      ensures Rest() != [] ==> t == Some(Rest()[0])
    {
      t := if pos < |tokens| then Some(tokens[pos]) else None;
    }
  }

  /** Looking at the next token decides whether a key has a value; this changes nothing the automaton sees. */
  lemma KeyWithoutValue(config: MultipathConfig, target: Target, block: DeviceConfig, key: string,
                        rest: seq<Token>, r: MultipathConfig)
    requires Yields(Parser(config, InBlock(target, block, 1, Some(key))), rest, r)
    requires rest != [] && rest[0].Word? ==> IsKnownKey(rest[0].text)
    ensures Yields(Parser(config, InBlock(target, block, 1, None)), rest, r)
  {
    hide IsKnownKey;
  }

  /** One token read inside a block, with no key waiting for its value. */
  lemma BlockNext(config: MultipathConfig, target: Target, block: DeviceConfig, depth: nat, rest: seq<Token>,
                  r: MultipathConfig)
    requires Yields(Parser(config, InBlock(target, block, depth, None)), rest, r)
    requires rest != [] && depth >= 1
    ensures match rest[0]
            case OpenBrace =>
              && Yields(Parser(config, InBlock(target, block, depth + 1, None)), rest[1..], r)
              && BlockEnd(rest, depth) == 1 + BlockEnd(rest[1..], depth + 1)
            case CloseBrace =>
              && Yields(if depth == 1 then Parser(Store(config, target, block), Outside(target))
                        else Parser(config, InBlock(target, block, depth - 1, None)), rest[1..], r)
              && BlockEnd(rest, depth) == 1 + BlockEnd(rest[1..], depth - 1)
              && BlockEnd(rest[1..], 0) == 0
            case Word(w) =>
              && Yields(Parser(config, InBlock(target, block, depth, if depth == 1 then Some(w) else None)),
                        rest[1..], r)
              && BlockEnd(rest, depth) == 1 + BlockEnd(rest[1..], depth)
  {
  }

  /** The word after a key, when it is no known key, becomes the key's value. */
  lemma ValueNext(config: MultipathConfig, target: Target, block: DeviceConfig, key: string, rest: seq<Token>,
                  r: MultipathConfig)
    requires Yields(Parser(config, InBlock(target, block, 1, Some(key))), rest, r)
    requires rest != [] && rest[0].Word? && !IsKnownKey(rest[0].text)
    ensures Yields(Parser(config, InBlock(target, Assign(block, key, rest[0].text), 1, None)), rest[1..], r)
    ensures BlockEnd(rest, 1) == 1 + BlockEnd(rest[1..], 1)
  {
    hide IsKnownKey, Assign;
  }

  lemma NoTokensLeft(depth: nat)
    ensures BlockEnd([], depth) == 0
  {
  }

  /**
   * Reads one block: the rest of the input means the same after the block has been
   * stored, and the iterator stands exactly behind the matching brace.
   */
  method ParseBlock(iter: TokenIterator, ghost config: MultipathConfig, ghost target: Target, ghost r: MultipathConfig)
    returns (block: DeviceConfig)
    requires iter.Valid() && Yields(Parser(config, InBlock(target, EMPTY_BLOCK, 1, None)), iter.Rest(), r)
    modifies iter
    ensures iter.Valid() && Yields(Parser(Store(config, target, block), Outside(target)), iter.Rest(), r)
    ensures iter.Rest() == old(iter.Rest())[BlockEnd(old(iter.Rest()), 1)..]
  {
    hide Yields, IsKnownKey, Store, BlockEnd, Assign;
    block := EMPTY_BLOCK;
    var depth := 1;
    ghost var used := 0;
    while true
      invariant iter.Valid() && depth >= 1
      invariant Yields(Parser(config, InBlock(target, block, depth, None)), iter.Rest(), r)
      invariant used <= |old(iter.Rest())| && iter.Rest() == old(iter.Rest())[used..]
      invariant BlockEnd(old(iter.Rest()), 1) == used + BlockEnd(iter.Rest(), depth)
      decreases |iter.Rest()|
    {
      ghost var before := iter.Rest();
      var token := iter.Next();
      if token.None? {
        UnfinishedBlock(config, target, block, depth, r);
        NoTokensLeft(depth);
        break;
      }
      BlockNext(config, target, block, depth, before, r);
      used := used + 1;
      if token.value.OpenBrace? {
        depth := depth + 1;
      } else if token.value.CloseBrace? {
        depth := depth - 1;
        if depth == 0 {
          break;
        }
      } else if depth == 1 {
        var key := token.value.text;
        var peeked := iter.Peek();
        var hasVal := peeked.Some? && peeked.value.Word? && !IsKnownKey(peeked.value.text);
        if hasVal {
          before := iter.Rest();
          var next := iter.Next();
          ValueNext(config, target, block, key, before, r);
          used := used + 1;
          block := Assign(block, key, next.value.text);
        } else {
          KeyWithoutValue(config, target, block, key, iter.Rest(), r);
        }
      }
    }
  }

  lemma UnfinishedBlock(config: MultipathConfig, target: Target, block: DeviceConfig, depth: nat, r: MultipathConfig)
    requires Yields(Parser(config, InBlock(target, block, depth, None)), [], r)
    ensures Yields(Parser(Store(config, target, block), Outside(target)), [], r)
  {
  }

  method ParseMultipathConfig(text: string) returns (config: MultipathConfig)
    ensures config == Parsed(text)
  {
    var tokens := Tokenize(text);
    config := EMPTY_CONFIG;
    var iter := new TokenIterator(tokens);
    ghost var r := ParseTokens(tokens);
    while true
      invariant iter.Valid() && Yields(Parser(config, Top), iter.Rest(), r)
      decreases |iter.Rest()|
    {
      hide Yields, Store;
      ghost var before := iter.Rest();
      var token := iter.Next();
      if token.None? {
        break;
      }
      YieldsNext(Parser(config, Top), before, r);
      if token.value.Word? {
        var head := HeadOf(token.value.text);
        config := ParseSection(iter, config, head, r);
      }
    }
  }

  /** What follows a word at the top level. */
  method ParseSection(iter: TokenIterator, config0: MultipathConfig, head: Head, ghost r: MultipathConfig)
    returns (config: MultipathConfig)
    requires iter.Valid() && Yields(Parser(config0, AfterHead(head)), iter.Rest(), r)
    modifies iter
    ensures iter.Valid() && |iter.Rest()| <= |old(iter.Rest())|
    ensures Yields(Parser(config, Top), iter.Rest(), r)
  {
    config := config0;
    ghost var before := iter.Rest();
    var open := iter.Next();
    if open.None? {
      return;
    }
    YieldsNext(Parser(config, AfterHead(head)), before, r);
    hide Yields;
    if !open.value.OpenBrace? {
      return;
    }
    match head
    case DefaultsHead =>
      var block := ParseBlock(iter, config, IntoDefaults, r);
      config := config.(defaults := block);
    case OverridesHead =>
      var block := ParseBlock(iter, config, IntoOverrides, r);
      config := config.(overrides := block);
    case DevicesHead =>
      config := ParseDevices(iter, config, r);
    case OtherHead =>
      SkipSection(iter, config, r);
  }

  method ParseDevices(iter: TokenIterator, config0: MultipathConfig, ghost r: MultipathConfig)
    returns (config: MultipathConfig)
    requires iter.Valid() && Yields(Parser(config0, InDevices), iter.Rest(), r)
    modifies iter
    ensures iter.Valid() && |iter.Rest()| <= |old(iter.Rest())|
    ensures Yields(Parser(config, Top), iter.Rest(), r)
  {
    config := config0;
    while true
      invariant iter.Valid() && |iter.Rest()| <= |old(iter.Rest())|
      invariant Yields(Parser(config, InDevices), iter.Rest(), r)
      decreases |iter.Rest()|
    {
      ghost var before := iter.Rest();
      var t := iter.Next();
      if t.None? {
        break;
      }
      YieldsNext(Parser(config, InDevices), before, r);
      hide Yields;
      if t.value == Word("device") {
        before := iter.Rest();
        var open := iter.Next();
        if open.None? {
          DeviceAtEnd(config, r);
          break;
        }
        YieldsNext(Parser(config, AfterDevice), before, r);
        if open.value.OpenBrace? {
          var block := ParseBlock(iter, config, IntoDevices, r);
          config := config.(devices := config.devices + [block]);
        }
      } else if t.value.CloseBrace? {
        break;
      }
    }
  }

  lemma DeviceAtEnd(config: MultipathConfig, r: MultipathConfig)
    requires Yields(Parser(config, AfterDevice), [], r)
    ensures Yields(Parser(config, Top), [], r)
  {
  }

  /** Blocks under an unknown name are skipped by counting braces. */
  method SkipSection(iter: TokenIterator, ghost config: MultipathConfig, ghost r: MultipathConfig)
    requires iter.Valid() && Yields(Parser(config, Skipping(1)), iter.Rest(), r)
    modifies iter
    ensures iter.Valid() && |iter.Rest()| <= |old(iter.Rest())|
    ensures Yields(Parser(config, Top), iter.Rest(), r)
  {
    var depth := 1;
    while depth > 0
      invariant iter.Valid() && |iter.Rest()| <= |old(iter.Rest())|
      invariant Yields(Parser(config, if depth > 0 then Skipping(depth) else Top), iter.Rest(), r)
      decreases |iter.Rest()|, depth
    {
      ghost var before := iter.Rest();
      var t := iter.Next();
      if t.None? {
        break;
      }
      YieldsNext(Parser(config, Skipping(depth)), before, r);
      if t.value.OpenBrace? {
        depth := depth + 1;
      } else if t.value.CloseBrace? {
        depth := depth - 1;
      }
    }
  }
}
