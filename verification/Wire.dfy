/**
 * The framing on multipathd's socket: a little-endian 64-bit length, then the text and a
 * NUL, over a stream that may deliver its bytes in pieces of any size.
 */
module Wire {
  import opened Wrappers

  newtype byte = n: int | 0 <= n < 256

  const MAX_REPLY_LEN: nat := 32 * 1024 * 1024
  const MAX_CMD_LEN: nat := 1024 * 1024

  // ---------- little-endian lengths ----------

  function ToLe(n: nat, width: nat): (bs: seq<byte>)
    ensures |bs| == width
  {
    if width == 0 then [] else [(n % 256) as byte] + ToLe(n / 256, width - 1)
  }

  function FromLe(bs: seq<byte>): nat {
    if bs == [] then 0 else bs[0] as nat + 256 * FromLe(bs[1..])
  }

  function Pow256(k: nat): nat {
    if k == 0 then 1 else 256 * Pow256(k - 1)
  }

  /** Every number that fits is recovered from its bytes, and every byte string from its number. */
  lemma {:induction false} LeBijection(n: nat, bs: seq<byte>)
    ensures n < Pow256(|bs|) ==> FromLe(ToLe(n, |bs|)) == n
    ensures FromLe(bs) < Pow256(|bs|) && ToLe(FromLe(bs), |bs|) == bs
    decreases |bs|
  {
    if bs != [] {
      LeBijection(n / 256, bs[1..]);
      NumberRecovered(n, |bs|);
      BytesRecovered(bs);
    }
  }

  lemma NumberRecovered(n: nat, width: nat)
    requires width > 0 && (n / 256 < Pow256(width - 1) ==> FromLe(ToLe(n / 256, width - 1)) == n / 256)
    ensures n < Pow256(width) ==> FromLe(ToLe(n, width)) == n
  {
    hide FromLe;
    var t := ToLe(n, width);
    assert t[0] == (n % 256) as byte && t[1..] == ToLe(n / 256, width - 1);
    FromLeFirst(t);
  }

  lemma FromLeFirst(bs: seq<byte>)
    requires bs != []
    ensures FromLe(bs) == bs[0] as nat + 256 * FromLe(bs[1..])
  {
  }

  lemma BytesRecovered(bs: seq<byte>)
    requires bs != []
    requires FromLe(bs[1..]) < Pow256(|bs| - 1) && ToLe(FromLe(bs[1..]), |bs| - 1) == bs[1..]
    ensures FromLe(bs) < Pow256(|bs|) && ToLe(FromLe(bs), |bs|) == bs
  {
    hide FromLe, ToLe;
    FromLeFirst(bs);
    LeastByte(bs[0] as nat, FromLe(bs[1..]));
    ToLeFirst(FromLe(bs), |bs|);
    assert bs == [bs[0]] + bs[1..];
  }

  lemma LeastByte(b: nat, rest: nat)
    requires b < 256
    ensures (b + 256 * rest) % 256 == b && (b + 256 * rest) / 256 == rest
  {
  }

  lemma ToLeFirst(n: nat, width: nat)
    requires width > 0
    ensures ToLe(n, width) == [(n % 256) as byte] + ToLe(n / 256, width - 1)
  {
  }

  /** The bytes come least significant first: each counts 256 times as much as the one before it. */
  lemma {:induction false} LeastSignificantFirst(bs: seq<byte>, b: byte)
    ensures FromLe(bs + [b]) == FromLe(bs) + (b as nat) * Pow256(|bs|)
  {
    var all := bs + [b];
    if bs == [] {
      assert all[1..] == [];
    } else {
      assert all[0] == bs[0] && all[1..] == bs[1..] + [b];
      LeastSignificantFirst(bs[1..], b);
      Product(b as nat, Pow256(|bs| - 1));
    }
  }

  lemma Product(b: nat, p: nat)
    ensures 256 * (b * p) == b * (256 * p)
  {
  }

  lemma U64Width()
    ensures Pow256(8) == U64_MAX + 1
  {
    assert Pow256(1) == 256;
    assert Pow256(2) == 0x1_0000;
    assert Pow256(4) == 0x1_0000_0000 by { assert Pow256(3) == 0x100_0000; }
    assert Pow256(6) == 0x1_0000_0000_0000 by { assert Pow256(5) == 0x100_0000_0000; }
    assert Pow256(7) == 0x100_0000_0000_0000;
  }

  // ---------- UTF-8 ----------

  predicate IsCont(b: byte) {
    0x80 <= b < 0xC0
  }

  /** How many bytes the well-formed sequence at the front takes; zero if there is none. */
  function CharLength(s: seq<byte>): (n: nat)
    ensures n <= |s|
  {
    if s == [] then 0
    else if s[0] < 0x80 then 1
    else if |s| >= 2 && 0xC2 <= s[0] < 0xE0 && IsCont(s[1]) then 2
    else if |s| >= 3 && 0xE0 <= s[0] < 0xF0 && IsCont(s[1]) && IsCont(s[2])
            && (s[0] == 0xE0 ==> s[1] >= 0xA0) && (s[0] == 0xED ==> s[1] < 0xA0) then 3
    else if |s| >= 4 && 0xF0 <= s[0] < 0xF5 && IsCont(s[1]) && IsCont(s[2]) && IsCont(s[3])
            && (s[0] == 0xF0 ==> s[1] >= 0x90) && (s[0] == 0xF4 ==> s[1] < 0x90) then 4
    else 0
  }

  predicate IsUtf8(s: seq<byte>) {
    s == [] || (CharLength(s) > 0 && IsUtf8(s[CharLength(s)..]))
  }

  /** The Unicode scalar values. */
  predicate IsScalar(c: nat) {
    c < 0xD800 || 0xE000 <= c <= 0x10FFFF
  }

  function Encode(c: nat): (bs: seq<byte>)
    requires IsScalar(c)
    ensures bs != []
  {
    if c < 0x80 then [c as byte]
    else if c < 0x800 then [(0xC0 + c / 64) as byte, (0x80 + c % 64) as byte]
    else if c < 0x1_0000 then
      [(0xE0 + c / 4096) as byte, (0x80 + c / 64 % 64) as byte, (0x80 + c % 64) as byte]
    else
      [(0xF0 + c / 0x4_0000) as byte, (0x80 + c / 4096 % 64) as byte, (0x80 + c / 64 % 64) as byte,
       (0x80 + c % 64) as byte]
  }

  function EncodeAll(cs: seq<nat>): seq<byte>
    requires forall c | c in cs :: IsScalar(c)
  {
    if cs == [] then [] else Encode(cs[0]) + EncodeAll(cs[1..])
  }

  /** What the well-formed sequence at the front encodes. */
  function Decode(s: seq<byte>): nat {
    var n := CharLength(s);
    if n == 0 then 0
    else if n == 1 then s[0] as nat
    else if n == 2 then (s[0] as nat - 0xC0) * 64 + (s[1] as nat - 0x80)
    else if n == 3 then (s[0] as nat - 0xE0) * 4096 + (s[1] as nat - 0x80) * 64 + (s[2] as nat - 0x80)
    else (s[0] as nat - 0xF0) * 0x4_0000 + (s[1] as nat - 0x80) * 4096 + (s[2] as nat - 0x80) * 64
         + (s[3] as nat - 0x80)
  }

  lemma Digits(a: nat, b: nat, c: nat, d: nat)
    requires b < 64 && c < 64 && d < 64
    ensures var n := ((a * 64 + b) * 64 + c) * 64 + d;
            && n == a * 0x4_0000 + b * 4096 + c * 64 + d
            && n % 64 == d && n / 64 % 64 == c && n / 4096 % 64 == b && n / 0x4_0000 == a
  {
    var n := ((a * 64 + b) * 64 + c) * 64 + d;
    assert n / 64 == (a * 64 + b) * 64 + c;
    assert n / 4096 == a * 64 + b;
  }

  lemma DecodeTwo(s: seq<byte>)
    requires CharLength(s) == 2
    ensures IsScalar(Decode(s)) && Encode(Decode(s)) == s[..2]
  {
    Digits(0, 0, s[0] as nat - 0xC0, s[1] as nat - 0x80);
  }

  lemma DecodeThree(s: seq<byte>)
    requires CharLength(s) == 3
    ensures IsScalar(Decode(s)) && Encode(Decode(s)) == s[..3]
  {
    Digits(0, s[0] as nat - 0xE0, s[1] as nat - 0x80, s[2] as nat - 0x80);
  }

  lemma DecodeFour(s: seq<byte>)
    requires CharLength(s) == 4
    ensures IsScalar(Decode(s)) && Encode(Decode(s)) == s[..4]
  {
    Digits(s[0] as nat - 0xF0, s[1] as nat - 0x80, s[2] as nat - 0x80, s[3] as nat - 0x80);
  }

  lemma DecodeEncodes(s: seq<byte>)
    requires CharLength(s) > 0
    ensures IsScalar(Decode(s)) && Encode(Decode(s)) == s[..CharLength(s)]
  {
    if CharLength(s) == 2 {
      DecodeTwo(s);
    } else if CharLength(s) == 3 {
      DecodeThree(s);
    } else if CharLength(s) == 4 {
      DecodeFour(s);
    }
  }

  lemma EncodedLength(c: nat, rest: seq<byte>)
    requires IsScalar(c)
    ensures CharLength(Encode(c) + rest) == |Encode(c)|
  {
  }

  /** Bytes are well-formed exactly when they encode some sequence of scalar values. */
  lemma {:induction false} IsUtf8Iff(s: seq<byte>)
    ensures IsUtf8(s) <==> exists cs: seq<nat> :: (forall c | c in cs :: IsScalar(c)) && EncodeAll(cs) == s
  {
    if IsUtf8(s) {
      var cs := DecodeAll(s);
    }
    if exists cs: seq<nat> :: (forall c | c in cs :: IsScalar(c)) && EncodeAll(cs) == s {
      var cs: seq<nat> :| (forall c | c in cs :: IsScalar(c)) && EncodeAll(cs) == s;
      EncodedIsUtf8(cs);
    }
  }

  lemma {:induction false} DecodeAll(s: seq<byte>) returns (cs: seq<nat>)
    requires IsUtf8(s)
    ensures (forall c | c in cs :: IsScalar(c)) && EncodeAll(cs) == s
    decreases |s|
  {
    hide CharLength, Decode, Encode, IsScalar;
    cs := [];
    if s != [] {
      DecodeEncodes(s);
      var rest := DecodeAll(s[CharLength(s)..]);
      cs := [Decode(s)] + rest;
      assert s == s[..CharLength(s)] + s[CharLength(s)..];
    }
  }

  lemma {:induction false} EncodedIsUtf8(cs: seq<nat>)
    requires forall c | c in cs :: IsScalar(c)
    ensures IsUtf8(EncodeAll(cs))
    decreases |cs|
  {
    hide CharLength, Encode, IsScalar;
    if cs != [] {
      var rest := EncodeAll(cs[1..]);
      EncodedLength(cs[0], rest);
      EncodedIsUtf8(cs[1..]);
      assert (Encode(cs[0]) + rest)[|Encode(cs[0])|..] == rest;
    }
  }

  // ---------- the stream ----------

  /** What a read meets once the delivered bytes are used up. */
  datatype Ending = Closed | WouldBlock | TimedOut | Broken

  function Flatten(chunks: seq<seq<byte>>): seq<byte> {
    if chunks == [] then [] else chunks[0] + Flatten(chunks[1..])
  }

  /** One direction of a connected socket pair: bytes arrive in chunks, and written bytes are collected. */
  class Stream {
    var chunks: seq<seq<byte>>
    const ending: Ending
    var written: seq<byte>

    /** A chunk that is delivered holds at least one byte. */
    ghost predicate Valid()
      reads this
    {
      forall c | c in chunks :: c != []
    }

    ghost function Unread(): seq<byte>
      reads this
    {
      Flatten(chunks)
    }

    constructor (chunks: seq<seq<byte>>, ending: Ending)
      requires forall c | c in chunks :: c != []
      ensures Valid() && this.chunks == chunks && this.ending == ending && written == []
    {
      this.chunks, this.ending, written := chunks, ending, [];
    }

    /** A single read returns some bytes of the next chunk, at most as many as wanted. */
    method Read(want: nat) returns (got: seq<byte>)
      requires Valid() && want > 0 && chunks != []
      modifies this`chunks
      ensures Valid() && 0 < |got| <= want && old(Unread()) == got + Unread()
    {
      var c := chunks[0];
      assert c in chunks;
      var tail := chunks[1..];
      assert forall d | d in tail :: d in chunks;
      if |c| <= want {
        got, chunks := c, tail;
      } else {
        got := c[..want];
        chunks := [c[want..]] + tail;
        assert chunks[1..] == tail;
        assert c == got + c[want..];
      }
    }

    /** Fills `buf` completely, however the bytes are chunked, or reports how the stream ended. */
    method ReadExact(buf: array<byte>) returns (r: Option<Ending>)
      requires Valid()
      modifies this`chunks, buf
      ensures Valid()
      ensures buf.Length <= |old(Unread())| ==>
                r == None && old(Unread()) == buf[..] + Unread()
      ensures buf.Length > |old(Unread())| ==> r == Some(ending)
    {
      var filled := 0;
      while filled < buf.Length
        invariant filled <= buf.Length && Valid()
        invariant old(Unread()) == buf[..filled] + Unread()
      {
        if chunks == [] {
          return Some(ending);
        }
        var got := Read(buf.Length - filled);
        ghost var before := buf[..filled];
        forall i | 0 <= i < |got| {
          buf[filled + i] := got[i];
        }
        filled := filled + |got|;
        assert buf[..filled] == before + got;
      }
      assert buf[..filled] == buf[..];
      r := None;
    }

    method WriteAll(bytes: seq<byte>)
      modifies this`written
      ensures written == old(written) + bytes
    {
      written := written + bytes;
    }
  }

  // ---------- frames ----------

  /** The length, the text, and the closing NUL, which the length includes. */
  function Frame(text: seq<byte>): seq<byte> {
    ToLe(|text| + 1, 8) + text + [0]
  }

  /** The bytes before the first NUL, or all of them. */
  function UpToNul(s: seq<byte>): (r: seq<byte>)
    ensures r <= s && 0 !in r
    ensures |r| < |s| ==> s[|r|] == 0
  {
    if s == [] || s[0] == 0 then [] else [s[0]] + UpToNul(s[1..])
  }

  lemma {:induction false} UpToNulOfText(text: seq<byte>, rest: seq<byte>)
    requires 0 !in text
    ensures UpToNul(text + [0] + rest) == text
  {
    var s := text + [0] + rest;
    if text != [] {
      assert s[0] == text[0] && s[1..] == text[1..] + [0] + rest;
      UpToNulOfText(text[1..], rest);
      assert text == [text[0]] + text[1..];
    }
  }

  datatype SendError = InteriorNul

  method SendCommand(stream: Stream, command: seq<byte>) returns (r: Option<SendError>)
    requires |command| < U64_MAX
    modifies stream`written
    ensures 0 in command ==> r == Some(InteriorNul) && stream.written == old(stream.written)
    ensures 0 !in command ==> r == None && stream.written == old(stream.written) + Frame(command)
  {
    if 0 in command {
      return Some(InteriorNul);
    }
    var cmdBytes := command + [0];
    stream.WriteAll(ToLe(|cmdBytes|, 8));
    stream.WriteAll(cmdBytes);
    assert Frame(command) == ToLe(|cmdBytes|, 8) + cmdBytes;
    r := None;
  }

  datatype Reply =
    | Text(text: seq<byte>)
    | Timeout
    | ConnectionReset
    | IoError
    | InvalidLength(n: nat)
    | InvalidUtf8

  datatype Exchange = Unsent(error: SendError) | Replied(reply: Reply)

  function ReadFailure(e: Ending): Reply {
    match e
    case Closed => ConnectionReset
    case WouldBlock => Timeout
    case TimedOut => Timeout
    case Broken => IoError
  }

  /** The text in a payload: its last byte counts as NUL whatever it is, and the first NUL ends it. */
  function PayloadText(payload: seq<byte>): seq<byte>
    requires payload != []
  {
    UpToNul(payload[..|payload| - 1])
  }

  /** What the bytes of a stream mean to the receiver, and how many of them it takes. */
  function Received(bytes: seq<byte>, ending: Ending): (Reply, nat) {
    if |bytes| < 8 then (ReadFailure(ending), |bytes|)
    else
      var n := FromLe(bytes[..8]);
      if n == 0 || n > MAX_REPLY_LEN then (InvalidLength(n), 8)
      else if |bytes| < 8 + n then (ReadFailure(ending), |bytes|)
      else
        var text := PayloadText(bytes[8..8 + n]);
        (if IsUtf8(text) then Text(text) else InvalidUtf8, 8 + n)
  }

  method ReceiveReply(stream: Stream) returns (reply: Reply)
    requires stream.Valid()
    modifies stream`chunks
    ensures stream.Valid() && reply == Received(old(stream.Unread()), stream.ending).0
    ensures reply.Text? || reply.InvalidUtf8? || reply.InvalidLength? ==>
              stream.Unread() == old(stream.Unread())[Received(old(stream.Unread()), stream.ending).1..]
  {
    ghost var all := stream.Unread();
    var lenBytes := new byte[8];
    var failed := stream.ReadExact(lenBytes);
    if failed.Some? {
      return ReadFailure(failed.value);
    }
    assert all[..8] == lenBytes[..] && all[8..] == stream.Unread();
    var replyLen := FromLe(lenBytes[..]);
    if replyLen == 0 || replyLen > MAX_REPLY_LEN {
      return InvalidLength(replyLen);
    }
    var replyBuf := new byte[replyLen];
    failed := stream.ReadExact(replyBuf);
    if failed.Some? {
      return ReadFailure(failed.value);
    }
    assert all[8..8 + replyLen] == replyBuf[..] && all[8 + replyLen..] == stream.Unread();
    var text := CutAtNul(replyBuf);
    reply := if IsUtf8(text) then Text(text) else InvalidUtf8;
  }

  /** Overwrites the last byte with NUL and keeps what precedes the first NUL. */
  method CutAtNul(buf: array<byte>) returns (text: seq<byte>)
    requires buf.Length > 0
    modifies buf
    ensures text == PayloadText(old(buf[..]))
  {
    ghost var payload := buf[..];
    buf[buf.Length - 1] := 0;
    var pos := FirstNul(buf);
    assert buf[..buf.Length - 1] == payload[..buf.Length - 1];
    UpToNulIs(payload[..buf.Length - 1], pos);
    assert buf[..pos] == payload[..buf.Length - 1][..pos];
    text := buf[..pos];
  }

  /** The position of the first NUL of a buffer that ends in one. */
  method FirstNul(buf: array<byte>) returns (pos: nat)
    requires buf.Length > 0 && buf[buf.Length - 1] == 0
    ensures pos < buf.Length && buf[pos] == 0 && 0 !in buf[..pos]
  {
    pos := 0;
    while buf[pos] != 0
      invariant pos < buf.Length && 0 !in buf[..pos]
      decreases buf.Length - pos
    {
      pos := pos + 1;
    }
  }

  lemma {:induction false} UpToNulIs(s: seq<byte>, pos: nat)
    requires pos <= |s| && 0 !in s[..pos] && (pos < |s| ==> s[pos] == 0)
    ensures UpToNul(s) == s[..pos]
  {
    if pos > 0 {
      assert s[..pos] == [s[0]] + s[1..][..pos - 1];
      UpToNulIs(s[1..], pos - 1);
    }
  }

  /** The server's reading of one command; a frame that is too long or cut short is dropped. */
  method ReadCommand(stream: Stream) returns (command: Option<seq<byte>>)
    requires stream.Valid()
    modifies stream`chunks
    ensures stream.Valid()
    ensures var all := old(stream.Unread());
            if |all| >= 8 && FromLe(all[..8]) <= 1048576 && |all| >= 8 + FromLe(all[..8])
            then && command == Some(UpToNul(all[8..8 + FromLe(all[..8])]))
                 && stream.Unread() == all[8 + FromLe(all[..8])..]
            else command == None
  {
    ghost var all := stream.Unread();
    var lenBytes := new byte[8];
    var failed := stream.ReadExact(lenBytes);
    if failed.Some? {
      return None;
    }
    assert all[..8] == lenBytes[..] && all[8..] == stream.Unread();
    var cmdLen := FromLe(lenBytes[..]);
    if cmdLen > MAX_CMD_LEN {
      return None;
    }
    var commandBuf := new byte[cmdLen];
    failed := stream.ReadExact(commandBuf);
    if failed.Some? {
      return None;
    }
    assert all[8..8 + cmdLen] == commandBuf[..] && all[8 + cmdLen..] == stream.Unread();
    command := Some(UpToNul(commandBuf[..]));
  }

  method WriteReply(stream: Stream, response: seq<byte>)
    requires |response| < U64_MAX
    modifies stream`written
    ensures stream.written == old(stream.written) + Frame(response)
  {
    var respWithNull := response + [0];
    stream.WriteAll(ToLe(|respWithNull|, 8));
    stream.WriteAll(respWithNull);
    assert Frame(response) == ToLe(|respWithNull|, 8) + respWithNull;
  }

  // ---------- when a reply fails ----------

  /** The stream ends before the length or before the announced payload is complete. */
  ghost predicate CutShort(bytes: seq<byte>) {
    || |bytes| < 8
    || (1 <= FromLe(bytes[..8]) <= 33554432 && |bytes| < 8 + FromLe(bytes[..8]))
  }

  /** Which failure is reported for what. */
  lemma FailuresIff(bytes: seq<byte>, ending: Ending)
    ensures var reply := Received(bytes, ending).0;
            && (reply == Timeout <==> CutShort(bytes) && ending in {WouldBlock, TimedOut})
            && (reply == ConnectionReset <==> CutShort(bytes) && ending == Closed)
            && (reply == IoError <==> CutShort(bytes) && ending == Broken)
            && forall n: nat :: reply == InvalidLength(n) <==>
                                  |bytes| >= 8 && n == FromLe(bytes[..8]) && (n == 0 || n > 33554432)
  {
  }

  // ---------- round trips ----------

  /** A frame with `last` in place of the closing NUL. */
  function FrameEnding(text: seq<byte>, last: byte): seq<byte> {
    ToLe(|text| + 1, 8) + text + [last]
  }

  lemma FramePartsEnding(text: seq<byte>, last: byte, rest: seq<byte>)
    requires |text| < U64_MAX
    ensures var bytes := FrameEnding(text, last) + rest;
            && |bytes| >= 8 + |text| + 1 && FromLe(bytes[..8]) == |text| + 1
            && bytes[8..8 + |text| + 1] == text + [last] && bytes[8 + |text| + 1..] == rest
  {
    U64Width();
    LeBijection(|text| + 1, ToLe(|text| + 1, 8));
    var bytes := FrameEnding(text, last) + rest;
    assert bytes[..8] == ToLe(|text| + 1, 8);
  }

  lemma FrameParts(text: seq<byte>, rest: seq<byte>)
    requires |text| < U64_MAX
    ensures var bytes := Frame(text) + rest;
            && |bytes| >= 8 + |text| + 1 && FromLe(bytes[..8]) == |text| + 1
            && bytes[8..8 + |text| + 1] == text + [0] && bytes[8 + |text| + 1..] == rest
  {
    FramePartsEnding(text, 0, rest);
  }

  /** The last byte of a payload counts as NUL, whatever it is. */
  lemma {:induction false} LastByteIgnored(text: seq<byte>, last: byte, rest: seq<byte>, ending: Ending)
    requires |text| < U64_MAX
    ensures Received(FrameEnding(text, last) + rest, ending) == Received(Frame(text) + rest, ending)
  {
    FramePartsEnding(text, last, rest);
    FrameParts(text, rest);
    hide FromLe, IsUtf8, UpToNul, Frame, FrameEnding;
    assert (text + [last])[..|text|] == text && (text + [0])[..|text|] == text;
  }

  /**
   * A framed reply comes back as the message sent, with the rest of the stream untouched,
   * exactly when the message has no NUL, is UTF-8, and fits the limit with its NUL.
   */
  lemma {:induction false} ReplyRoundTrip(text: seq<byte>, rest: seq<byte>, ending: Ending)
    requires |text| < U64_MAX
    ensures Received(Frame(text) + rest, ending) == (Text(text), |Frame(text)|) <==>
            0 !in text && IsUtf8(text) && |text| + 1 <= MAX_REPLY_LEN
    ensures (Frame(text) + rest)[|Frame(text)|..] == rest
  {
    FrameParts(text, rest);
    var bytes := Frame(text) + rest;
    assert (text + [0])[..|text|] == text;
    if 0 !in text {
      UpToNulIs(text, |text|);
      assert text[..|text|] == text;
    }
  }

  /** Every sequence of scalar values other than NUL that fits comes back as it was sent. */
  lemma {:induction false} TextRoundTrip(cs: seq<nat>, rest: seq<byte>, ending: Ending)
    requires forall c | c in cs :: IsScalar(c) && c != 0
    requires |EncodeAll(cs)| < 33554432
    ensures Received(Frame(EncodeAll(cs)) + rest, ending) == (Text(EncodeAll(cs)), |Frame(EncodeAll(cs))|)
  {
    EncodedIsUtf8(cs);
    NoNulEncoded(cs);
    ReplyRoundTrip(EncodeAll(cs), rest, ending);
  }

  lemma {:induction false} NoNulEncoded(cs: seq<nat>)
    requires forall c | c in cs :: IsScalar(c) && c != 0
    ensures 0 !in EncodeAll(cs)
    decreases |cs|
  {
    if cs != [] {
      NoNulEncoded(cs[1..]);
      NoNulInCode(cs[0]);
    }
  }

  lemma NoNulInCode(c: nat)
    requires IsScalar(c) && c != 0
    ensures 0 !in Encode(c)
  {
  }

  /** The server reads back every command the client can send and that fits its limit. */
  lemma CommandRoundTrip(command: seq<byte>, rest: seq<byte>)
    requires 0 !in command && |command| + 1 <= 1048576
    ensures var all := Frame(command) + rest;
            && |all| >= 8 + FromLe(all[..8]) && FromLe(all[..8]) <= 1048576
            && UpToNul(all[8..8 + FromLe(all[..8])]) == command && all[8 + FromLe(all[..8])..] == rest
  {
    FrameParts(command, rest);
    UpToNulOfText(command, []);
    assert command + [0] + [] == command + [0];
  }

  /** A command and its reply over one connection; an unsendable command reads nothing. */
  method SendCommandOnStream(stream: Stream, command: seq<byte>) returns (r: Exchange)
    requires stream.Valid() && |command| < U64_MAX
    modifies stream
    ensures stream.Valid()
    ensures 0 in command ==>
              r.Unsent? && stream.written == old(stream.written) && stream.Unread() == old(stream.Unread())
    ensures 0 !in command ==>
              && stream.written == old(stream.written) + Frame(command)
              && r == Replied(Received(old(stream.Unread()), stream.ending).0)
  {
    var failed := SendCommand(stream, command);
    if failed.Some? {
      return Unsent(failed.value);
    }
    var reply := ReceiveReply(stream);
    r := Replied(reply);
  }
}
