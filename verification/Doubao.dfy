/**
 The Doubao binary frame codec. Bytes are 8-bit vectors; 32-bit fields are big-endian and are
 computed on integers with the truncation of the source written out. None stands for the
 short-frame error, the only error the parser returns.
 */
module Doubao {
  import opened Common

  type byte = bv8
  const TWO31 := 0x8000_0000
  const TWO32 := 0x1_0000_0000
  type int32 = x: int | -TWO31 <= x < TWO31

  const VERSION_AND_HEADER_SIZE: byte := 0x11
  const MSG_ERROR: byte := 15
  const FLAG_SEQUENCE: byte := 3 // positive or negative sequence
  const FLAG_WITH_EVENT: byte := 4

  datatype Frame = Frame(msgType: byte, flags: byte, serial: byte, compress: byte, event: int32,
                         sessionID: seq<byte>, errorCode: nat, payload: seq<byte>)

  /** The arguments of the builder. */
  datatype Request = Request(msgType: byte, serial: byte, compress: byte, event: int32,
                             sessionID: seq<byte>, payload: seq<byte>)

  predicate IsConnectionEvent(event: int) {
    event in {1, 2, 50, 51, 52}
  }

  function Value(d3: int, d2: int, d1: int, d0: int): int {
    d3 * 0x100_0000 + d2 * 0x1_0000 + d1 * 0x100 + d0
  }

  // Bytes and the integers 0 to 255, bit by bit.

  datatype Bits = Bits(b0: bool, b1: bool, b2: bool, b3: bool, b4: bool, b5: bool, b6: bool, b7: bool)

  /** The number with lowest bit c and the rest m. */
  function Binary(c: bool, m: nat): nat { (if c then 1 else 0) + 2 * m }

  function Number(x: Bits): (n: nat)
    ensures n < 256
  {
    Binary(x.b0, Binary(x.b1, Binary(x.b2, Binary(x.b3, Binary(x.b4, Binary(x.b5, Binary(x.b6, Binary(x.b7, 0))))))))
  }

  function Half(n: nat): nat { n / 2 }

  predicate Odd(n: nat) { n % 2 == 1 }

  function BitsOf(n: nat): Bits {
    var n1 := Half(n);
    var n2 := Half(n1);
    var n3 := Half(n2);
    var n4 := Half(n3);
    var n5 := Half(n4);
    var n6 := Half(n5);
    var n7 := Half(n6);
    Bits(Odd(n), Odd(n1), Odd(n2), Odd(n3), Odd(n4), Odd(n5), Odd(n6), Odd(n7))
  }

  function If(c: bool, mask: byte): byte { if c then mask else 0 }

  function Pack(x: Bits): byte {
    If(x.b0, 1) | If(x.b1, 2) | If(x.b2, 4) | If(x.b3, 8) | If(x.b4, 16) | If(x.b5, 32) | If(x.b6, 64) | If(x.b7, 128)
  }

  function Unpack(b: byte): Bits {
    Bits(b & 1 != 0, b & 2 != 0, b & 4 != 0, b & 8 != 0, b & 16 != 0, b & 32 != 0, b & 64 != 0, b & 128 != 0)
  }

  function ToInt(b: byte): (n: nat)
    ensures n < 256
  {
    Number(Unpack(b))
  }

  function ToByte(n: int): byte
    requires 0 <= n < 256
  {
    Pack(BitsOf(n))
  }

  lemma UnpackPack(x: Bits)
    ensures Unpack(Pack(x)) == x
  {
  }

  lemma PackUnpack(b: byte)
    ensures Pack(Unpack(b)) == b
  {
  }

  lemma Halving(n: nat, k: nat)
    requires n < 2 * k
    ensures Binary(Odd(n), Half(n)) == n && Half(n) < k
  {
  }

  lemma NumberOfBits(n: nat)
    requires n < 256
    ensures Number(BitsOf(n)) == n
  {
    hide Binary, Half, Odd;
    var n1 := Half(n);
    var n2 := Half(n1);
    var n3 := Half(n2);
    var n4 := Half(n3);
    var n5 := Half(n4);
    var n6 := Half(n5);
    var n7 := Half(n6);
    Halving(n, 128);
    Halving(n1, 64);
    Halving(n2, 32);
    Halving(n3, 16);
    Halving(n4, 8);
    Halving(n5, 4);
    Halving(n6, 2);
    Halving(n7, 1);
  }

  lemma BitsOfNumber(x: Bits)
    ensures BitsOf(Number(x)) == x
  {
    hide Binary, BitsOf;
    NumberOfBits(Number(x));
    SameNumber(x, BitsOf(Number(x)));
  }

  lemma SameBinary(c: bool, m: nat, d: bool, n: nat)
    ensures Binary(c, m) == Binary(d, n) ==> c == d && m == n
  {
  }

  lemma SameNumber(x: Bits, y: Bits)
    requires Number(x) == Number(y)
    ensures x == y
  {
    hide Binary;
    var x7, y7 := Binary(x.b7, 0), Binary(y.b7, 0);
    var x6, y6 := Binary(x.b6, x7), Binary(y.b6, y7);
    var x5, y5 := Binary(x.b5, x6), Binary(y.b5, y6);
    var x4, y4 := Binary(x.b4, x5), Binary(y.b4, y5);
    var x3, y3 := Binary(x.b3, x4), Binary(y.b3, y4);
    var x2, y2 := Binary(x.b2, x3), Binary(y.b2, y3);
    var x1, y1 := Binary(x.b1, x2), Binary(y.b1, y2);
    SameBinary(x.b0, x1, y.b0, y1);
    SameBinary(x.b1, x2, y.b1, y2);
    SameBinary(x.b2, x3, y.b2, y3);
    SameBinary(x.b3, x4, y.b3, y4);
    SameBinary(x.b4, x5, y.b4, y5);
    SameBinary(x.b5, x6, y.b5, y6);
    SameBinary(x.b6, x7, y.b6, y7);
    SameBinary(x.b7, 0, y.b7, 0);
  }

  function Put32(v: int): (r: seq<byte>)
    ensures |r| == 4
  {
    var v1 := v / 256;
    var v2 := v1 / 256;
    var v3 := v2 / 256;
    [ToByte(v3 % 256), ToByte(v2 % 256), ToByte(v1 % 256), ToByte(v % 256)]
  }

  function Get32(s: seq<byte>): (v: nat)
    requires |s| == 4
    ensures v < TWO32
  {
    Value(ToInt(s[0]), ToInt(s[1]), ToInt(s[2]), ToInt(s[3]))
  }

  function ToInt32(u: nat): int32
    requires u < TWO32
  {
    if u < TWO31 then u else u - TWO32
  }

  lemma ByteOfInt(n: int)
    requires 0 <= n < 256
    ensures ToInt(ToByte(n)) == n
  {
    NumberOfBits(n);
    UnpackPack(BitsOf(n));
  }

  lemma Digits(v: int, v1: int, v2: int, v3: int)
    requires v1 == v / 256 && v2 == v1 / 256 && v3 == v2 / 256
    ensures Value(v3 % 256, v2 % 256, v1 % 256, v % 256) == v % TWO32
  {
    var d0, d1, d2, d3, q := v % 256, v1 % 256, v2 % 256, v3 % 256, v3 / 256;
    assert v == 256 * v1 + d0 && v1 == 256 * v2 + d1 && v2 == 256 * v3 + d2 && v3 == 256 * q + d3;
    Remainder(v, q, Value(d3, d2, d1, d0));
  }

  lemma Remainder(v: int, q: int, r: int)
    requires v == q * TWO32 + r && 0 <= r < TWO32
    ensures v % TWO32 == r
  {
  }

  lemma GetPut32(v: int)
    ensures Get32(Put32(v)) == v % TWO32
  {
    var v1 := v / 256;
    var v2 := v1 / 256;
    var v3 := v2 / 256;
    hide ToByte, ToInt;
    ByteOfInt(v3 % 256);
    ByteOfInt(v2 % 256);
    ByteOfInt(v1 % 256);
    ByteOfInt(v % 256);
    Digits(v, v1, v2, v3);
  }

  lemma DigitsOfValue(d3: nat, d2: nat, d1: nat, d0: nat)
    requires d3 < 256 && d2 < 256 && d1 < 256 && d0 < 256
    ensures var v := Value(d3, d2, d1, d0);
            v % 256 == d0 && v / 256 % 256 == d1 && v / 256 / 256 % 256 == d2 && v / 256 / 256 / 256 % 256 == d3
  {
    var v := Value(d3, d2, d1, d0);
    assert v / 256 == d3 * 0x1_0000 + d2 * 0x100 + d1;
    assert v / 256 / 256 == d3 * 0x100 + d2;
    assert v / 256 / 256 / 256 == d3;
  }

  lemma PutGet32(s: seq<byte>)
    requires |s| == 4
    ensures Put32(Get32(s)) == s
  {
    hide Value, ToByte, ToInt;
    DigitsOfValue(ToInt(s[0]), ToInt(s[1]), ToInt(s[2]), ToInt(s[3]));
    IntOfByte(s[0]);
    IntOfByte(s[1]);
    IntOfByte(s[2]);
    IntOfByte(s[3]);
  }

  lemma IntOfByte(b: byte)
    ensures ToByte(ToInt(b)) == b
  {
    BitsOfNumber(Unpack(b));
    PackUnpack(b);
  }

  // Nibbles and flag bits.

  function High(b: byte): byte { b >> 4 }

  function Low(b: byte): byte { b & 0x0f }

  function Join(high: byte, low: byte): byte { (high << 4) | low }

  predicate Has(flags: byte, mask: byte) { flags & mask != 0 }

  /** Bytes of header that the first byte announces. */
  function HeaderUnits(b: byte): nat { ToInt(b & 0x0f) * 4 }

  // ---- Builder ----

  function HeaderBytes(q: Request): (r: seq<byte>)
    ensures |r| == 4
  {
    [VERSION_AND_HEADER_SIZE, Join(q.msgType, FLAG_WITH_EVENT), Join(q.serial, q.compress), 0]
  }

  function SessionBytes(q: Request): seq<byte> {
    if !IsConnectionEvent(q.event) && q.sessionID != [] then Put32(|q.sessionID|) + q.sessionID else []
  }

  function Build(q: Request): seq<byte> {
    HeaderBytes(q) + Put32(q.event) + SessionBytes(q) + Put32(|q.payload|) + q.payload
  }

  method BuildFrame(msgType: byte, serial: byte, compress: byte, event: int32,
                    sessionID: seq<byte>, payload: seq<byte>) returns (out: seq<byte>)
    ensures out == Build(Request(msgType, serial, compress, event, sessionID, payload))
  {
    hide Put32, Get32, ToInt, ToByte, High, Low, Join, Has, HeaderUnits;
    out := [VERSION_AND_HEADER_SIZE, Join(msgType, FLAG_WITH_EVENT), Join(serial, compress), 0x00];
    out := out + Put32(event);
    if !IsConnectionEvent(event) && sessionID != [] {
      out := out + Put32(|sessionID|);
      out := out + sessionID;
    }
    out := out + Put32(|payload|);
    out := out + payload;
  }

  // ---- Parser ----

  function Read32(raw: seq<byte>, off: nat): Option<nat> {
    if off + 4 > |raw| then None else Some(Get32(raw[off..off + 4]))
  }

  datatype EventPart = EventPart(event: int32, sessionID: seq<byte>, off: nat)

  function ReadEvent(raw: seq<byte>, off: nat, flags: byte): (r: Option<EventPart>)
    ensures r.Some? ==> off <= r.value.off
  {
    if !Has(flags, FLAG_WITH_EVENT) then Some(EventPart(0, [], off))
    else
      var u :- Read32(raw, off);
      assert u < TWO32;
      var ev := ToInt32(u);
      if IsConnectionEvent(ev) then Some(EventPart(ev, [], off + 4))
      else
        var sl :- Read32(raw, off + 4);
        if off + 8 + sl > |raw| then None
        else Some(EventPart(ev, raw[off + 8..off + 8 + sl], off + 8 + sl))
  }

  /** A 32-bit field that is only present when need holds. */
  function ReadOptional32(raw: seq<byte>, off: nat, need: bool): Option<(nat, nat)> {
    if !need then Some((0, off))
    else
      var v :- Read32(raw, off);
      Some((v, off + 4))
  }

  /** A parsed frame and the offset where it ends. */
  datatype Parsed = Parsed(frame: Frame, end: nat)

  function ParseAt(raw: seq<byte>): (r: Option<Parsed>)
    ensures r.Some? ==> 4 <= |raw| && r.value.end <= |raw| && |r.value.frame.payload| < TWO32
  {
    if |raw| < 4 then None
    else
      var msgType, flags := High(raw[1]), Low(raw[1]);
      var e :- ReadEvent(raw, HeaderUnits(raw[0]), flags);
      var sequence :- ReadOptional32(raw, e.off, Has(flags, FLAG_SEQUENCE));
      var error :- ReadOptional32(raw, sequence.1, msgType == MSG_ERROR);
      var size :- Read32(raw, error.1);
      var start := error.1 + 4;
      if start + size > |raw| then None
      else
        Some(Parsed(Frame(msgType, flags, High(raw[2]), Low(raw[2]), e.event, e.sessionID, error.0,
                          raw[start..start + size]), start + size))
  }

  function Parse(raw: seq<byte>): Option<Frame> {
    var p :- ParseAt(raw);
    Some(p.frame)
  }

  /** The block of the parser under the event flag. */
  method ParseEvent(raw: seq<byte>, start: nat, flags: byte) returns (r: Option<EventPart>)
    requires Has(flags, FLAG_WITH_EVENT)
    ensures r == ReadEvent(raw, start, flags)
  {
    hide Put32, Get32, ToInt, ToByte, High, Low, Join, Has, HeaderUnits;
    var off := start;
    var ev := Read32(raw, off);
    if ev == None {
      return None;
    }
    assert ev.value < TWO32;
    off := off + 4;
    var event := ToInt32(ev.value);
    var sessionID := [];
    if !IsConnectionEvent(event) {
      var sl := Read32(raw, off);
      if sl == None {
        return None;
      }
      off := off + 4;
      if sl.value > 0 {
        if off + sl.value > |raw| {
          return None;
        }
        sessionID := raw[off..off + sl.value];
        off := off + sl.value;
      }
      assert sessionID == raw[start + 8..start + 8 + sl.value];
    }
    r := Some(EventPart(event, sessionID, off));
  }

  lemma WithoutEvent(raw: seq<byte>, off: nat, flags: byte)
    ensures !Has(flags, FLAG_WITH_EVENT) ==> ReadEvent(raw, off, flags) == Some(EventPart(0, [], off))
  {
    hide Has, Get32;
  }

  /** The parser as the source runs it: a cursor that moves over the buffer. */
  method ParseFrame(raw: seq<byte>) returns (r: Option<Frame>)
    ensures r == Parse(raw)
  {
    hide Put32, Get32, ToInt, ToByte, High, Low, Join, Has, HeaderUnits, ReadEvent;
    if |raw| < 4 {
      return None;
    }
    var msgType, flags := High(raw[1]), Low(raw[1]);
    var event: int32, sessionID, errorCode := 0, [], 0;
    var off := HeaderUnits(raw[0]);
    WithoutEvent(raw, off, flags);
    if Has(flags, FLAG_WITH_EVENT) {
      var part := ParseEvent(raw, off, flags);
      if part == None {
        return None;
      }
      event, sessionID, off := part.value.event, part.value.sessionID, part.value.off;
    }
    if Has(flags, FLAG_SEQUENCE) {
      if Read32(raw, off) == None {
        return None;
      }
      off := off + 4;
    }
    if msgType == MSG_ERROR {
      var ec := Read32(raw, off);
      if ec == None {
        return None;
      }
      errorCode := ec.value;
      off := off + 4;
    }
    var size := Read32(raw, off);
    if size == None {
      return None;
    }
    off := off + 4;
    if off + size.value > |raw| {
      return None;
    }
    r := Some(Frame(msgType, flags, High(raw[2]), Low(raw[2]), event, sessionID, errorCode,
                    raw[off..off + size.value]));
  }

  // ---- The parser on arbitrary bytes ----

  /** What a successful parse looks at: the fixed header and everything up to its end. */
  function Needed(p: Parsed): nat { if p.end < 4 then 4 else p.end }

  lemma SameSlice(raw: seq<byte>, other: seq<byte>, n: nat, i: nat, j: nat)
    requires n <= |raw| && raw[..n] <= other && i <= j <= n
    ensures raw[i..j] == other[i..j]
  {
    assert raw[i..j] == raw[..n][i..j] && other[i..j] == other[..n][i..j];
  }

  lemma SameRead32(raw: seq<byte>, other: seq<byte>, n: nat, off: nat)
    requires n <= |raw| && raw[..n] <= other && off + 4 <= n
    ensures Read32(raw, off) == Read32(other, off)
  {
    hide Get32;
    SameSlice(raw, other, n, off, off + 4);
  }

  lemma SameReadEvent(raw: seq<byte>, other: seq<byte>, n: nat, off: nat, flags: byte)
    requires n <= |raw| && raw[..n] <= other
    requires ReadEvent(raw, off, flags).Some? && (ReadEvent(raw, off, flags).value.off <= n)
    ensures ReadEvent(raw, off, flags) == ReadEvent(other, off, flags)
  {
    hide Get32, Has;
    if Has(flags, FLAG_WITH_EVENT) {
      SameRead32(raw, other, n, off);
      var e := ReadEvent(raw, off, flags).value;
      if !IsConnectionEvent(e.event) {
        SameRead32(raw, other, n, off + 4);
        SameSlice(raw, other, n, off + 8, e.off);
      }
    }
  }

  /** For every accepted input: any input that starts with the needed bytes parses to the same
      frame, whatever follows them. */
  lemma ParseIsLocal(raw: seq<byte>, other: seq<byte>)
    requires ParseAt(raw).Some? && raw[..Needed(ParseAt(raw).value)] <= other
    ensures ParseAt(other) == ParseAt(raw)
  {
    hide Put32, Get32, ToInt, ToByte, High, Low, Join, Has, HeaderUnits;
    var n := Needed(ParseAt(raw).value);
    SameSlice(raw, other, n, 0, 4);
    assert forall i :: 0 <= i < 4 ==> raw[i] == raw[0..4][i] && other[i] == other[0..4][i];
    var msgType, flags := High(raw[1]), Low(raw[1]);
    var e := ReadEvent(raw, HeaderUnits(raw[0]), flags).value;
    SameReadEvent(raw, other, n, HeaderUnits(raw[0]), flags);
    if Has(flags, FLAG_SEQUENCE) { SameRead32(raw, other, n, e.off); }
    var off := ReadOptional32(raw, e.off, Has(flags, FLAG_SEQUENCE)).value.1;
    if msgType == MSG_ERROR { SameRead32(raw, other, n, off); }
    var last := ReadOptional32(raw, off, msgType == MSG_ERROR).value.1;
    SameRead32(raw, other, n, last);
    SameSlice(raw, other, n, last + 4, ParseAt(raw).value.end);
  }

  /** For every accepted input: every prefix that misses a needed byte is rejected as short. */
  lemma ShorterIsShort(raw: seq<byte>, n: nat)
    requires ParseAt(raw).Some? && n < Needed(ParseAt(raw).value)
    ensures ParseAt(raw[..n]) == None
  {
    if ParseAt(raw[..n]).Some? {
      assert raw[..n][..Needed(ParseAt(raw[..n]).value)] <= raw;
      ParseIsLocal(raw[..n], raw);
    }
  }

  // ---- Round trips ----

  function FrameOf(q: Request): Frame {
    Frame(q.msgType, FLAG_WITH_EVENT, q.serial, q.compress, q.event, q.sessionID, 0, q.payload)
  }

  /** The requests the wire format can carry. */
  predicate Encodable(q: Request) {
    && q.msgType < 15 && q.serial < 16 && q.compress < 16
    && (q.sessionID == [] <==> IsConnectionEvent(q.event))
    && |q.sessionID| < TWO32 && |q.payload| < TWO32
  }

  lemma HeaderNibbles(q: Request)
    ensures HeaderUnits(VERSION_AND_HEADER_SIZE) == 4
    ensures Low(Join(q.msgType, FLAG_WITH_EVENT)) == FLAG_WITH_EVENT
    ensures q.msgType < 16 <==> High(Join(q.msgType, FLAG_WITH_EVENT)) == q.msgType
    ensures q.serial < 16 && q.compress < 16 <==>
            High(Join(q.serial, q.compress)) == q.serial && Low(Join(q.serial, q.compress)) == q.compress
    ensures Has(FLAG_WITH_EVENT, FLAG_WITH_EVENT) && !Has(FLAG_WITH_EVENT, FLAG_SEQUENCE)
  {
  }

  lemma BuildPieces(q: Request, rest: seq<byte>)
    ensures var raw := Build(q) + rest;
            var k := 8 + |SessionBytes(q)|;
            && |raw| == k + 4 + |q.payload| + |rest|
            && raw[..4] == HeaderBytes(q)
            && raw[4..8] == Put32(q.event)
            && raw[8..k] == SessionBytes(q)
            && raw[k..k + 4] == Put32(|q.payload|)
            && raw[k + 4..] == q.payload + rest
            && raw[k + 4..k + 4 + |q.payload|] == q.payload
  {
    hide Put32, Get32, ToInt, ToByte, High, Low, Join, Has, HeaderUnits;
  }

  lemma EventRoundTrip(event: int32)
    ensures ToInt32(event % TWO32) == event
  {
  }

  /** Every encodable request comes back unchanged, whatever bytes follow the frame, and the
      parser stops exactly at the frame's end. */
  lemma ParseBuild(q: Request, rest: seq<byte>)
    requires Encodable(q)
    ensures ParseAt(Build(q) + rest) == Some(Parsed(FrameOf(q), |Build(q)|))
  {
    hide Put32, Get32, ToInt, ToByte, High, Low, Join, Has, HeaderUnits;
    var raw := Build(q) + rest;
    BuildPieces(q, rest);
    HeaderNibbles(q);
    assert forall i :: 0 <= i < 4 ==> raw[i] == raw[..4][i];
    GetPut32(q.event);
    EventRoundTrip(q.event);
    GetPut32(|q.payload|);
    if !IsConnectionEvent(q.event) {
      var k := 8 + |SessionBytes(q)|;
      GetPut32(|q.sessionID|);
      assert raw[8..12] == raw[8..k][..4];
      assert raw[12..k] == raw[8..k][4..];
      assert ReadEvent(raw, 4, FLAG_WITH_EVENT) == Some(EventPart(q.event, q.sessionID, k));
    } else {
      assert ReadEvent(raw, 4, FLAG_WITH_EVENT) == Some(EventPart(q.event, [], 8));
    }
  }

  /** Exactly the encodable requests survive a round trip. */
  lemma RoundTripExactly(q: Request)
    ensures Parse(Build(q)) == Some(FrameOf(q)) <==> Encodable(q)
  {
    hide Put32, Get32, ToInt, ToByte, High, Low, Join, Has, HeaderUnits;
    assert Build(q) + [] == Build(q);
    if Encodable(q) {
      ParseBuild(q, []);
    } else if Parse(Build(q)) == Some(FrameOf(q)) {
      var raw := Build(q);
      BuildPieces(q, []);
      HeaderNibbles(q);
      assert forall i :: 0 <= i < 4 ==> raw[i] == raw[..4][i];
      GetPut32(q.event);
      EventRoundTrip(q.event);
      GetPut32(|q.payload|);
    }
  }

  /** Every strict prefix of a built frame is rejected as short. */
  lemma PrefixIsShort(q: Request, n: nat)
    requires Encodable(q) && n < |Build(q)|
    ensures Parse(Build(q)[..n]) == None
  {
    hide Put32, Get32, ToInt, ToByte, High, Low, Join, Has, HeaderUnits;
    assert Build(q) + [] == Build(q);
    ParseBuild(q, []);
    BuildPieces(q, []);
    ShorterIsShort(Build(q), n);
  }

  function RequestOf(f: Frame): Request {
    Request(f.msgType, f.serial, f.compress, f.event, f.sessionID, f.payload)
  }

  /** The builder's own header byte, reserved byte and flags, and an encodable shape. */
  predicate Canonical(raw: seq<byte>, f: Frame)
    requires |raw| >= 4
  {
    raw[0] == VERSION_AND_HEADER_SIZE && raw[3] == 0 && f.flags == FLAG_WITH_EVENT && Encodable(RequestOf(f))
  }

  /** The other direction: exactly the canonical ones among the accepted buffers are a built
      frame followed by trailing bytes. */
  lemma BuildParseExactly(raw: seq<byte>)
    requires ParseAt(raw).Some?
    ensures var p := ParseAt(raw).value;
            raw[..p.end] == Build(RequestOf(p.frame)) <==> Canonical(raw, p.frame)
  {
    hide Put32, Get32, ToInt, ToByte, High, Low, Join, Has, HeaderUnits;
    var p := ParseAt(raw).value;
    var q := RequestOf(p.frame);
    if Canonical(raw, p.frame) {
      BuildParse(raw);
    } else if raw[..p.end] == Build(q) {
      BuildPieces(q, []);
      assert Build(q) + [] == Build(q);
      assert forall i :: 0 <= i < 4 ==> raw[i] == raw[..p.end][i] == Build(q)[..4][i];
      HeaderNibbles(q);
    }
  }

  lemma BuildParse(raw: seq<byte>)
    requires ParseAt(raw).Some? && Canonical(raw, ParseAt(raw).value.frame)
    ensures var p := ParseAt(raw).value; raw[..p.end] == Build(RequestOf(p.frame))
  {
    hide Put32, Get32, ToInt, ToByte, High, Low, Join, Has, HeaderUnits;
    var p := ParseAt(raw).value;
    var q := RequestOf(p.frame);
    NibblesJoin(raw[1]);
    NibblesJoin(raw[2]);
    HeaderNibbles(q);
    var e := ReadEvent(raw, 4, FLAG_WITH_EVENT).value;
    var k := e.off;
    EventPartBytes(raw);
    PutGet32(raw[k..k + 4]);
    assert raw[..4] == HeaderBytes(q);
    Pieces(raw, k, p.end);
  }

  lemma Pieces(raw: seq<byte>, k: nat, end: nat)
    requires 8 <= k && k + 4 <= end <= |raw|
    ensures raw[..end] == raw[..4] + raw[4..8] + raw[8..k] + raw[k..k + 4] + raw[k + 4..end]
  {
  }

  lemma EventPartBytes(raw: seq<byte>)
    requires ReadEvent(raw, 4, FLAG_WITH_EVENT).Some?
    ensures var e := ReadEvent(raw, 4, FLAG_WITH_EVENT).value;
            && 8 <= e.off <= |raw|
            && raw[4..8] == Put32(e.event)
            && (if IsConnectionEvent(e.event) then e.off == 8 && e.sessionID == []
                else |e.sessionID| < TWO32 && raw[8..e.off] == Put32(|e.sessionID|) + e.sessionID)
  {
    hide Put32, Get32, ToInt, ToByte, High, Low, Join, Has, HeaderUnits;
    var e := ReadEvent(raw, 4, FLAG_WITH_EVENT).value;
    assert Has(FLAG_WITH_EVENT, FLAG_WITH_EVENT) by {
      HeaderNibbles(Request(0, 0, 0, 0, [], []));
    }
    PutGet32(raw[4..8]);
    EventBytes(Get32(raw[4..8]));
    if !IsConnectionEvent(e.event) {
      PutGet32(raw[8..12]);
      assert raw[8..e.off] == raw[8..12] + raw[12..e.off];
    }
  }

  lemma NibblesJoin(b: byte)
    ensures Join(High(b), Low(b)) == b
  {
  }

  lemma EventBytes(u: nat)
    requires u < TWO32
    ensures Put32(ToInt32(u)) == Put32(u)
  {
    hide Put32;
    SameDigits(u, 1);
  }

  /** Subtracting a multiple of 2^32 does not change the four low bytes. */
  lemma SameDigits(u: int, k: int)
    ensures Put32(u - k * TWO32) == Put32(u)
  {
    hide ToByte;
    var v := u - k * TWO32;
    assert v / 256 == u / 256 - k * 0x100_0000;
    assert v / 256 / 256 == u / 256 / 256 - k * 0x1_0000;
    assert v / 256 / 256 / 256 == u / 256 / 256 / 256 - k * 0x100;
    assert v % 256 == u % 256 && v / 256 % 256 == u / 256 % 256;
    assert v / 256 / 256 % 256 == u / 256 / 256 % 256;
    assert v / 256 / 256 / 256 % 256 == u / 256 / 256 / 256 % 256;
  }

  // ---- Frames of the server ----

  /** A frame as the format describes it: a header of any announced size, then the fields its flags
      and type ask for. */
  datatype Wire = Wire(first: byte, reserved: byte, extension: seq<byte>, frame: Frame, sequence: int)

  function EventField(f: Frame): seq<byte> {
    if !Has(f.flags, FLAG_WITH_EVENT) then []
    else Put32(f.event) + if IsConnectionEvent(f.event) then [] else Put32(|f.sessionID|) + f.sessionID
  }

  function Optional32(v: int, need: bool): seq<byte> {
    if need then Put32(v) else []
  }

  function WireHeader(w: Wire): seq<byte> {
    [w.first, Join(w.frame.msgType, w.frame.flags), Join(w.frame.serial, w.frame.compress), w.reserved] + w.extension
  }

  function WireBytes(w: Wire): seq<byte> {
    WireHeader(w) + EventField(w.frame) + Optional32(w.sequence, Has(w.frame.flags, FLAG_SEQUENCE))
    + Optional32(w.frame.errorCode, w.frame.msgType == MSG_ERROR) + Put32(|w.frame.payload|) + w.frame.payload
  }

  ghost predicate Sendable(w: Wire) {
    var f := w.frame;
    && 4 + |w.extension| == HeaderUnits(w.first)
    && f.msgType < 16 && f.flags < 16 && f.serial < 16 && f.compress < 16
    && |f.sessionID| < TWO32 && |f.payload| < TWO32 && f.errorCode < TWO32
    && (!Has(f.flags, FLAG_WITH_EVENT) ==> f.event == 0)
    && (!Has(f.flags, FLAG_WITH_EVENT) || IsConnectionEvent(f.event) ==> f.sessionID == [])
    && (f.msgType != MSG_ERROR ==> f.errorCode == 0)
  }

  lemma ReadPut(pre: seq<byte>, v: int, post: seq<byte>)
    ensures Read32(pre + Put32(v) + post, |pre|) == Some(v % TWO32)
  {
    hide Put32, Get32;
    assert (pre + Put32(v) + post)[|pre|..|pre| + 4] == Put32(v);
    GetPut32(v);
  }

  lemma ReadOptionalPut(pre: seq<byte>, v: int, need: bool, post: seq<byte>)
    ensures var field := Optional32(v, need);
            ReadOptional32(pre + field + post, |pre|, need) ==
            Some((if need then v % TWO32 else 0, |pre| + |field|))
  {
    hide Put32, Get32, Read32;
    if need { ReadPut(pre, v, post); }
  }

  lemma ReadEventField(pre: seq<byte>, f: Frame, post: seq<byte>)
    requires !Has(f.flags, FLAG_WITH_EVENT) ==> f.event == 0
    requires !Has(f.flags, FLAG_WITH_EVENT) || IsConnectionEvent(f.event) ==> f.sessionID == []
    requires |f.sessionID| < TWO32
    ensures ReadEvent(pre + EventField(f) + post, |pre|, f.flags) ==
            Some(EventPart(f.event, f.sessionID, |pre| + |EventField(f)|))
  {
    hide Put32, Get32, Has, Read32;
    if Has(f.flags, FLAG_WITH_EVENT) {
      var raw := pre + EventField(f) + post;
      var tail := if IsConnectionEvent(f.event) then [] else Put32(|f.sessionID|) + f.sessionID;
      assert raw == pre + Put32(f.event) + (tail + post);
      ReadPut(pre, f.event, tail + post);
      EventRoundTrip(f.event);
      if !IsConnectionEvent(f.event) {
        assert raw == (pre + Put32(f.event)) + Put32(|f.sessionID|) + (f.sessionID + post);
        ReadPut(pre + Put32(f.event), |f.sessionID|, f.sessionID + post);
        assert raw[|pre| + 8..|pre| + 8 + |f.sessionID|] == f.sessionID;
      }
    }
  }

  // Where each field of a frame starts.

  function EventEnd(w: Wire): nat { |WireHeader(w)| + |EventField(w.frame)| }

  function SequenceField(w: Wire): seq<byte> { Optional32(w.sequence, Has(w.frame.flags, FLAG_SEQUENCE)) }

  function SequenceEnd(w: Wire): nat { EventEnd(w) + |SequenceField(w)| }

  function ErrorField(w: Wire): seq<byte> { Optional32(w.frame.errorCode, w.frame.msgType == MSG_ERROR) }

  function ErrorEnd(w: Wire): nat { SequenceEnd(w) + |ErrorField(w)| }

  lemma WireEvent(w: Wire, rest: seq<byte>)
    requires Sendable(w)
    ensures ReadEvent(WireBytes(w) + rest, |WireHeader(w)|, w.frame.flags) ==
            Some(EventPart(w.frame.event, w.frame.sessionID, EventEnd(w)))
  {
    hide HeaderUnits, EventField, WireHeader, Put32, Optional32, ReadEvent, Has;
    var post := SequenceField(w) + ErrorField(w) + Put32(|w.frame.payload|) + w.frame.payload + rest;
    assert WireBytes(w) + rest == WireHeader(w) + EventField(w.frame) + post;
    ReadEventField(WireHeader(w), w.frame, post);
  }

  lemma WireSequence(w: Wire, rest: seq<byte>)
    requires Sendable(w)
    ensures var r := ReadOptional32(WireBytes(w) + rest, EventEnd(w), Has(w.frame.flags, FLAG_SEQUENCE));
            r.Some? && r.value.1 == SequenceEnd(w)
  {
    hide HeaderUnits, EventField, WireHeader, Put32, Optional32, ReadOptional32, Has;
    var pre := WireHeader(w) + EventField(w.frame);
    var post := ErrorField(w) + Put32(|w.frame.payload|) + w.frame.payload + rest;
    assert WireBytes(w) + rest == pre + SequenceField(w) + post;
    ReadOptionalPut(pre, w.sequence, Has(w.frame.flags, FLAG_SEQUENCE), post);
  }

  lemma WireError(w: Wire, rest: seq<byte>)
    requires Sendable(w)
    ensures ReadOptional32(WireBytes(w) + rest, SequenceEnd(w), w.frame.msgType == MSG_ERROR) ==
            Some((w.frame.errorCode, ErrorEnd(w)))
  {
    hide HeaderUnits, EventField, WireHeader, Put32, Optional32, ReadOptional32, Has;
    var pre := WireHeader(w) + EventField(w.frame) + SequenceField(w);
    var post := Put32(|w.frame.payload|) + w.frame.payload + rest;
    assert WireBytes(w) + rest == pre + ErrorField(w) + post;
    ReadOptionalPut(pre, w.frame.errorCode, w.frame.msgType == MSG_ERROR, post);
  }

  lemma WirePayload(w: Wire, rest: seq<byte>)
    requires Sendable(w)
    ensures var raw, n := WireBytes(w) + rest, ErrorEnd(w);
            && Read32(raw, n) == Some(|w.frame.payload|)
            && |WireBytes(w)| == n + 4 + |w.frame.payload|
            && raw[n + 4..n + 4 + |w.frame.payload|] == w.frame.payload
  {
    hide HeaderUnits, EventField, WireHeader, Put32, Optional32, Read32, Has;
    var pre := WireHeader(w) + EventField(w.frame) + SequenceField(w) + ErrorField(w);
    var post := w.frame.payload + rest;
    assert WireBytes(w) + rest == pre + Put32(|w.frame.payload|) + post;
    ReadPut(pre, |w.frame.payload|, post);
  }

  lemma WireHead(w: Wire, rest: seq<byte>)
    requires Sendable(w)
    ensures var raw := WireBytes(w) + rest;
            && |raw| >= 4 && HeaderUnits(raw[0]) == |WireHeader(w)|
            && High(raw[1]) == w.frame.msgType && Low(raw[1]) == w.frame.flags
            && High(raw[2]) == w.frame.serial && Low(raw[2]) == w.frame.compress
  {
    WireNibbles(w.frame);
    hide HeaderUnits, EventField, Put32, Optional32, Has, Join, High, Low;
    var raw := WireBytes(w) + rest;
    assert raw[0] == w.first && raw[1] == Join(w.frame.msgType, w.frame.flags);
    assert raw[2] == Join(w.frame.serial, w.frame.compress);
  }

  /** Whatever the server sends, errors and sequence numbers included, the parser gives back: every
      field of the frame, for a header of any announced size and any flags, whatever follows. */
  lemma ParsesWhatServerSends(w: Wire, rest: seq<byte>)
    requires Sendable(w)
    ensures ParseAt(WireBytes(w) + rest) == Some(Parsed(w.frame, |WireBytes(w)|))
  {
    hide HeaderUnits, High, Low, Has, Read32, ReadEvent, ReadOptional32, WireBytes, WireHeader, EventEnd, SequenceEnd,
         ErrorEnd, ParseAt;
    WireHead(w, rest);
    WireEvent(w, rest);
    WireSequence(w, rest);
    WireError(w, rest);
    WirePayload(w, rest);
    AssembledFrom(WireBytes(w) + rest, w.frame, |WireHeader(w)|, EventEnd(w), SequenceEnd(w), ErrorEnd(w));
  }

  /** The parser's answer from what is read at each field. */
  lemma AssembledFrom(raw: seq<byte>, f: Frame, n0: nat, n1: nat, n2: nat, n3: nat)
    requires |raw| >= 4 && HeaderUnits(raw[0]) == n0 && High(raw[1]) == f.msgType && Low(raw[1]) == f.flags
    requires High(raw[2]) == f.serial && Low(raw[2]) == f.compress
    requires ReadEvent(raw, n0, f.flags) == Some(EventPart(f.event, f.sessionID, n1))
    requires var r := ReadOptional32(raw, n1, Has(f.flags, FLAG_SEQUENCE)); r.Some? && r.value.1 == n2
    requires ReadOptional32(raw, n2, f.msgType == MSG_ERROR) == Some((f.errorCode, n3))
    requires Read32(raw, n3) == Some(|f.payload|)
    requires n3 + 4 + |f.payload| <= |raw| && raw[n3 + 4..n3 + 4 + |f.payload|] == f.payload
    ensures ParseAt(raw) == Some(Parsed(f, n3 + 4 + |f.payload|))
  {
    hide Put32, Get32, ToInt, ToByte, High, Low, Join, Has, HeaderUnits, Read32, ReadEvent, ReadOptional32;
  }

  lemma WireNibbles(f: Frame)
    requires f.msgType < 16 && f.flags < 16 && f.serial < 16 && f.compress < 16
    ensures High(Join(f.msgType, f.flags)) == f.msgType && Low(Join(f.msgType, f.flags)) == f.flags
    ensures High(Join(f.serial, f.compress)) == f.serial && Low(Join(f.serial, f.compress)) == f.compress
  {
  }

  // ---- Where the bits are ----

  /** 32-bit fields are big-endian: the first byte is worth most. */
  lemma BigEndian(v: nat)
    requires v < TWO32
    ensures var s := Put32(v);
            v == ToInt(s[0]) * 0x100_0000 + ToInt(s[1]) * 0x1_0000 + ToInt(s[2]) * 0x100 + ToInt(s[3])
  {
    hide Put32, ToInt;
    GetPut32(v);
  }

  /** Message type and serialization are in the high nibbles, flags and compression in the low ones. */
  lemma NibbleLayout(high: byte, low: byte)
    requires high < 16 && low < 16
    ensures Join(high, low) == high * 16 + low
    ensures High(Join(high, low)) == high && Low(Join(high, low)) == low
  {
  }

  /** Which flag bits ask for which field: either of the two low ones for a sequence number, the third
      for an event. */
  lemma FlagBits(flags: byte)
    ensures Has(flags, FLAG_SEQUENCE) <==> flags & 1 != 0 || flags & 2 != 0
    ensures Has(flags, FLAG_WITH_EVENT) <==> flags & 4 != 0
  {
  }

  /** The low half of the first byte counts the header's four-byte units, whatever the version. */
  lemma HeaderIsCounted(version: byte, units: nat)
    requires version < 16 && units < 16
    ensures HeaderUnits(Join(version, ToByte(units))) == 4 * units
  {
    ByteOfInt(units);
    SmallByte(units);
    LowOfJoin(version, ToByte(units));
    hide ToInt, ToByte, Join;
  }

  lemma SmallByte(n: nat)
    requires n < 16
    ensures ToByte(n) < 16
  {
    var n1 := Half(n);
    var n2 := Half(n1);
    var n3 := Half(n2);
    var n4 := Half(n3);
    assert n4 == 0 && !Odd(n4) && Half(n4) == 0;
  }

  lemma LowOfJoin(high: byte, low: byte)
    requires low < 16
    ensures Join(high, low) & 0x0f == low
  {
  }

  /** The start of a connection, a JSON request with an empty object, byte for byte. */
  lemma StartConnectionBytes()
    ensures Build(Request(1, 1, 0, 1, [], [0x7b, 0x7d])) ==
            [0x11, 0x14, 0x10, 0x00, 0x00, 0x00, 0x00, 0x01, 0x00, 0x00, 0x00, 0x02, 0x7b, 0x7d]
  {
    var q := Request(1, 1, 0, 1, [], [0x7b, 0x7d]);
    SmallNumber(1, 1);
    SmallNumber(2, 2);
    StartHeader(q);
    hide Put32, Join, HeaderBytes, ToInt, SessionBytes;
    StartPieces(HeaderBytes(q), Put32(1), SessionBytes(q), Put32(2), [0x7b, 0x7d]);
  }

  lemma StartHeader(q: Request)
    requires q == Request(1, 1, 0, 1, [], [0x7b, 0x7d])
    ensures HeaderBytes(q) == [0x11, 0x14, 0x10, 0x00] && SessionBytes(q) == []
  {
    assert Join(1, FLAG_WITH_EVENT) == 0x14 && Join(1, 0) == 0x10;
    hide Put32, Join;
  }

  lemma StartPieces(head: seq<byte>, event: seq<byte>, session: seq<byte>, size: seq<byte>, payload: seq<byte>)
    requires head == [0x11, 0x14, 0x10, 0x00] && event == [0x00, 0x00, 0x00, 0x01] && session == []
    requires size == [0x00, 0x00, 0x00, 0x02] && payload == [0x7b, 0x7d]
    ensures head + event + session + size + payload ==
            [0x11, 0x14, 0x10, 0x00, 0x00, 0x00, 0x00, 0x01, 0x00, 0x00, 0x00, 0x02, 0x7b, 0x7d]
  {
  }

  /** A chunk of audio in a session: the session id is in front of the payload. */
  lemma AudioRequestBytes()
    ensures Build(Request(2, 0, 1, 200, [0x73, 0x31], [0x05])) ==
            [0x11, 0x24, 0x01, 0x00, 0x00, 0x00, 0x00, 0xc8, 0x00, 0x00, 0x00, 0x02, 0x73, 0x31,
             0x00, 0x00, 0x00, 0x01, 0x05]
  {
    var q := Request(2, 0, 1, 200, [0x73, 0x31], [0x05]);
    SmallNumber(200, 0xc8);
    SmallNumber(2, 2);
    SmallNumber(1, 1);
    AudioHeader(q);
    hide Put32, Join, HeaderBytes, ToInt, SessionBytes;
    AudioPieces(HeaderBytes(q), Put32(200), SessionBytes(q), Put32(1), [0x05]);
  }

  lemma AudioHeader(q: Request)
    requires q == Request(2, 0, 1, 200, [0x73, 0x31], [0x05]) && Put32(2) == [0, 0, 0, 2]
    ensures HeaderBytes(q) == [0x11, 0x24, 0x01, 0x00]
    ensures SessionBytes(q) == [0x00, 0x00, 0x00, 0x02, 0x73, 0x31]
  {
    assert Join(2, FLAG_WITH_EVENT) == 0x24 && Join(0, 1) == 0x01;
    hide Put32, Join;
  }

  lemma AudioPieces(head: seq<byte>, event: seq<byte>, session: seq<byte>, size: seq<byte>, payload: seq<byte>)
    requires head == [0x11, 0x24, 0x01, 0x00] && event == [0x00, 0x00, 0x00, 0xc8]
    requires session == [0x00, 0x00, 0x00, 0x02, 0x73, 0x31] && size == [0x00, 0x00, 0x00, 0x01] && payload == [0x05]
    ensures head + event + session + size + payload ==
            [0x11, 0x24, 0x01, 0x00, 0x00, 0x00, 0x00, 0xc8, 0x00, 0x00, 0x00, 0x02, 0x73, 0x31,
             0x00, 0x00, 0x00, 0x01, 0x05]
  {
  }

  /** The five events of the connection itself, and no others, go without a session id. */
  lemma ConnectionEventsHaveNoSession(q: Request)
    requires q.sessionID != []
    ensures |Build(q)| == 12 + |q.payload| <==>
            q.event == 1 || q.event == 2 || q.event == 50 || q.event == 51 || q.event == 52
  {
    hide Put32;
  }

  lemma SmallNumber(n: nat, b: byte)
    requires n < 256 && ToInt(b) == n
    ensures Put32(n) == [0, 0, 0, b]
  {
    hide ToInt, ToByte;
    IntOfByte(b);
    ZeroByte();
  }

  lemma ZeroByte()
    ensures ToByte(0) == 0
  {
  }
}
