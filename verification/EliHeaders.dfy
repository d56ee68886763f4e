/**
 The two headers of an ELI datagram, written and read byte by byte in network order
 (lib/eli/ldp_ELI_udp.c, lib/eli/ldp_ELI.c, lib/ECOA_simple_types_serialization.c).
 */
module EliHeaders {
  import opened Common

  type U16 = x: int | 0 <= x < 0x1_0000
  type U32 = x: int | 0 <= x < 0x1_0000_0000

  const ELI_VERSION: Byte := 2
  const ELI_HEADER_SIZE := 20

  // ----- integers -----

  function Encode16(x: U16): (b: seq<Byte>)
    ensures |b| == 2
  {
    [x / 0x100, x % 0x100]
  }

  function Decode16(b: seq<Byte>): U16
    requires |b| == 2
  {
    b[0] as int * 0x100 + b[1]
  }

  function Encode32(x: U32): (b: seq<Byte>)
    ensures |b| == 4
  {
    [x / 0x100_0000, x / 0x1_0000 % 0x100, x / 0x100 % 0x100, x % 0x100]
  }

  function Decode32(b: seq<Byte>): U32
    requires |b| == 4
  {
    b[0] as int * 0x100_0000 + b[1] as int * 0x1_0000 + b[2] as int * 0x100 + b[3]
  }

  lemma Decode32Encode32(x: U32)
    ensures Decode32(Encode32(x)) == x
  {
    Digits(x);
  }

  lemma Digits(x: U32)
    ensures x as int == x as int / 0x100_0000 * 0x100_0000 + x as int / 0x1_0000 % 0x100 * 0x1_0000 + x as int / 0x100 % 0x100 * 0x100 + x as int % 0x100
  {
    var a: int, b: int, c: int := x as int / 0x100, x as int / 0x1_0000, x as int / 0x100_0000;
    assert a / 0x100 == b && b / 0x100 == c;
    assert x as int == a * 0x100 + x as int % 0x100;
    assert a == b * 0x100 + a % 0x100;
    assert b == c * 0x100 + b % 0x100;
  }

  lemma Encode32Decode32(b: seq<Byte>)
    requires |b| == 4
    ensures Encode32(Decode32(b)) == b
  {
    var x := Decode32(b);
    assert x / 0x100 == b[0] as int * 0x1_0000 + b[1] as int * 0x100 + b[2];
    assert x / 0x1_0000 == b[0] as int * 0x100 + b[1];
    assert x / 0x100_0000 == b[0];
  }

  /** Network order: the most significant byte comes first. */
  lemma NetworkOrder(x: U32, b: seq<Byte>)
    requires |b| == 4
    ensures Encode32(x) == b <==> x as int == b[0] as int * 0x100_0000 + b[1] as int * 0x1_0000 + b[2] as int * 0x100 + b[3] as int
    ensures Decode32(b) as int == b[0] as int * 0x100_0000 + b[1] as int * 0x1_0000 + b[2] as int * 0x100 + b[3] as int
  {
    Decode32Encode32(x);
    Encode32Decode32(b);
  }

  /** serialize_ECOA__uint32 with htonl, into a buffer with room for it. */
  method Serialize32(x: U32, buffer: array<Byte>, offset: nat)
    requires offset + 4 <= buffer.Length
    modifies buffer
    ensures buffer[offset..offset + 4] == Encode32(x)
    ensures x as int == buffer[offset] as int * 0x100_0000 + buffer[offset + 1] as int * 0x1_0000
                        + buffer[offset + 2] as int * 0x100 + buffer[offset + 3] as int
    ensures forall i :: 0 <= i < buffer.Length && !(offset <= i < offset + 4) ==> buffer[i] == old(buffer[i])
  {
    Digits(x);
    buffer[offset] := x / 0x100_0000;
    buffer[offset + 1] := x / 0x1_0000 % 0x100;
    buffer[offset + 2] := x / 0x100 % 0x100;
    buffer[offset + 3] := x % 0x100;
  }

  // ----- the UDP binding header -----

  datatype UdpHeader = UdpHeader(version: Byte, part: nat, platformId: Byte, channelId: Byte, counter: U16)

  /** Fields that survive the four bytes: two, two and four bits of the first one. */
  predicate InRange(h: UdpHeader) {
    h.version < 4 && h.part < 4 && h.platformId < 16
  }

  function ParseUdpHeader(b: seq<Byte>): (h: UdpHeader)
    requires |b| == 4
    ensures InRange(h)
  {
    UdpHeader(b[0] / 64, b[0] / 16 % 4, b[0] % 16, b[1], Decode16(b[2..4]))
  }

  /** `(uint8_t)(v << 6)` */
  function Shift6(v: Byte): nat { v as int * 64 % 0x100 }

  /** `((uint8_t)(p << 4)) >> 4` */
  function LowNibble(p: Byte): nat { (p as int * 16 % 0x100) / 16 }

  /** `+=` on a uint8_t. */
  function Add8(a: Byte, b: nat): (r: Byte)
    ensures a + b < 0x100 ==> r == a + b
  {
    (a + b) % 0x100
  }

  /** The first byte as the C code adds it up. */
  function FirstByte(h: UdpHeader): Byte {
    Add8(Add8(Add8(0, Shift6(h.version)), h.part * 64 / 4), LowNibble(h.platformId))
  }

  function UdpBytes(h: UdpHeader): (b: seq<Byte>)
    ensures |b| == 4
  {
    [FirstByte(h), h.channelId] + Encode16(h.counter)
  }

  lemma Shifts(v: Byte, p: Byte)
    ensures Shift6(v) == v as int % 4 * 64
    ensures LowNibble(p) == p % 16
  {
    assert v as int * 64 == v as int / 4 * 0x100 + v as int % 4 * 64;
    assert p as int * 16 == p as int / 16 * 0x100 + p as int % 16 * 16;
  }

  lemma Pack(a: nat, p: nat, n: nat)
    requires a < 4 && p < 4 && n < 16
    ensures var b := a * 64 + p * 16 + n; b < 0x100 && b / 64 == a && b / 16 % 4 == p && b % 16 == n
  {
    assert (a * 64 + p * 16 + n) / 16 == a * 4 + p;
  }

  lemma Unpack(x: nat)
    requires x < 0x100
    ensures x / 64 % 4 == x / 64 && x % 16 % 16 == x % 16
    ensures x == x / 64 * 64 + x / 16 % 4 * 16 + x % 16
  {
    assert x / 16 == x / 64 * 4 + x / 16 % 4;
  }

  lemma FirstByteFields(h: UdpHeader)
    requires h.part < 4
    ensures FirstByte(h) as int == h.version as int % 4 * 64 + h.part * 16 + h.platformId as int % 16
    ensures FirstByte(h) / 64 == h.version % 4
    ensures FirstByte(h) / 16 % 4 == h.part && FirstByte(h) % 16 == h.platformId % 16
  {
    Shifts(h.version, h.platformId);
    hide Shift6, LowNibble, Add8;
    Pack(h.version % 4, h.part, h.platformId % 16);
  }

  /** A header survives writing and reading if and only if its fields fit their bits. */
  lemma UdpWriteRead(h: UdpHeader)
    requires h.part < 4
    ensures ParseUdpHeader(UdpBytes(h)) == h.(version := h.version % 4, platformId := h.platformId % 16)
    ensures ParseUdpHeader(UdpBytes(h)) == h <==> InRange(h)
  {
    hide FirstByte, Encode16, Decode16;
    FirstByteFields(h);
    Decode16Encode16(h.counter);
    assert UdpBytes(h)[2..4] == Encode16(h.counter);
  }

  lemma Decode16Encode16(x: U16)
    ensures Decode16(Encode16(x)) == x
  {
  }

  lemma FirstByteIsRead(h: UdpHeader, x: nat)
    requires x < 0x100 && h.version as int == x / 64 && h.part == x / 16 % 4 && h.platformId as int == x % 16
    ensures FirstByte(h) as int == x
  {
    hide FirstByte;
    FirstByteFields(h);
    Unpack(x);
  }

  lemma Encode16Decode16(b: seq<Byte>)
    requires |b| == 2
    ensures Encode16(Decode16(b)) == b
  {
  }

  /** Any four bytes are written back unchanged. */
  lemma UdpReadWrite(b: seq<Byte>)
    requires |b| == 4
    ensures UdpBytes(ParseUdpHeader(b)) == b
  {
    hide FirstByte, Encode16, Decode16;
    var h := ParseUdpHeader(b);
    FirstByteIsRead(h, b[0]);
    Encode16Decode16(b[2..4]);
    assert b == [b[0], b[1]] + b[2..4];
  }

  /** ldp_write_ELI_UDP_header. */
  method WriteUdpHeader(h: UdpHeader, buffer: array<Byte>, offset: nat) returns (written: nat)
    requires h.part < 4 && offset + 4 <= buffer.Length
    modifies buffer
    ensures written == 4 && buffer[offset..offset + 4] == UdpBytes(h)
    ensures buffer[offset] as int == h.version as int % 4 * 64 + h.part * 16 + h.platformId as int % 16
    ensures buffer[offset + 1] == h.channelId
    ensures buffer[offset + 2] as int * 0x100 + buffer[offset + 3] as int == h.counter
    ensures buffer[..offset] == old(buffer[..offset]) && buffer[offset + 4..] == old(buffer[offset + 4..])
  {
    buffer[offset] := 0;
    hide Shift6, LowNibble, Add8;
    buffer[offset] := Add8(buffer[offset], Shift6(h.version));
    buffer[offset] := Add8(buffer[offset], h.part * 64 / 4);
    buffer[offset] := Add8(buffer[offset], LowNibble(h.platformId));
    buffer[offset + 1] := h.channelId;
    buffer[offset + 2] := h.counter / 0x100;
    buffer[offset + 3] := h.counter % 0x100;
    FirstByteFields(h);
    return 4;
  }

  /** ldp_read_ELI_UDP_header. */
  method ReadUdpHeader(buffer: array<Byte>, offset: nat) returns (h: UdpHeader, read: nat)
    requires offset + 4 <= buffer.Length
    ensures read == 4 && h == ParseUdpHeader(buffer[offset..offset + 4])
    ensures buffer[offset] as int == h.version as int * 64 + h.part * 16 + h.platformId as int && h.part < 4 && h.platformId < 16
    ensures h.channelId == buffer[offset + 1] && h.counter == buffer[offset + 2] as int * 0x100 + buffer[offset + 3] as int
  {
    var version := buffer[offset] / 64;
    var part := buffer[offset] / 16 % 4;
    var platformId := buffer[offset] % 16;
    h := UdpHeader(version, part, platformId, buffer[offset + 1], Decode16(buffer[offset + 2..offset + 4]));
    assert buffer[offset..offset + 4][2..4] == buffer[offset + 2..offset + 4];
    Unpack(buffer[offset]);
    read := 4;
  }

  // ----- the ELI header -----

  datatype EliHeader = EliHeader(domain: Byte, platformId: U32, msgId: U32, payloadSize: U32, sequenceNum: U32)

  function EliBytes(h: EliHeader): (b: seq<Byte>)
    ensures |b| == ELI_HEADER_SIZE
  {
    [0xEC, 0x0A, ELI_VERSION, h.domain] + Encode32(h.platformId) + Encode32(h.msgId)
    + Encode32(h.payloadSize) + Encode32(h.sequenceNum)
  }

  function ParseEli(b: seq<Byte>): Option<EliHeader>
    requires |b| == ELI_HEADER_SIZE
  {
    if b[0] != 0xEC || b[1] != 0x0A || b[2] != ELI_VERSION then None
    else Some(EliHeader(b[3], Decode32(b[4..8]), Decode32(b[8..12]), Decode32(b[12..16]), Decode32(b[16..20])))
  }

  /** Where the fields of an ELI header stand. */
  lemma EliLayout(h: EliHeader)
    ensures var b := EliBytes(h);
            && b[..4] == [0xEC, 0x0A, 2, h.domain]
            && b[4..8] == Encode32(h.platformId) && b[8..12] == Encode32(h.msgId)
            && b[12..16] == Encode32(h.payloadSize) && b[16..20] == Encode32(h.sequenceNum)
  {
    hide Encode32;
    var (p, m, s, n) := (Encode32(h.platformId), Encode32(h.msgId), Encode32(h.payloadSize), Encode32(h.sequenceNum));
    assert EliBytes(h) == [0xEC, 0x0A, 2, h.domain] + p + m + s + n;
  }

  lemma SubSlice(s: seq<Byte>, offset: nat, i: nat, j: nat)
    requires i <= j <= 20 && offset + 20 <= |s|
    ensures s[offset..offset + 20][i..j] == s[offset + i..offset + j]
  {
    var part := s[offset..offset + 20];
    forall k | i <= k < j ensures part[k] == s[offset + k] {
    }
    assert part[i..j] == s[offset + i..offset + j];
  }

  lemma FiveParts(b: seq<Byte>, h: EliHeader)
    requires |b| == 20 && b[0] == 0xEC && b[1] == 0x0A && b[2] == ELI_VERSION && b[3] == h.domain
    requires b[4..8] == Encode32(h.platformId) && b[8..12] == Encode32(h.msgId)
    requires b[12..16] == Encode32(h.payloadSize) && b[16..20] == Encode32(h.sequenceNum)
    ensures b == EliBytes(h)
  {
    hide Encode32;
    assert b == [b[0], b[1], b[2], b[3]] + b[4..8] + b[8..12] + b[12..16] + b[16..20];
  }

  /** ldp_write_ELI_header. */
  method WriteEliHeader(h: EliHeader, message: array<Byte>, offset: nat) returns (written: nat)
    requires offset + ELI_HEADER_SIZE <= message.Length
    modifies message
    ensures written == ELI_HEADER_SIZE
    ensures message[offset..offset + ELI_HEADER_SIZE] == EliBytes(h)
    ensures message[..offset] == old(message[..offset])
    ensures message[offset + ELI_HEADER_SIZE..] == old(message[offset + ELI_HEADER_SIZE..])
  {
    hide Encode32;
    message[offset] := 0xEC;
    message[offset + 1] := 0x0A;
    message[offset + 2] := ELI_VERSION;
    message[offset + 3] := h.domain;
    Serialize32(h.platformId, message, offset + 4);
    Serialize32(h.msgId, message, offset + 8);
    Serialize32(h.payloadSize, message, offset + 12);
    Serialize32(h.sequenceNum, message, offset + 16);
    assert message[offset + 4..offset + 8] == Encode32(h.platformId);
    assert message[offset + 8..offset + 12] == Encode32(h.msgId);
    assert message[offset + 12..offset + 16] == Encode32(h.payloadSize);
    SubSlice(message[..], offset, 4, 8);
    SubSlice(message[..], offset, 8, 12);
    SubSlice(message[..], offset, 12, 16);
    SubSlice(message[..], offset, 16, 20);
    FiveParts(message[offset..offset + 20], h);
    assert forall k :: 0 <= k < offset || offset + 20 <= k < message.Length ==> message[k] == old(message[k]);
    written := 20;
  }

  /** ldp_read_ELI_header; None is ELI_STATUS__INVALID_HEADER. */
  method ReadEliHeader(message: array<Byte>, offset: nat) returns (h: Option<EliHeader>)
    requires offset + ELI_HEADER_SIZE <= message.Length
    ensures h == ParseEli(message[offset..offset + ELI_HEADER_SIZE])
  {
    var b := message[offset..offset + ELI_HEADER_SIZE];
    if message[offset] != 0xEC || message[offset + 1] != 0x0A {
      return None;
    }
    if message[offset + 2] != ELI_VERSION {
      return None;
    }
    h := Some(EliHeader(message[offset + 3],
                        Decode32(message[offset + 4..offset + 8]), Decode32(message[offset + 8..offset + 12]),
                        Decode32(message[offset + 12..offset + 16]), Decode32(message[offset + 16..offset + 20])));
    assert b[4..8] == message[offset + 4..offset + 8] && b[8..12] == message[offset + 8..offset + 12];
    assert b[12..16] == message[offset + 12..offset + 16] && b[16..20] == message[offset + 16..offset + 20];
  }

  /** A header survives writing and reading. */
  lemma EliWriteRead(h: EliHeader)
    ensures ParseEli(EliBytes(h)) == Some(h)
  {
    var b := EliBytes(h);
    hide Encode32, Decode32, EliBytes;
    EliLayout(h);
    assert b[0] == b[..4][0] && b[1] == b[..4][1] && b[2] == b[..4][2] && b[3] == b[..4][3];
    Decode32Encode32(h.platformId);
    Decode32Encode32(h.msgId);
    Decode32Encode32(h.payloadSize);
    Decode32Encode32(h.sequenceNum);
  }

  /** Every accepted header is written back as the very same bytes, and only those starting EC 0A 02 are accepted. */
  lemma EliReadWrite(b: seq<Byte>)
    requires |b| == ELI_HEADER_SIZE
    ensures ParseEli(b).Some? <==> b[..3] == [0xEC, 0x0A, ELI_VERSION]
    ensures ParseEli(b).Some? ==> EliBytes(ParseEli(b).value) == b
  {
    Encode32Decode32(b[4..8]);
    Encode32Decode32(b[8..12]);
    Encode32Decode32(b[12..16]);
    Encode32Decode32(b[16..20]);
    hide Encode32, Decode32;
    assert b == b[..3] + [b[3]] + b[4..8] + b[8..12] + b[12..16] + b[16..20];
    assert b[0] == b[..3][0] && b[1] == b[..3][1] && b[2] == b[..3][2];
    if b[0] == 0xEC && b[1] == 0x0A && b[2] == ELI_VERSION {
      assert b[..3] == [0xEC, 0x0A, ELI_VERSION];
    }
  }
}
