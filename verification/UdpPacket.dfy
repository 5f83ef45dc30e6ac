/** Big-endian integers as byte sequences (`to_be_bytes` and `from_be_bytes`). */
module BigEndian {
  import opened Base

  function Pow256(n: nat): nat {
    if n == 0 then 1 else 256 * Pow256(n - 1)
  }

  function ToBytes(n: nat, v: nat): (b: seq<byte>)
    ensures |b| == n
  {
    if n == 0 then [] else ToBytes(n - 1, v / 256) + [v % 256]
  }

  function FromBytes(b: seq<byte>): nat {
    if b == [] then 0 else 256 * FromBytes(b[..|b| - 1]) + b[|b| - 1]
  }

  lemma Widths()
    ensures Pow256(4) == U32 && Pow256(8) == U64
  {
    assert Pow256(2) == 0x1_0000;
    assert Pow256(4) == U32;
    assert Pow256(6) == 0x1_0000_0000_0000;
  }

  /** The number with these four bytes, most significant first. */
  function Word(a: int, b: int, c: int, d: int): int {
    0x100_0000 * a + 0x1_0000 * b + 0x100 * c + d
  }

  lemma FourBytes(b: seq<byte>)
    requires |b| == 4
    ensures FromBytes(b) == Word(b[0], b[1], b[2], b[3])
  {
    assert b[..3][..2] == b[..2] && b[..2][..1] == b[..1] && b[..1][..0] == [];
    assert FromBytes(b[..1]) == b[0];
    assert FromBytes(b[..2]) == 256 * FromBytes(b[..1]) + b[1];
    assert FromBytes(b[..3]) == 256 * FromBytes(b[..2]) + b[2];
  }

  lemma EightBytes(b: seq<byte>)
    requires |b| == 8
    ensures FromBytes(b) == 0x1_0000_0000 * Word(b[0], b[1], b[2], b[3]) + Word(b[4], b[5], b[6], b[7])
  {
    FourBytes(b[..4]);
    assert b[..7][..6] == b[..6] && b[..6][..5] == b[..5] && b[..5][..4] == b[..4];
    assert FromBytes(b[..5]) == 256 * FromBytes(b[..4]) + b[4];
    assert FromBytes(b[..6]) == 256 * FromBytes(b[..5]) + b[5];
    assert FromBytes(b[..7]) == 256 * FromBytes(b[..6]) + b[6];
  }

  /** So a 32-bit number is sent most significant byte first. */
  lemma FirstByteMostSignificant(v: nat)
    requires v < U32
    ensures var b := ToBytes(4, v);
            v == Word(b[0], b[1], b[2], b[3])
  {
    Widths();
    Decodes(4, v);
    FourBytes(ToBytes(4, v));
  }

  lemma {:induction false} Decodes(n: nat, v: nat)
    requires v < Pow256(n)
    ensures FromBytes(ToBytes(n, v)) == v
  {
    if n > 0 {
      Decodes(n - 1, v / 256);
      assert ToBytes(n, v)[..n - 1] == ToBytes(n - 1, v / 256);
    }
  }

  lemma {:induction false} Encodes(b: seq<byte>)
    ensures FromBytes(b) < Pow256(|b|)
    ensures ToBytes(|b|, FromBytes(b)) == b
  {
    if b != [] {
      Encodes(b[..|b| - 1]);
    }
  }
}

/** The 20-byte header of a measurement packet (src/udp_packet.rs). */
module UdpPacket {
  import opened Base
  import opened BigEndian

  const MAGIC: nat := 0x52504633
  const HEADER_SIZE: nat := 20

  datatype Header = Header(streamId: u32, sequence: u32, timestampUs: u64)

  function ToWire(h: Header): (b: seq<byte>)
    ensures |b| == HEADER_SIZE
  {
    ToBytes(4, MAGIC) + ToBytes(4, h.streamId) + ToBytes(4, h.sequence) + ToBytes(8, h.timestampUs)
  }

  function FromWire(b: seq<byte>): Option<Header> {
    if |b| < HEADER_SIZE then None
    else if FromBytes(b[0..4]) != MAGIC then None
    else
      FieldsFit(b);
      Some(Header(FromBytes(b[4..8]), FromBytes(b[8..12]), FromBytes(b[12..20])))
  }

  lemma FieldsFit(b: seq<byte>)
    requires HEADER_SIZE <= |b|
    ensures FromBytes(b[4..8]) < U32 && FromBytes(b[8..12]) < U32 && FromBytes(b[12..20]) < U64
  {
    Widths();
    Encodes(b[4..8]);
    Encodes(b[8..12]);
    Encodes(b[12..20]);
  }

  /** `create_packet` with the timestamp already read: header, then a payload of zeros. */
  function CreatePacket(h: Header, payloadSize: nat): (b: seq<byte>)
    ensures |b| == HEADER_SIZE + payloadSize
  {
    ToWire(h) + seq(payloadSize, _ => 0)
  }

  function ParsePacket(b: seq<byte>): Option<(Header, seq<byte>)> {
    match FromWire(b)
    case None => None
    case Some(h) => Some((h, b[HEADER_SIZE..]))
  }

  /** The fields of a packet are where the parser looks for them. */
  lemma FieldsOfCreated(h: Header, payloadSize: nat)
    ensures var b := CreatePacket(h, payloadSize);
            && b[0..4] == ToBytes(4, MAGIC) && b[4..8] == ToBytes(4, h.streamId)
            && b[8..12] == ToBytes(4, h.sequence) && b[12..20] == ToBytes(8, h.timestampUs)
            && b[HEADER_SIZE..] == seq(payloadSize, _ => 0)
  {
    var f1, f2, f3, f4 := ToBytes(4, MAGIC), ToBytes(4, h.streamId), ToBytes(4, h.sequence), ToBytes(8, h.timestampUs);
    var zeros: seq<byte> := seq(payloadSize, _ => 0);
    assert CreatePacket(h, payloadSize) == f1 + f2 + f3 + f4 + zeros;
    SplitFields(f1, f2, f3, f4, zeros);
  }

  lemma SplitFields(f1: seq<byte>, f2: seq<byte>, f3: seq<byte>, f4: seq<byte>, rest: seq<byte>)
    requires |f1| == |f2| == |f3| == 4 && |f4| == 8
    ensures var b := f1 + f2 + f3 + f4 + rest;
            b[0..4] == f1 && b[4..8] == f2 && b[8..12] == f3 && b[12..20] == f4 && b[HEADER_SIZE..] == rest
  {
  }

  /** Every created packet parses back to its header and payload. */
  lemma ParseCreated(h: Header, payloadSize: nat)
    ensures ParsePacket(CreatePacket(h, payloadSize)) == Some((h, seq(payloadSize, _ => 0)))
  {
    FieldsOfCreated(h, payloadSize);
    Widths();
    Decodes(4, MAGIC);
    Decodes(4, h.streamId);
    Decodes(4, h.sequence);
    Decodes(8, h.timestampUs);
  }

  lemma FieldsOfPrefix(b: seq<byte>, c: seq<byte>)
    requires HEADER_SIZE <= |b| && |c| == HEADER_SIZE && b[..HEADER_SIZE] == c
    ensures b[0..4] == c[0..4] && b[4..8] == c[4..8] && b[8..12] == c[8..12] && b[12..20] == c[12..20]
  {
    assert c[0..4] == b[..HEADER_SIZE][0..4] == b[0..4];
    assert c[4..8] == b[..HEADER_SIZE][4..8] == b[4..8];
    assert c[8..12] == b[..HEADER_SIZE][8..12] == b[8..12];
    assert c[12..20] == b[..HEADER_SIZE][12..20] == b[12..20];
  }

  /** A header that was parsed serializes to the bytes it was parsed from. */
  lemma ParsedPrefix(b: seq<byte>)
    requires FromWire(b).Some?
    ensures b[..HEADER_SIZE] == ToWire(FromWire(b).value)
  {
    Encodes(b[0..4]);
    Encodes(b[4..8]);
    Encodes(b[8..12]);
    Encodes(b[12..20]);
    assert b[..HEADER_SIZE] == b[0..4] + b[4..8] + b[8..12] + b[12..20];
  }

  /** The parser accepts exactly the datagrams that begin with some header's bytes, and returns that header. */
  lemma ParsesIffHeaderPrefix(b: seq<byte>, h: Header)
    ensures FromWire(b) == Some(h) <==> HEADER_SIZE <= |b| && b[..HEADER_SIZE] == ToWire(h)
  {
    if HEADER_SIZE <= |b| && b[..HEADER_SIZE] == ToWire(h) {
      ParseCreated(h, 0);
      var c := CreatePacket(h, 0);
      assert c == ToWire(h);
      FieldsOfPrefix(b, c);
    }
    if FromWire(b) == Some(h) {
      ParsedPrefix(b);
    }
  }

  /** A datagram is accepted exactly when it has 20 bytes or more and begins with the letters RPF3; its fields
      stand where the format says, big-endian. */
  lemma AcceptedLayout(b: seq<byte>)
    ensures FromWire(b).Some? <==> 20 <= |b| && b[0] == 0x52 && b[1] == 0x50 && b[2] == 0x46 && b[3] == 0x33
    ensures FromWire(b).Some? ==> FieldsAt(b, FromWire(b).value)
  {
    if 20 <= |b| {
      FourBytes(b[0..4]);
      MagicBytes(b[0], b[1], b[2], b[3]);
      FieldBytes(b);
    }
  }

  predicate FieldsAt(b: seq<byte>, h: Header)
    requires 20 <= |b|
  {
    && h.streamId == Word(b[4], b[5], b[6], b[7]) && h.sequence == Word(b[8], b[9], b[10], b[11])
    && h.timestampUs == 0x1_0000_0000 * Word(b[12], b[13], b[14], b[15]) + Word(b[16], b[17], b[18], b[19])
  }

  lemma FieldBytes(b: seq<byte>)
    requires 20 <= |b|
    ensures FromWire(b).Some? ==> FieldsAt(b, FromWire(b).value)
  {
    FourBytes(b[4..8]);
    FourBytes(b[8..12]);
    EightBytes(b[12..20]);
  }

  lemma MagicBytes(a: byte, b: byte, c: byte, d: byte)
    ensures Word(a, b, c, d) == MAGIC <==> a == 0x52 && b == 0x50 && c == 0x46 && d == 0x33
  {
  }
}
