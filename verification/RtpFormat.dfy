/**
 The wire format of one RTP packet carrying H.264: the fixed header of section 5.1 of RFC 3550,
 and the single-NAL-unit and FU-A payloads of sections 5.6 and 5.8 of RFC 6184.
 */
module RtpFormat {
  import opened Arithmetic
  import opened Bytes

  const PAYLOAD_TYPE := 96
  const FU_A := 28
  const HEADER_SIZE := 12

  datatype Header = Header(marker: bool, seqNum: U16, timestamp: U32, ssrc: U32)

  /** What one packet carries behind its header, with the marker bit that goes with it. */
  datatype Fragment = Fragment(marker: bool, body: seq<Byte>)

  datatype Packet = Packet(header: Header, body: seq<Byte>)

  // ---- bytes and bits ----

  function Bit(b: bool): (r: Byte) {
    if b then 1 else 0
  }

  /** The bits F (1), NRI (2) and TYPE (5) of a NAL header or FU indicator. */
  function NalByte(f: nat, nri: nat, kind: nat): Byte
    requires f < 2 && nri < 4 && kind < 32
  {
    128 * f + 32 * nri + kind
  }

  /** The bits S, E, R = 0 and TYPE of an FU header. */
  function FuByte(s: bool, e: bool, kind: nat): Byte
    requires kind < 32
  {
    128 * Bit(s) + 64 * Bit(e) + kind
  }

  function ForbiddenBit(b: Byte): (f: nat)
    ensures f < 2
  {
    b / 128
  }

  function RefIdc(b: Byte): (nri: nat)
    ensures nri < 4
  {
    b / 32 % 4
  }

  function UnitType(b: Byte): (kind: nat)
    ensures kind < 32
  {
    b % 32
  }

  lemma NalByteFields(b: Byte)
    ensures NalByte(ForbiddenBit(b), RefIdc(b), UnitType(b)) == b
  {
    assert b / 32 == 4 * (b / 128) + b / 32 % 4;
  }

  lemma NalBits(f: nat, nri: nat, kind: nat)
    requires f < 2 && nri < 4 && kind < 32
    ensures var b := NalByte(f, nri, kind);
      ForbiddenBit(b) == f && RefIdc(b) == nri && UnitType(b) == kind
  {
    DivUnique(NalByte(f, nri, kind), 128, f, 32 * nri + kind);
    DivUnique(NalByte(f, nri, kind), 32, 4 * f + nri, kind);
    DivUnique(4 * f + nri, 4, f, nri);
  }

  lemma FuBits(s: bool, e: bool, kind: nat)
    requires kind < 32
    ensures var b := FuByte(s, e, kind);
      (b / 128 == 1 <==> s) && (b / 64 % 2 == 1 <==> e) && b % 32 == kind
  {
  }

  function Big16(n: U16): (s: seq<Byte>)
    ensures |s| == 2
  {
    [n / 0x100, n % 0x100]
  }

  function Big32(n: U32): (s: seq<Byte>)
    ensures |s| == 4
  {
    Big16(n / 0x1_0000) + Big16(n % 0x1_0000)
  }

  function Read16(s: seq<Byte>, p: nat): U16
    requires p + 2 <= |s|
  {
    s[p] as int * 0x100 + s[p + 1]
  }

  function Read32(s: seq<Byte>, p: nat): U32
    requires p + 4 <= |s|
  {
    Read16(s, p) as int * 0x1_0000 + Read16(s, p + 2)
  }

  // ---- the sender's side ----

  /** Version 2, no padding, no extension, no contributing sources. */
  function EncodeHeader(h: Header): (s: seq<Byte>)
    ensures |s| == HEADER_SIZE
  {
    [128, 128 * Bit(h.marker) + PAYLOAD_TYPE] + Big16(h.seqNum) + Big32(h.timestamp) + Big32(h.ssrc)
  }

  function Encode(p: Packet): seq<Byte> {
    EncodeHeader(p.header) + p.body
  }

  // ---- the receiver's side ----

  /** A receiver's reading of the fixed header, bit field by bit field. */
  function Parse(s: seq<Byte>): Option<Packet> {
    if |s| < 12 then None
    else
      var version, padding, extension, sources := s[0] / 64, s[0] / 32 % 2, s[0] / 16 % 2, s[0] % 16;
      if version != 2 || padding != 0 || extension != 0 || sources != 0 || s[1] % 128 != 96 then None
      else
        Some(Packet(Header(s[1] / 128 == 1, Read16(s, 2), Read32(s, 4), Read32(s, 8)), s[12..]))
  }

  /** Its reading of a payload's first byte, and of the FU header behind it. */
  function PacketType(indicator: Byte): nat {
    indicator % 32
  }

  function FuStart(fu: Byte): bool {
    fu / 128 == 1
  }

  function FuEnd(fu: Byte): bool {
    fu / 64 % 2 == 1
  }

  function UnitHeader(indicator: Byte, fu: Byte): Byte {
    indicator / 32 * 32 + fu % 32
  }

  lemma HeaderBytes(h: Header, s: seq<Byte>)
    requires s == EncodeHeader(h)
    ensures s[0] == 128 && s[1] == 128 * Bit(h.marker) + PAYLOAD_TYPE
    ensures s[2..4] == Big16(h.seqNum) && s[4..8] == Big32(h.timestamp) && s[8..12] == Big32(h.ssrc)
  {
  }

  lemma Read16OfBig(s: seq<Byte>, p: nat, n: U16)
    requires p + 2 <= |s| && s[p..p + 2] == Big16(n)
    ensures Read16(s, p) == n
  {
    assert s[p] == s[p..p + 2][0] && s[p + 1] == s[p..p + 2][1];
  }

  lemma Read32OfBig(s: seq<Byte>, p: nat, n: U32)
    requires p + 4 <= |s| && s[p..p + 4] == Big32(n)
    ensures Read32(s, p) == n
  {
    assert s[p..p + 2] == s[p..p + 4][..2] == Big16(n / 0x1_0000);
    assert s[p + 2..p + 4] == s[p..p + 4][2..] == Big16(n % 0x1_0000);
    Read16OfBig(s, p, n / 0x1_0000);
    Read16OfBig(s, p + 2, n % 0x1_0000);
  }

  /** Every header field survives the twelve bytes. */
  lemma ParseInvertsEncode(p: Packet)
    ensures Parse(Encode(p)) == Some(p)
  {
    var s, e := Encode(p), EncodeHeader(p.header);
    HeaderBytes(p.header, e);
    assert s[..12] == e && s[12..] == p.body;
    assert s[0] == e[0] && s[1] == e[1];
    assert s[2..4] == e[2..4] && s[4..8] == e[4..8] && s[8..12] == e[8..12];
    Read16OfBig(s, 2, p.header.seqNum);
    Read32OfBig(s, 4, p.header.timestamp);
    Read32OfBig(s, 8, p.header.ssrc);
  }

  lemma Read16Bytes(n: U16)
    ensures Big16(n)[0] as int * 0x100 + Big16(n)[1] == n
  {
  }

  lemma Read32Bytes(n: U32)
    ensures var b := Big32(n); ((b[0] as int * 0x100 + b[1]) * 0x100 + b[2]) * 0x100 + b[3] == n
  {
    Read16Bytes(n / 0x1_0000);
    Read16Bytes(n % 0x1_0000);
  }

  /** The bytes of a packet, one by one: version 2 and nothing else; payload type 96, with the marker above it; big-endian numbers. */
  lemma WireBytes(p: Packet)
    ensures var w := Encode(p);
      && |w| == 12 + |p.body| && w[0] == 0x80 && w[1] == (if p.header.marker then 0x80 else 0) + 96
      && w[2] as int * 0x100 + w[3] == p.header.seqNum
      && ((w[4] as int * 0x100 + w[5]) * 0x100 + w[6]) * 0x100 + w[7] == p.header.timestamp
      && ((w[8] as int * 0x100 + w[9]) * 0x100 + w[10]) * 0x100 + w[11] == p.header.ssrc
      && w[12..] == p.body
  {
    var w, h := Encode(p), p.header;
    HeaderBytes(h, EncodeHeader(h));
    Read16Bytes(h.seqNum);
    Read32Bytes(h.timestamp);
    Read32Bytes(h.ssrc);
    assert w[..12] == EncodeHeader(h);
    assert w[2..4] == w[..12][2..4] && w[4..8] == w[..12][4..8] && w[8..12] == w[..12][8..12];
  }

  // ---- fragmentation ----

  /** How many packets a unit of `len` bytes takes when packets carry at most `max` bytes. */
  function FragmentCount(len: nat, max: nat): (n: nat)
    requires max > 0
    ensures n >= 1
    ensures n == 1 <==> len <= max
    decreases len
  {
    if len <= max then 1 else 1 + FragmentCount(len - max, max)
  }

  /** Where chunk `i` begins: behind the header byte, `max` bytes further on each time. */
  function Offset(len: nat, max: nat, i: nat): (r: nat)
    requires len > 0 && max > 0
    ensures 1 <= r <= len
  {
    if i == 0 then 1 else Min(Offset(len, max, i - 1) + max, len)
  }

  /** The bytes of `u` in fragment `i`; the unit's header byte is carried by the FU bytes. */
  function Chunk(u: seq<Byte>, max: nat, i: nat): seq<Byte>
    requires u != [] && max > 0
  {
    u[Offset(|u|, max, i)..Offset(|u|, max, i + 1)]
  }

  /** Fragment `i` of unit `u`. */
  function FragmentAt(u: seq<Byte>, max: nat, i: nat): Fragment
    requires u != [] && max > 0 && i < FragmentCount(|u|, max)
  {
    if |u| <= max then Fragment(true, u)
    else
      var last := i == FragmentCount(|u|, max) - 1;
      var indicator := NalByte(ForbiddenBit(u[0]), RefIdc(u[0]), FU_A);
      Fragment(last, [indicator, FuByte(i == 0, last, UnitType(u[0]))] + Chunk(u, max, i))
  }

  // ---- how the fragments tile a unit ----

  function CeilDiv(a: nat, b: nat): nat
    requires b > 0
  {
    (a + b - 1) / b
  }

  lemma {:induction false} OffsetClosed(len: nat, max: nat, i: nat)
    requires len > 0 && max > 0
    ensures Offset(len, max, i) == Min(1 + i * max, len)
  {
    if i > 0 {
      OffsetClosed(len, max, i - 1);
      assert i * max == (i - 1) * max + max;
    }
  }

  /** The last fragment is the one whose chunk is shorter than `max`, possibly empty. */
  lemma {:induction false} CountBounds(len: nat, max: nat)
    requires len > 0 && max > 0
    ensures (FragmentCount(len, max) - 1) * max < len <= FragmentCount(len, max) * max
    decreases len
  {
    var n := FragmentCount(len, max);
    if len > max {
      CountBounds(len - max, max);
      assert n * max == (n - 1) * max + max && (n - 1) * max == (n - 2) * max + max;
    } else {
      assert n == 1;
    }
  }

  lemma CountIsCeil(len: nat, max: nat)
    requires len > 0 && max > 0
    ensures FragmentCount(len, max) == CeilDiv(len, max)
  {
    var n := FragmentCount(len, max);
    CountBounds(len, max);
    assert n * max == (n - 1) * max + max;
    var r := len + max - 1 - n * max;
    DivUnique(len + max - 1, max, n, r);
  }

  lemma CeilOfOneLess(len: nat, max: nat)
    requires len > max > 0
    ensures CeilDiv(len, max) == CeilDiv(len - 1, max) + (if (len - 1) % max == 0 then 1 else 0)
  {
    var q, r := (len - 1) / max, (len - 1) % max;
    assert len - 1 == q * max + r;
    assert len + max - 1 == (q + 1) * max + r;
    DivUnique(len + max - 1, max, q + 1, r);
    if r == 0 {
      assert len - 1 + max - 1 == q * max + (max - 1);
      DivUnique(len - 1 + max - 1, max, q, max - 1);
    } else {
      assert len - 1 + max - 1 == (q + 1) * max + (r - 1);
      DivUnique(len - 1 + max - 1, max, q + 1, r - 1);
    }
  }

  lemma ProductMonotone(a: nat, b: nat, m: nat)
    requires a <= b
    ensures a * m <= b * m
  {
  }

  /** Every chunk but the last is full; the last takes the rest. */
  lemma ChunkSize(u: seq<Byte>, max: nat, i: nat)
    requires |u| > max > 0 && i < FragmentCount(|u|, max)
    ensures Offset(|u|, max, i) == 1 + i * max
    ensures Offset(|u|, max, i + 1) == if i < FragmentCount(|u|, max) - 1 then 1 + i * max + max else |u|
  {
    var n := FragmentCount(|u|, max);
    CountBounds(|u|, max);
    OffsetClosed(|u|, max, i);
    assert n * max == (n - 1) * max + max;
    assert (i + 1) * max == i * max + max;
    if i < n - 1 {
      ProductMonotone(i + 1, n - 1, max);
    }
  }

  function Tiles(u: seq<Byte>, max: nat, n: nat): seq<Byte>
    requires u != [] && max > 0
  {
    if n == 0 then [] else Tiles(u, max, n - 1) + Chunk(u, max, n - 1)
  }

  lemma {:induction false} TilesPrefix(u: seq<Byte>, max: nat, n: nat)
    requires u != [] && max > 0
    ensures [u[0]] + Tiles(u, max, n) == u[..Offset(|u|, max, n)]
  {
    if n > 0 {
      TilesPrefix(u, max, n - 1);
      var a, b := Offset(|u|, max, n - 1), Offset(|u|, max, n);
      assert u[..b] == u[..a] + u[a..b];
    }
  }

  lemma LastChunkEmpty(len: nat, max: nat)
    requires len > max > 0
    ensures len == 1 + (FragmentCount(len, max) - 1) * max <==> (len - 1) % max == 0
  {
    var k := FragmentCount(len, max) - 1;
    CountBounds(len, max);
    assert (k + 1) * max == k * max + max;
    DivUnique(len - 1, max, k, len - 1 - k * max);
  }

  /**
   The tiling law: a long unit goes out as at least two fragments whose chunks, in order, are
   the unit without its first byte; only the last chunk can be short; it is empty exactly when
   the bytes behind the header divide evenly, and then one fragment more than necessary was sent.
   */
  lemma FragmentsTile(u: seq<Byte>, max: nat)
    requires |u| > max > 0
    ensures var n := FragmentCount(|u|, max);
      && n == CeilDiv(|u|, max) >= 2
      && [u[0]] + Tiles(u, max, n) == u
      && (forall i :: 0 <= i < n - 1 ==> |Chunk(u, max, i)| == max)
      && (Chunk(u, max, n - 1) == [] <==> (|u| - 1) % max == 0)
      && n == CeilDiv(|u| - 1, max) + (if (|u| - 1) % max == 0 then 1 else 0)
  {
    var n := FragmentCount(|u|, max);
    forall i | 0 <= i < n - 1 ensures |Chunk(u, max, i)| == max {
      ChunkSize(u, max, i);
    }
    TilesPrefix(u, max, n);
    ChunkSize(u, max, n - 1);
    CountIsCeil(|u|, max);
    CeilOfOneLess(|u|, max);
    LastChunkEmpty(|u|, max);
  }

  lemma FieldsOf(b: Byte)
    ensures 128 * ForbiddenBit(b) + 32 * RefIdc(b) == b / 32 * 32
  {
    NalByteFields(b);
  }

  /** The receiver's view of the FU bits: start on the first only, end and marker on the last only. */
  lemma FragmentBits(u: seq<Byte>, max: nat, i: nat)
    requires |u| > max > 0 && i < FragmentCount(|u|, max)
    ensures var f := FragmentAt(u, max, i);
      && |f.body| >= 2
      && PacketType(f.body[0]) == 28
      && UnitHeader(f.body[0], f.body[1]) == u[0]
      && (FuStart(f.body[1]) <==> i == 0)
      && (FuEnd(f.body[1]) <==> i == FragmentCount(|u|, max) - 1)
      && (f.marker <==> i == FragmentCount(|u|, max) - 1)
      && f.body[2..] == Chunk(u, max, i)
  {
    var last := i == FragmentCount(|u|, max) - 1;
    var f := FragmentAt(u, max, i);
    FieldsOf(u[0]);
    FuBits(i == 0, last, UnitType(u[0]));
    assert f.body[0] == 128 * ForbiddenBit(u[0]) + 32 * RefIdc(u[0]) + 28 == u[0] / 32 * 32 + 28;
    assert f.body[1] == FuByte(i == 0, last, UnitType(u[0]));
    DivUnique(f.body[0], 32, u[0] / 32, 28);
  }

  /** A unit has as many fragments as it takes full packets, the last perhaps not full. */
  lemma CountUnique(len: nat, max: nat, n: nat)
    requires len > 0 && max > 0 && n > 0 && (n - 1) * max < len <= n * max
    ensures n == FragmentCount(len, max)
  {
    var k := FragmentCount(len, max);
    CountBounds(len, max);
    assert n < k ==> n * max <= (k - 1) * max by {
      if n < k { ProductMonotone(n, k - 1, max); }
    }
    assert k < n ==> k * max <= (n - 1) * max by {
      if k < n { ProductMonotone(k, n - 1, max); }
    }
  }

  /**
   The bytes of fragment `i` of `n`: type 28 with the unit's upper three bits; the unit's type with 128 on the
   first fragment and 64 on the last; then bytes `1 + i * max` on, `max` of them or, at the end, all that are left.
   A unit that fits goes out as it is.
   */
  predicate Written(u: seq<Byte>, max: nat, n: nat, i: nat, body: seq<Byte>) {
    if n == 1 then body == u
    else
      var end := if i == n - 1 then |u| else 1 + i * max + max;
      && 0 <= i * max < end <= |u|
      && body == [u[0] / 32 * 32 + 28, (if i == 0 then 128 else 0) + (if i == n - 1 then 64 else 0) + u[0] % 32]
                 + u[1 + i * max..end]
  }

  lemma FragmentBytes(u: seq<Byte>, max: nat, n: nat, i: nat, body: seq<Byte>)
    requires u != [] && max > 0 && n > 0 && (n - 1) * max < |u| <= n * max && i < n
    ensures n == FragmentCount(|u|, max)
    ensures FragmentAt(u, max, i).marker == (i == n - 1)
    ensures body == FragmentAt(u, max, i).body ==> Written(u, max, n, i, body)
  {
    CountUnique(|u|, max, n);
    if n > 1 {
      ChunkSize(u, max, i);
      FieldsOf(u[0]);
    }
  }
}
