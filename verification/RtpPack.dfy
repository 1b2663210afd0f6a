/**
 The packing handle: a cursor over the caller's buffer, fragment counters and one reused output
 array, updated call by call. Each call refines the pure session machine of `RtpSession`.
 */
module RtpPack {
  import opened Arithmetic
  import opened Bytes
  import opened AnnexB
  import opened RtpFormat
  import opened RtpSession

  const MAX_OUTBUF_SIZE := 10 * 1024

  lemma LastIndexUnique(len: nat, max: nat, k: nat, r: nat)
    requires len > max > 0 && len == k * max + r && 0 < r <= max
    ensures FragmentCount(len, max) - 1 == k
  {
    var n := FragmentCount(len, max) - 1;
    CountBounds(len, max);
    assert (n + 1) * max == n * max + max;
    DivUnique(len - 1, max, n, len - 1 - n * max);
    DivUnique(len - 1, max, k, r - 1);
  }

  /** The fragment counter and last fragment size as the packer computes them. */
  lemma CounterMeaning(len: nat, max: nat)
    requires len > max > 0
    ensures FragmentCount(len, max) - 1 == if len % max == 0 then len / max - 1 else len / max
    ensures len - (FragmentCount(len, max) - 1) * max == if len % max == 0 then max else len % max
  {
    var q, r := len / max, len % max;
    assert len == q * max + r;
    if r == 0 {
      assert (q - 1) * max == q * max - max;
      LastIndexUnique(len, max, q - 1, max);
    } else {
      LastIndexUnique(len, max, q, r);
    }
  }

  /** What a cursor in the buffer stands for. */
  ghost function TodoAt(s: seq<Byte>, next: Option<nat>): seq<seq<Byte>>
    requires WellEnded(s) && (next.Some? ==> next.value < |s|)
  {
    if next.None? then [] else Payloads(Split(s, next.value))
  }

  lemma SliceSlice(s: seq<Byte>, p: nat, n: nat, a: nat, b: nat)
    requires p + n <= |s| && a <= b <= n
    ensures s[p..p + n][a..b] == s[p + a..p + b]
  {
    var x, y := s[p..p + n][a..b], s[p + a..p + b];
    assert |x| == |y|;
    forall k | 0 <= k < |x| ensures x[k] == y[k] {
      assert x[k] == s[p..p + n][a + k];
    }
  }

  /** One scanned unit, then the rest of the buffer. */
  lemma SplitHead(s: seq<Byte>, cur: nat, next: nat, cursor: Option<nat>)
    requires WellEnded(s) && CodeAt(s, cur)
    requires cur + PrefixLen(s, cur) < |s| && next == NextCode(s, cur + PrefixLen(s, cur) + 1)
    requires cursor == if next < |s| then Some(next) else None
    ensures TodoAt(s, Some(cur)) == [s[cur + PrefixLen(s, cur)..next]] + TodoAt(s, cursor)
  {
    var u := Unit(PrefixLen(s, cur), s[cur + PrefixLen(s, cur)..next]);
    assert Split(s, cur) == [u] + Split(s, next);
  }

  function Wire(ps: seq<Packet>): (ws: seq<seq<Byte>>)
    ensures |ws| == |ps| && forall i :: 0 <= i < |ps| ==> ws[i] == Encode(ps[i])
  {
    seq(|ps|, i requires 0 <= i < |ps| => Encode(ps[i]))
  }

  /** A fragment of a long unit as a packet. */
  lemma FragmentPacket(c: Config, seqNum: U16, u: seq<Byte>, i: nat, ts: U32)
    requires |u| > c.max > 0 && i < FragmentCount(|u|, c.max)
    ensures var last := i == FragmentCount(|u|, c.max) - 1;
      EmitPacket(c, seqNum, u, i, ts) ==
      Packet(Header(last, seqNum, ts, c.ssrc),
             [NalByte(ForbiddenBit(u[0]), RefIdc(u[0]), FU_A), FuByte(i == 0, last, UnitType(u[0]))] + Chunk(u, c.max, i))
  {
  }

  class PacHandle {
    var inbuf: array<Byte>
    const outbuf: array<Byte>
    var nextNalu: Option<nat>   // offset of the next start code; None is the null pointer
    var inbufSize: nat
    var fuCounter: nat
    var lastFuSize: nat
    var fuIndex: nat
    var inbufComplete: bool
    var naluComplete: bool
    var prefixLen: nat
    var naluData: nat           // offset of the unit's first byte
    var naluLen: nat
    var forbiddenBit: nat
    var refIdc: nat
    var unitType: nat
    var seqNum: U16
    const tsStart: U32
    var tsCurrent: U32
    const maxPktLen: nat
    const ssrc: U32

    ghost predicate Open()
      reads this
    {
      && outbuf.Length == MAX_OUTBUF_SIZE
      && 1 <= maxPktLen <= MAX_OUTBUF_SIZE - 14
      && inbuf != outbuf
    }

    /** The scanner's part of the state: a buffer is loaded and the cursor is inside it. */
    ghost predicate Loaded()
      reads this, inbuf
    {
      && Open()
      && inbufSize == inbuf.Length
      && WellEnded(inbuf[..])
      && (nextNalu.Some? ==> nextNalu.value < inbuf.Length)
    }

    /** The current unit lies in the buffer and its header fields have been read from it. */
    ghost predicate UnitRead()
      reads this, inbuf
    {
      && naluLen > 0
      && naluData + naluLen <= inbuf.Length
      && forbiddenBit == ForbiddenBit(inbuf[naluData])
      && refIdc == RefIdc(inbuf[naluData])
      && unitType == UnitType(inbuf[naluData])
    }

    ghost predicate Fragmenting()
      reads this, inbuf
    {
      && UnitRead()
      && naluLen > maxPktLen > 0
      && 0 < fuIndex < FragmentCount(naluLen, maxPktLen)
      && fuCounter == FragmentCount(naluLen, maxPktLen) - 1
      && lastFuSize == naluLen - fuCounter * maxPktLen
    }

    ghost predicate Valid()
      reads this, inbuf
    {
      && Loaded()
      && (!naluComplete ==> Fragmenting() && !inbufComplete)
      && (inbufComplete && nextNalu.Some? ==> !CodeAt(inbuf[..], nextNalu.value))
    }

    ghost function Params(): Config
      reads this
    {
      Config(maxPktLen, ssrc, tsStart)
    }

    ghost function Todo(): seq<seq<Byte>>
      requires Loaded()
      reads this, inbuf
    {
      TodoAt(inbuf[..], nextNalu)
    }

    ghost function Unit(): seq<Byte>
      requires naluData + naluLen <= inbuf.Length
      reads this, inbuf
    {
      inbuf[naluData..naluData + naluLen]
    }

    /** The session this handle stands for. */
    ghost function View(): Session
      requires Valid()
      reads this, inbuf
    {
      if naluComplete then Session(Todo(), [], 0, seqNum, tsCurrent)
      else Session(Todo(), Unit(), fuIndex, seqNum, tsCurrent)
    }

    lemma ViewSound()
      requires Valid()
      ensures Sound(Params(), View())
    {
      if nextNalu.Some? {
        SplitScanned(inbuf[..], nextNalu.value);
      }
    }

    constructor (maxPktLen: nat, ssrc: U32, now: U32)
      requires 1 <= maxPktLen <= MAX_OUTBUF_SIZE - 14
      ensures Open() && fresh(outbuf)
      ensures Params() == Config(maxPktLen, ssrc, now)
      ensures seqNum == 0 && tsCurrent == 0
    {
      outbuf := new Byte[MAX_OUTBUF_SIZE];
      inbuf := new Byte[0];
      nextNalu, inbufSize, inbufComplete, naluComplete := None, 0, false, false;
      fuCounter, lastFuSize, fuIndex := 0, 0, 0;
      prefixLen, naluData, naluLen, forbiddenBit, refIdc, unitType := 0, 0, 0, 0, 0, 0;
      seqNum, tsStart, tsCurrent := 0, now, 0;
      this.maxPktLen, this.ssrc := maxPktLen, ssrc;
    }

    /** Starting a buffer forgets what was left of the one before, but not the numbering. */
    method Put(buf: array<Byte>)
      requires Open() && buf != outbuf
      modifies this
      ensures Open() && inbuf == buf && inbufSize == buf.Length && nextNalu == Some(0)
      ensures naluComplete && !inbufComplete && seqNum == old(seqNum) && tsCurrent == old(tsCurrent)
      ensures WellEnded(buf[..]) ==>
                Valid() && View() == Session(Payloads(Split(buf[..], 0)), [], 0, seqNum, tsCurrent)
      ensures WellEnded(buf[..]) && old(Valid()) ==> View() == DoPut(old(View()), buf[..])
    {
      inbuf := buf;
      nextNalu := Some(0);
      inbufSize := buf.Length;
      fuCounter := 0;
      lastFuSize := 0;
      fuIndex := 0;
      inbufComplete := false;
      naluComplete := true;
    }

    method IsStartCode3(p: nat) returns (b: bool)
      requires Loaded() && p < inbuf.Length
      ensures b == Code3At(inbuf[..], p)
    {
      b := inbuf[p] == 0 && inbuf[p + 1] == 0 && inbuf[p + 2] == 1;
    }

    method IsStartCode4(p: nat) returns (b: bool)
      requires Loaded() && p < inbuf.Length
      ensures b == Code4At(inbuf[..], p)
    {
      b := inbuf[p] == 0 && inbuf[p + 1] == 0 && inbuf[p + 2] == 0 && inbuf[p + 3] == 1;
    }

    /** The scanning loop: from a unit's first byte `d` to the next start code, or to the end. */
    method ScanUnit(d: nat) returns (next: nat, found: bool)
      requires Loaded() && d < inbuf.Length
      ensures next == NextCode(inbuf[..], d + 1)
      ensures found <==> next < inbuf.Length
    {
      next, found := d, false;
      while !found
        invariant d <= next < inbuf.Length
        invariant forall r :: d < r < next ==> !CodeAt(inbuf[..], r)
        invariant found ==> d < next && CodeAt(inbuf[..], next)
        invariant !found && d < next ==> !CodeAt(inbuf[..], next)
        decreases inbuf.Length - next, !found
      {
        next := next + 1;
        if next >= inbufSize {
          break;
        }
        var found3 := IsStartCode3(next);
        var found4 := IsStartCode4(next);
        found := found3 || found4;
      }
      NextCodeIs(inbuf[..], d + 1, next);
    }

    /** Which start code stands at `cur`, if any. */
    method ReadPrefix(cur: nat) returns (len: nat)
      requires Loaded() && cur < inbuf.Length
      ensures len == AnnexB.PrefixLen(inbuf[..], cur)
    {
      var three := IsStartCode3(cur);
      if three {
        return 3;
      }
      var four := IsStartCode4(cur);
      if four {
        return 4;
      }
      return 0;
    }

    /** Note the unit's place, and the fields of its header byte. */
    method ReadUnit(from: nat, len: nat)
      requires Loaded() && len > 0 && from + len <= inbuf.Length
      modifies this`naluData, this`naluLen, this`forbiddenBit, this`refIdc, this`unitType
      ensures UnitRead() && naluData == from && naluLen == len
    {
      naluData := from;
      naluLen := len;
      forbiddenBit := ForbiddenBit(inbuf[naluData]);
      refIdc := RefIdc(inbuf[naluData]);
      unitType := UnitType(inbuf[naluData]);
    }

    /** Move the cursor past the unit that begins behind the start code at `cur`. */
    method TakeUnit(cur: nat)
      requires Loaded() && cur < inbuf.Length
      requires CodeAt(inbuf[..], cur) && prefixLen == AnnexB.PrefixLen(inbuf[..], cur)
      modifies this`nextNalu, this`naluData, this`naluLen, this`forbiddenBit, this`refIdc, this`unitType
      ensures Loaded() && UnitRead()
      ensures [Unit()] + Todo() == TodoAt(inbuf[..], Some(cur))
    {
      CodeLeavesData(inbuf[..], cur);
      var next, found := ScanUnit(cur + prefixLen);
      nextNalu := if found then Some(next) else None;
      ReadUnit(cur + prefixLen, next - cur - prefixLen);
      UnitTaken(cur, next);
    }

    lemma UnitTaken(cur: nat, next: nat)
      requires Loaded() && CodeAt(inbuf[..], cur) && prefixLen == AnnexB.PrefixLen(inbuf[..], cur)
      requires naluData == cur + prefixLen && naluData + naluLen == next
      requires cur + prefixLen < inbuf.Length && next == NextCode(inbuf[..], cur + prefixLen + 1)
      requires nextNalu == if next < inbuf.Length then Some(next) else None
      ensures [Unit()] + Todo() == TodoAt(inbuf[..], Some(cur))
    {
      ghost var s := inbuf[..];
      SplitHead(s, cur, next, nextNalu);
      assert Unit() == s[cur + prefixLen..next];
    }

    /** Scan to the next unit: 1 when there is one, 0 at the end, -1 when no start code stands here. */
    method GetNextNalu() returns (ret: int)
      requires Loaded()
      modifies this`prefixLen, this`nextNalu, this`naluData, this`naluLen,
               this`forbiddenBit, this`refIdc, this`unitType
      ensures ret == -1 || ret == 0 || ret == 1
      ensures Loaded()
      ensures ret == 1 ==> old(Todo()) != [] && UnitRead() && Unit() == old(Todo())[0] && Todo() == old(Todo())[1..]
      ensures ret != 1 ==> old(Todo()) == [] && nextNalu == old(nextNalu)
      ensures ret != 1 ==> nextNalu.Some? ==> !CodeAt(inbuf[..], nextNalu.value)
    {
      if nextNalu.None? {
        return 0;
      }
      var cur := nextNalu.value;
      prefixLen := ReadPrefix(cur);
      if prefixLen == 0 {
        return -1;
      }
      TakeUnit(cur);
      return 1;
    }

    /** The output array holds the packet and, behind it, only zeros. */
    ghost predicate Built(size: nat, p: Packet)
      reads this, outbuf
    {
      && size <= outbuf.Length
      && outbuf[..size] == Encode(p)
      && forall k :: size <= k < outbuf.Length ==> outbuf[k] == 0
    }

    /** Copy bytes into the output array. */
    method Store(at: nat, bytes: seq<Byte>)
      requires at + |bytes| <= outbuf.Length
      modifies outbuf
      ensures outbuf[..at + |bytes|] == old(outbuf[..at]) + bytes
      ensures forall k :: at + |bytes| <= k < outbuf.Length ==> outbuf[k] == old(outbuf[k])
    {
      forall k | 0 <= k < |bytes| {
        outbuf[at + k] := bytes[k];
      }
    }

    /** Clear the output array, then write the RTP header and count the packet. */
    method WriteHeader(marker: bool)
      requires Open()
      modifies this`seqNum, outbuf
      ensures seqNum == NextSeq(old(seqNum))
      ensures outbuf[..HEADER_SIZE] == EncodeHeader(Header(marker, old(seqNum), tsCurrent, ssrc))
      ensures forall k :: HEADER_SIZE <= k < outbuf.Length ==> outbuf[k] == 0
    {
      forall k | 0 <= k < outbuf.Length {
        outbuf[k] := 0;
      }
      var fields := [128, 128 * Bit(marker) + PAYLOAD_TYPE] + Big16(seqNum) + Big32(tsCurrent) + Big32(ssrc);
      seqNum := NextSeq(seqNum);
      Store(0, fields);
    }

    /** One packet: header, leading payload bytes, and a copy of `len` bytes of the input. */
    method Build(marker: bool, lead: seq<Byte>, from: nat, len: nat) returns (size: nat)
      requires Open() && from + len <= inbuf.Length
      requires HEADER_SIZE + |lead| + len <= MAX_OUTBUF_SIZE
      modifies this`seqNum, outbuf
      ensures seqNum == NextSeq(old(seqNum))
      ensures size == HEADER_SIZE + |lead| + len
      ensures Built(size, Packet(Header(marker, old(seqNum), tsCurrent, ssrc), lead + old(inbuf[from..from + len])))
    {
      var data := inbuf[from..from + len];
      WriteHeader(marker);
      Store(HEADER_SIZE, lead + data);
      size := HEADER_SIZE + |lead| + len;
    }

    lemma SliceOfUnit(a: nat, b: nat)
      requires naluData + naluLen <= inbuf.Length && a <= b <= naluLen
      ensures inbuf[naluData + a..naluData + b] == Unit()[a..b]
    {
      SliceSlice(inbuf[..], naluData, naluLen, a, b);
      assert inbuf[..][naluData..naluData + naluLen] == Unit();
    }

    lemma WholeBody()
      requires Loaded() && UnitRead() && naluLen <= maxPktLen
      ensures [NalByte(forbiddenBit, refIdc, unitType)] + inbuf[naluData + 1..naluData + naluLen] == Unit()
    {
      SliceOfUnit(1, naluLen);
      NalByteFields(inbuf[naluData]);
    }

    /** The bytes that fragment `i` carries behind its FU header. */
    ghost function ChunkLen(i: nat): int
      reads this
      requires maxPktLen > 0
    {
      if i == FragmentCount(naluLen, maxPktLen) - 1 then naluLen - 1 - i * maxPktLen else maxPktLen
    }

    lemma ChunkFits(i: nat)
      requires Loaded() && UnitRead() && naluLen > maxPktLen && i < FragmentCount(naluLen, maxPktLen)
      ensures 0 <= ChunkLen(i) <= maxPktLen && 0 <= i * maxPktLen
      ensures naluData + 1 + i * maxPktLen + ChunkLen(i) <= naluData + naluLen
      ensures inbuf[naluData + 1 + i * maxPktLen..naluData + 1 + i * maxPktLen + ChunkLen(i)]
           == Chunk(Unit(), maxPktLen, i)
    {
      var u := Unit();
      ChunkSize(u, maxPktLen, i);
      CountBounds(naluLen, maxPktLen);
      assert (i + 1) * maxPktLen == i * maxPktLen + maxPktLen;
      SliceOfUnit(Offset(|u|, maxPktLen, i), Offset(|u|, maxPktLen, i + 1));
    }

    method SendSingle(ghost u: seq<Byte>) returns (size: nat)
      requires Loaded() && UnitRead() && naluLen <= maxPktLen && u == Unit()
      modifies this`seqNum, this`naluComplete, outbuf
      ensures naluComplete && seqNum == NextSeq(old(seqNum))
      ensures Built(size, EmitPacket(Params(), old(seqNum), u, 0, tsCurrent))
    {
      WholeBody();
      size := Build(true, [NalByte(forbiddenBit, refIdc, unitType)], naluData + 1, naluLen - 1);
      naluComplete := true;
    }

    /** Fragment `i`: FU indicator, FU header, and its chunk of the unit. */
    method SendFragment(i: nat, start: bool, end: bool, from: nat, len: nat, ghost u: seq<Byte>) returns (size: nat)
      requires Loaded() && UnitRead() && naluLen > maxPktLen && i < FragmentCount(naluLen, maxPktLen)
      requires start == (i == 0) && end == (i == FragmentCount(naluLen, maxPktLen) - 1)
      requires from == naluData + 1 + i * maxPktLen && len == ChunkLen(i) && u == Unit()
      modifies this`seqNum, outbuf
      ensures seqNum == NextSeq(old(seqNum))
      ensures Built(size, EmitPacket(Params(), old(seqNum), u, i, tsCurrent))
    {
      ChunkFits(i);
      var lead := [NalByte(forbiddenBit, refIdc, FU_A), FuByte(start, end, unitType)];
      FragmentPacket(Params(), seqNum, u, i, tsCurrent);
      size := Build(end, lead, from, len);
    }

    /** Plan the fragments of a long unit. */
    method CountFragments()
      requires naluLen > maxPktLen > 0
      modifies this`fuCounter, this`lastFuSize
      ensures fuCounter == FragmentCount(naluLen, maxPktLen) - 1
      ensures lastFuSize == naluLen - fuCounter * maxPktLen
    {
      if naluLen % maxPktLen == 0 {
        fuCounter := naluLen / maxPktLen - 1;
        lastFuSize := maxPktLen;
      } else {
        fuCounter := naluLen / maxPktLen;
        lastFuSize := naluLen % maxPktLen;
      }
      CounterMeaning(naluLen, maxPktLen);
    }

    method SendFirst(ghost u: seq<Byte>) returns (size: nat)
      requires Loaded() && UnitRead() && naluLen > maxPktLen && u == Unit()
      modifies this`seqNum, this`fuCounter, this`lastFuSize, this`fuIndex, this`naluComplete, outbuf
      ensures !naluComplete && Fragmenting() && fuIndex == 1 && seqNum == NextSeq(old(seqNum))
      ensures Built(size, EmitPacket(Params(), old(seqNum), u, 0, tsCurrent))
    {
      CountFragments();
      fuIndex := 0;
      size := SendFragment(0, true, false, naluData + 1, maxPktLen, u);
      naluComplete := false;
      fuIndex := fuIndex + 1;
    }

    method SendLast(ghost u: seq<Byte>) returns (size: nat)
      requires Loaded() && Fragmenting() && fuIndex == fuCounter && u == Unit()
      modifies this`seqNum, this`fuIndex, this`naluComplete, outbuf
      ensures naluComplete && fuIndex == 0 && seqNum == NextSeq(old(seqNum))
      ensures Built(size, EmitPacket(Params(), old(seqNum), u, old(fuIndex), tsCurrent))
    {
      ChunkFits(fuIndex);
      size := SendFragment(fuIndex, false, true, naluData + 1 + fuIndex * maxPktLen, lastFuSize - 1, u);
      naluComplete := true;
      fuIndex := 0;
    }

    method SendMiddle(ghost u: seq<Byte>) returns (size: nat)
      requires Loaded() && Fragmenting() && fuIndex != fuCounter && u == Unit()
      modifies this`seqNum, this`fuIndex, outbuf
      ensures Fragmenting() && fuIndex == old(fuIndex) + 1 && seqNum == NextSeq(old(seqNum))
      ensures Built(size, EmitPacket(Params(), old(seqNum), u, old(fuIndex), tsCurrent))
    {
      ChunkFits(fuIndex);
      size := SendFragment(fuIndex, false, false, naluData + 1 + fuIndex * maxPktLen, maxPktLen, u);
      fuIndex := fuIndex + 1;
    }

    /** The session once the last fragment of a unit, perhaps its only one, is out. */
    lemma ViewAfterLast(n: U16, u: seq<Byte>, i: nat)
      requires Valid() && naluComplete && seqNum == NextSeq(n)
      requires i + 1 == FragmentCount(|u|, maxPktLen)
      ensures View() == AfterEmit(Params(), n, Todo(), u, i, tsCurrent)
    {
    }

    /** The session once any other fragment is out. */
    lemma ViewAfterMiddle(n: U16, u: seq<Byte>, i: nat)
      requires Valid() && !naluComplete && seqNum == NextSeq(n)
      requires u == Unit() && fuIndex == i + 1
      ensures View() == AfterEmit(Params(), n, Todo(), u, i, tsCurrent)
    {
    }

    /** The unit just read, newly stamped, alone or as its first fragment. */
    method SendUnit(clock: Clock, ghost u: seq<Byte>) returns (size: nat)
      requires Loaded() && UnitRead() && !inbufComplete && u == Unit()
      modifies this`seqNum, this`tsCurrent, this`fuCounter, this`lastFuSize, this`fuIndex, this`naluComplete, outbuf
      ensures Valid() && View() == AfterEmit(Params(), old(seqNum), old(Todo()), u, 0, Stamp(tsStart, clock))
      ensures Built(size, EmitPacket(Params(), old(seqNum), u, 0, Stamp(tsStart, clock)))
    {
      ghost var s := inbuf[..];
      tsCurrent := Stamp(tsStart, clock);
      if naluLen <= maxPktLen {
        size := SendSingle(u);
        ViewAfterLast(old(seqNum), u, 0);
      } else {
        size := SendFirst(u);
        ViewAfterMiddle(old(seqNum), u, 0);
      }
      assert inbuf[..] == s;
    }

    /** A new unit from the input, if there is one. */
    method SendNew(clock: Clock) returns (ret: int, size: nat)
      requires Valid() && naluComplete && !inbufComplete
      modifies this`prefixLen, this`nextNalu, this`naluData, this`naluLen, this`forbiddenBit, this`refIdc,
               this`unitType, this`seqNum, this`tsCurrent, this`fuCounter, this`lastFuSize, this`fuIndex,
               this`naluComplete, this`inbufComplete, outbuf
      ensures Valid()
      ensures ret == if old(Todo()) == [] then 0 else 1
      ensures ret == 0 ==> View() == old(View())
      ensures ret == 1 ==> old(Todo())[0] != []
      ensures ret == 1 ==> View() == AfterEmit(Params(), old(seqNum), old(Todo())[1..], old(Todo())[0], 0, Stamp(tsStart, clock))
      ensures ret == 1 ==> Built(size, EmitPacket(Params(), old(seqNum), old(Todo())[0], 0, Stamp(tsStart, clock)))
    {
      ret := GetNextNalu();
      if ret <= 0 {
        inbufComplete := true;
        return 0, 0;
      }
      size := SendUnit(clock, Unit());
    }

    /** The next fragment of the unit in hand. */
    method SendRemaining() returns (size: nat)
      requires Valid() && !naluComplete
      modifies this, outbuf
      ensures Valid() && inbuf == old(inbuf) && Params() == old(Params())
      ensures View() == AfterEmit(Params(), old(seqNum), old(Todo()), old(Unit()), old(fuIndex), old(tsCurrent))
      ensures Built(size, EmitPacket(Params(), old(seqNum), old(Unit()), old(fuIndex), old(tsCurrent)))
    {
      ghost var u, i := Unit(), fuIndex;
      if fuIndex == fuCounter {
        size := SendLast(u);
        ViewAfterLast(old(seqNum), u, i);
      } else {
        size := SendMiddle(u);
        ViewAfterMiddle(old(seqNum), u, i);
      }
    }

    /**
     One packet per call, in `outbuf[..size]`; 0 when the buffer is exhausted. Every call is one
     get of the session machine.
     */
    method Get(clock: Clock) returns (ret: int, size: nat)
      requires Valid()
      modifies this, outbuf
      ensures Valid() && inbuf == old(inbuf)
      ensures Sound(old(Params()), old(View()))
      ensures View() == DoGet(Params(), old(View()), clock).0
      ensures ret == if DoGet(Params(), old(View()), clock).1.Some? then 1 else 0
      ensures ret == 1 ==> Built(size, DoGet(Params(), old(View()), clock).1.value)
    {
      ViewSound();
      if inbufComplete {
        return 0, 0;
      }
      if naluComplete {
        ret, size := SendNew(clock);
      } else {
        size := SendRemaining();
        ret := 1;
      }
    }
  }

  // ---- the client's loop ----

  /** The first `n` gets of a loop that reads `clock`. */
  ghost function Gets(clock: nat -> Clock, n: nat): (ops: seq<Op>)
    ensures |ops| == n && AllGets(ops) && OpsOk(ops)
  {
    seq(n, i requires 0 <= i < n => Op.Get(clock(i)))
  }

  lemma GetsSnoc(clock: nat -> Clock, n: nat)
    ensures Gets(clock, n + 1) == Gets(clock, n) + [Op.Get(clock(n))]
  {
  }

  lemma WireSnoc(ps: seq<Packet>, p: Packet)
    ensures Wire(ps + [p]) == Wire(ps) + [Encode(p)]
  {
  }

  /** After `n` gets from `s0` the session is `s` and the packets are `packets`. */
  ghost predicate Drained(c: Config, s0: Session, clock: nat -> Clock, s: Session, packets: seq<seq<Byte>>) {
    && Sound(c, s0)
    && var (s', ps) := Run(c, s0, Gets(clock, |packets|));
       s' == s && packets == Wire(ps)
  }

  lemma DrainedStep(c: Config, s0: Session, clock: nat -> Clock, s: Session, packets: seq<seq<Byte>>)
    requires Drained(c, s0, clock, s, packets)
    ensures Sound(c, s)
    ensures var (s', p) := DoGet(c, s, clock(|packets|));
      && Sound(c, s')
      && (p.Some? ==> Drained(c, s0, clock, s', packets + [Encode(p.value)]))
      && (p.Some? ==> |Pending(c, s)| == 1 + |Pending(c, s')|)
      && (p.None? ==> s' == s && Pending(c, s) == [] && Owed(s) == [])
  {
    var n := |packets|;
    RunSnoc(c, s0, Gets(clock, n), Op.Get(clock(n)));
    GetsSnoc(clock, n);
    GetTakesHead(c, s, clock(n));
    NothingPending(c, s);
    var p := DoGet(c, s, clock(n)).1;
    if p.Some? {
      WireSnoc(Run(c, s0, Gets(clock, n)).1, p.value);
    }
  }

  /**
   Call `Get` until it returns 0. The loop ends; the packets are those of the session machine, one
   for each pending fragment, and nothing is left to send.
   */
  method Drain(h: PacHandle, clock: nat -> Clock) returns (packets: seq<seq<Byte>>)
    requires h.Valid()
    modifies h, h.outbuf
    ensures h.Valid() && h.inbuf == old(h.inbuf) && h.Params() == old(h.Params())
    ensures Drained(h.Params(), old(h.View()), clock, h.View(), packets)
    ensures |packets| == |Pending(h.Params(), old(h.View()))|
    ensures Owed(h.View()) == []
  {
    h.ViewSound();
    ghost var c, s0 := h.Params(), h.View();
    packets := [];
    while true
      invariant h.Valid() && h.inbuf == old(h.inbuf) && h.Params() == c
      invariant Sound(c, s0) && Sound(c, h.View())
      invariant Drained(c, s0, clock, h.View(), packets)
      invariant |packets| + |Pending(c, h.View())| == |Pending(c, s0)|
      decreases |Pending(c, h.View())|
    {
      DrainedStep(c, s0, clock, h.View(), packets);
      var ret, size := h.Get(clock(|packets|));
      if ret != 1 {
        break;
      }
      packets := packets + [h.outbuf[..size]];
    }
  }

  /** A receiver's reading of raw packets. */
  ghost function ReceiveAll(r: Receiver, wires: seq<seq<Byte>>): Receiver
    decreases |wires|
  {
    if wires == [] then r
    else ReceiveAll(Accept(r, wires[0]), wires[1..])
  }

  lemma {:induction false} ReceiveWire(r: Receiver, ps: seq<Packet>)
    ensures ReceiveAll(r, Wire(ps)) == AcceptAll(r, ps)
    decreases |ps|
  {
    if ps != [] {
      assert Wire(ps)[1..] == Wire(ps[1..]);
      ReceiveWire(Accept(r, Encode(ps[0])), ps[1..]);
    }
  }

  /** The round trip, seen from what the loop returned. */
  lemma LoopRoundTrip(c: Config, s: Session, us: seq<Unit>, clock: nat -> Clock, s': Session,
                      packets: seq<seq<Byte>>, r: Receiver)
    requires Sound(c, s) && Owed(s) == [] && InStep(c, s, r)
    requires us != [] && AllProper(us) && AllCarriable(Payloads(us)) && WellEnded(Join(us))
    requires Drained(c, DoPut(s, Join(us)), clock, s', packets)
    requires |packets| == |Pending(c, DoPut(s, Join(us)))|
    ensures |packets| == PacketCount(Payloads(us), c.max)
    ensures Sound(c, s') && InStep(c, s', ReceiveAll(r, packets))
    ensures ReceiveAll(r, packets).units == r.units + Payloads(us)
  {
    ProperRoundTrip(us);
    PacketizeLength(Payloads(us), c.max);
    var gets := Gets(clock, |packets|);
    RoundTrip(c, s, us, gets, r);
    ReceiveWire(r, Run(c, DoPut(s, Join(us)), gets).1);
  }

  /**
   One buffer, put and drained as the client does for every encoded frame: a receiver that was in
   step before has exactly the frame's units afterwards, and is in step again.
   */
  method PutAndDrain(h: PacHandle, buf: array<Byte>, clock: nat -> Clock, ghost us: seq<Unit>, ghost r: Receiver)
      returns (packets: seq<seq<Byte>>)
    requires h.Open() && r.Receiver? && r == Receiver(h.seqNum, None, r.units)
    requires buf != h.outbuf && us != [] && AllProper(us) && AllCarriable(Payloads(us)) && buf[..] == Join(us)
    modifies h, h.outbuf
    ensures h.Open() && h.Params() == old(h.Params())
    ensures |packets| == PacketCount(Payloads(us), h.maxPktLen)
    ensures ReceiveAll(r, packets) == Receiver(h.seqNum, None, r.units + Payloads(us))
  {
    ProperRoundTrip(us);
    ghost var c, s := h.Params(), Session([], [], 0, h.seqNum, h.tsCurrent);
    h.Put(buf);
    packets := Drain(h, clock);
    LoopRoundTrip(c, s, us, clock, h.View(), packets, r);
  }
}
