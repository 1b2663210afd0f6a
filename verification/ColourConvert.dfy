/**
 Packed YUYV to planar YUV 4:2:0. A picture is `2 * a` pixels wide and `2 * b` high, so that rows
 pair up and so do pixels: `a * b` chroma samples of each kind in the output.
 */
module ColourConvert {
  import opened Arithmetic
  import opened Bytes

  // ---- where things are ----

  /** The place, in the packed input, of the pixel pair that gives chroma sample `j`: upper row. */
  function Top(a: nat, j: nat): nat
    requires a > 0
  {
    4 * j + 4 * (j / a * a)
  }

  /** Sample `c` of row pair `r`: its pixel pairs are four bytes each, in rows `2 * r` and `2 * r + 1`. */
  lemma TopIs(a: nat, r: nat, c: nat)
    requires c < a
    ensures Top(a, a * r + c) == 8 * (a * r) + 4 * c
  {
    DivUnique(a * r + c, a, r, c);
  }

  lemma TopFits(a: nat, b: nat, j: nat)
    requires a > 0 && j < a * b
    ensures Top(a, j) + 4 * a + 4 <= 8 * (a * b)
  {
    var r, c := j / a, j % a;
    assert j == r * a + c;
    if r >= b {
      MulMonotone(a, b, r);
    } else {
      MulMonotone(a, r + 1, b);
    }
  }

  /** The mean of two samples, rounded down. */
  function Half(x: Byte, y: Byte): Byte {
    (x as int + y as int) / 2
  }

  /** The mean of the two rows' samples; `offset` is 1 for U and 3 for V. Both rows are always there: see TopFits. */
  function Mean(packed: seq<Byte>, a: nat, j: nat, offset: nat): Byte
    requires a > 0 && offset < 4
  {
    if Top(a, j) + 4 * a + offset < |packed|
    then Half(packed[Top(a, j) + offset], packed[Top(a, j) + 4 * a + offset]) else 0
  }

  /** Byte `p` of the output: luma, then all `n` U samples, then all `n` V samples. */
  function PlanarAt(packed: seq<Byte>, a: nat, n: nat, p: nat): Byte
    requires a > 0 && |packed| == 8 * n && p < 6 * n
  {
    if p < 4 * n then packed[2 * p]
    else if p < 5 * n then Mean(packed, a, p - 4 * n, 1)
    else Mean(packed, a, p - 5 * n, 3)
  }

  function Planar(packed: seq<Byte>, a: nat, n: nat): (out: seq<Byte>)
    requires (n > 0 ==> a > 0) && |packed| == 8 * n
    ensures |out| == 6 * n
    ensures forall p :: 0 <= p < |out| ==> out[p] == PlanarAt(packed, a, n, p)
  {
    seq(6 * n, p requires 0 <= p < 6 * n => PlanarAt(packed, a, n, p))
  }

  // ---- the conversion loop ----

  /** The output bytes written when `t` samples' rows are finished and `k` samples of the next. */
  predicate Written(a: nat, n: nat, t: nat, k: nat, p: nat) {
    || p < 4 * t + 2 * k
    || 4 * t + 2 * a <= p < 4 * t + 2 * a + 2 * k
    || 4 * n <= p < 4 * n + t + k
    || 5 * n <= p < 5 * n + t + k
  }

  /** The state of the loops: what is written is right, and was written once. */
  ghost predicate Progress(plan: seq<Byte>, a: nat, n: nat, out: seq<Byte>, writes: seq<nat>, t: nat, k: nat) {
    && |plan| == |out| == |writes| == 6 * n
    && forall p :: 0 <= p < |out| ==>
         if Written(a, n, t, k, p) then writes[p] == 1 && out[p] == plan[p] else writes[p] == 0
  }

  lemma RowFits(a: nat, b: nat, r: nat)
    requires r < b
    ensures a * (r + 1) == a * r + a <= a * b
  {
    MulMonotone(a, r + 1, b);
  }

  /** A finished row pair is the start of the next. */
  lemma RowDone(plan: seq<Byte>, a: nat, n: nat, out: seq<Byte>, writes: seq<nat>, t: nat)
    requires Progress(plan, a, n, out, writes, t, a)
    ensures Progress(plan, a, n, out, writes, t + a, 0)
  {
    forall p | 0 <= p < |out| ensures Written(a, n, t, a, p) == Written(a, n, t + a, 0, p) {
    }
  }

  /** The six places that one turn of the inner loop writes. */
  function Places(a: nat, n: nat, t: nat, k: nat): set<nat> {
    {4 * t + 2 * k, 4 * t + 2 * k + 1, 4 * t + 2 * a + 2 * k, 4 * t + 2 * a + 2 * k + 1, 4 * n + t + k, 5 * n + t + k}
  }

  lemma PlacesOf(a: nat, n: nat, t: nat, k: nat, m: nat, n1: nat, u: nat, v: nat)
    requires k < a && t + a <= n
    requires m == 4 * t + 2 * k && n1 == 4 * t + 2 * a + 2 * k && u == 4 * n + t + k && v == 5 * n + t + k
    ensures m + 1 < n1 && n1 + 1 < u < v < 6 * n
    ensures {m, m + 1, n1, n1 + 1} + {u} + {v} == Places(a, n, t, k)
    ensures u !in {m, m + 1, n1, n1 + 1} && v !in {m, m + 1, n1, n1 + 1} + {u}
  {
  }

  /** They are just what is written next. */
  lemma PlacesAreNext(a: nat, n: nat, t: nat, k: nat, p: nat)
    requires k < a && t + a <= n && p < 6 * n
    ensures p in Places(a, n, t, k) <==> !Written(a, n, t, k, p) && Written(a, n, t, k + 1, p)
    ensures Written(a, n, t, k, p) ==> Written(a, n, t, k + 1, p)
  {
  }

  /** `out'` and `writes'` come from `out` and `writes` by one right write at each of the places `ps`. */
  ghost predicate WroteAll(plan: seq<Byte>, ps: set<nat>, out: seq<Byte>, writes: seq<nat>, out': seq<Byte>, writes': seq<nat>) {
    && |plan| == |out| == |writes| == |out'| == |writes'|
    && forall p :: 0 <= p < |out| ==>
         if p in ps then out'[p] == plan[p] && writes'[p] == writes[p] + 1
         else out'[p] == out[p] && writes'[p] == writes[p]
  }

  lemma TurnDone(plan: seq<Byte>, a: nat, n: nat, out: seq<Byte>, writes: seq<nat>, t: nat, k: nat,
                 ps: set<nat>, out': seq<Byte>, writes': seq<nat>)
    requires k < a && t + a <= n && Progress(plan, a, n, out, writes, t, k)
    requires ps == Places(a, n, t, k) && WroteAll(plan, ps, out, writes, out', writes')
    ensures Progress(plan, a, n, out', writes', t, k + 1)
  {
    forall p | 0 <= p < |out'|
      ensures if Written(a, n, t, k + 1, p) then writes'[p] == 1 && out'[p] == plan[p] else writes'[p] == 0
    {
      PlacesAreNext(a, n, t, k, p);
    }
  }

  /** What the plan demands of turn `k` in the row pair whose samples begin at `t`. */
  ghost predicate TurnPlan(packed: seq<Byte>, plan: seq<Byte>, a: nat, n: nat, t: nat, k: nat)
    requires |packed| == 8 * n && |plan| == 6 * n && t + a <= n && k < a
  {
    var l1, l2 := 8 * t + 4 * k, 8 * t + 4 * a + 4 * k;
    && plan[4 * t + 2 * k] == packed[l1] && plan[4 * t + 2 * k + 1] == packed[l1 + 2]
    && plan[4 * t + 2 * a + 2 * k] == packed[l2] && plan[4 * t + 2 * a + 2 * k + 1] == packed[l2 + 2]
    && plan[4 * n + t + k] == Half(packed[l1 + 1], packed[l2 + 1])
    && plan[5 * n + t + k] == Half(packed[l1 + 3], packed[l2 + 3])
  }

  lemma PlanarTurn(packed: seq<Byte>, a: nat, n: nat, t: nat, k: nat)
    requires |packed| == 8 * n && t + a <= n && k < a && Top(a, t + k) == 8 * t + 4 * k
    ensures TurnPlan(packed, Planar(packed, a, n), a, n, t, k)
  {
  }

  lemma PlanarPlan(packed: seq<Byte>, a: nat, b: nat, r: nat)
    requires |packed| == 8 * (a * b) && r < b
    ensures a * r + a <= a * b
    ensures forall k :: 0 <= k < a ==> TurnPlan(packed, Planar(packed, a, a * b), a, a * b, a * r, k)
  {
    RowFits(a, b, r);
    var n, t := a * b, a * r;
    forall k | 0 <= k < a ensures TurnPlan(packed, Planar(packed, a, n), a, n, t, k) {
      TopIs(a, r, k);
      PlanarTurn(packed, a, n, t, k);
    }
  }

  /** The program's offsets, for width `2 * a`, in terms of the samples before row pair `r`. */
  lemma Offsets(a: nat, b: nat, r: nat)
    ensures 2 * a * (2 * b) == 4 * (a * b)
    ensures 4 * (a * b) * 5 / 4 == 5 * (a * b)
    ensures 2 * r * (2 * a) * 2 == 8 * (a * r)
    ensures (2 * r + 1) * (2 * a) * 2 == 8 * (a * r) + 4 * a
    ensures 2 * a * (2 * r) == 4 * (a * r)
    ensures 2 * a * (2 * r + 1) == 4 * (a * r) + 2 * a
  {
    assert 2 * a * (2 * b) == 4 * (a * b);
    assert 2 * r * (2 * a) == 4 * (a * r);
    assert 2 * a * (2 * r + 1) == 4 * (a * r) + 2 * a;
  }

  /** The buffer sizes the converter is opened with, for a picture of even sides. */
  lemma SizesOfEven(width: nat, height: nat)
    requires width % 2 == 0 && height % 2 == 0
    ensures width * height * 16 / 8 == 8 * (width / 2 * (height / 2))
    ensures width * height * 12 / 8 == 6 * (width / 2 * (height / 2))
  {
    var a, b := width / 2, height / 2;
    Offsets(a, b, 0);
    assert width * height == 4 * (a * b);
  }

  // ---- which sides keep the loops inside the buffers ----

  /** The turns of the inner loop: `k` takes four bytes of each row at a time. */
  function Turns(width: nat): (n: nat)
    ensures forall c: nat :: c < n <==> 4 * c < 2 * width
  {
    (width + 1) / 2
  }

  /** The eight bytes read at `line1` and `line2` and the six written are all inside the buffers. */
  predicate Fits(line1: nat, line2: nat, m: nat, n: nat, u: nat, v: nat, insize: nat, outsize: nat) {
    line1 + 4 <= insize && line2 + 4 <= insize && m + 2 <= outsize && n + 2 <= outsize && u < outsize && v < outsize
  }

  /** That is, the last of the four bytes of each row, of the two of each luma row, and the two chroma bytes. */
  lemma FitsIsEveryLast(line1: nat, line2: nat, m: nat, n: nat, u: nat, v: nat, insize: nat, outsize: nat)
    ensures Fits(line1, line2, m, n, u, v, insize, outsize) <==>
      && line1 + 3 < insize && line2 + 3 < insize
      && m + 1 < outsize && n + 1 < outsize && u < outsize && v < outsize
  {
  }

  /** The same for turn `c` of a pair of rows whose turns begin there. */
  predicate TurnFits(line1: nat, line2: nat, m: nat, n: nat, u: nat, v: nat, c: nat, insize: nat, outsize: nat) {
    Fits(line1 + 4 * c, line2 + 4 * c, m + 2 * c, n + 2 * c, u + c, v + c, insize, outsize)
  }

  /** The pixels before row pair `r`. */
  function RowsBefore(width: nat, r: nat): nat {
    if r == 0 then 0 else RowsBefore(width, r - 1) + 2 * width
  }

  /** The turns before row pair `r`. */
  function TurnsBefore(width: nat, r: nat): nat {
    if r == 0 then 0 else TurnsBefore(width, r - 1) + Turns(width)
  }

  lemma {:induction false} BeforeIs(width: nat, r: nat)
    ensures RowsBefore(width, r) == r * (2 * width) && TurnsBefore(width, r) == r * Turns(width)
  {
    if r > 0 {
      BeforeIs(width, r - 1);
    }
  }

  /** Turn `c` in the rows `2 * r` and `2 * r + 1`, for any sides, stays inside the buffers for `area` pixels. */
  predicate TurnInside(width: nat, area: nat, r: nat, c: nat) {
    var p, q := RowsBefore(width, r), TurnsBefore(width, r);
    TurnFits(2 * p, 2 * p + 2 * width, p, p + width, area + q, area * 5 / 4 + q, c, area * 16 / 8, area * 12 / 8)
  }

  predicate RowPairInside(width: nat, area: nat, r: nat) {
    forall c: nat :: c < Turns(width) ==> TurnInside(width, area, r, c)
  }

  ghost predicate AllInside(width: nat, height: nat) {
    forall r: nat :: 2 * r < height ==> RowPairInside(width, width * height, r)
  }

  lemma EvenTurnInside(a: nat, b: nat, r: nat, c: nat)
    requires r < b && c < a
    ensures TurnInside(2 * a, 2 * a * (2 * b), r, c)
  {
    AreaOfEven(a, b);
    RowFits(a, b, r);
    EvenBefore(a, r);
    EvenFits(a, a * b, a * r, c, 2 * a * (2 * b), RowsBefore(2 * a, r));
  }

  lemma AreaOfEven(a: nat, b: nat)
    ensures 2 * a * (2 * b) == 4 * (a * b)
  {
  }

  lemma {:induction false} EvenBefore(a: nat, r: nat)
    ensures RowsBefore(2 * a, r) == 4 * (a * r) && TurnsBefore(2 * a, r) == a * r
  {
    if r > 0 {
      EvenBefore(a, r - 1);
      assert a * r == a * (r - 1) + a;
    }
  }

  lemma EvenFits(a: nat, n: nat, t: nat, c: nat, area: nat, p: nat)
    requires c < a && t + a <= n && area == 4 * n && p == 4 * t
    ensures Fits(2 * p + 4 * c, 2 * p + 2 * (2 * a) + 4 * c, p + 2 * c, p + 2 * a + 2 * c,
                 area + t + c, area * 5 / 4 + t + c, area * 16 / 8, area * 12 / 8)
  {
  }

  /** The lower row that the last pair of an odd height needs is not there. */
  lemma OddHeightLeaves(width: nat, b: nat)
    requires width > 0
    ensures !TurnInside(width, width * (2 * b + 1), b, 0)
  {
    BeforeIs(width, b);
    OddArea(width, b);
    LowerRowOutside(width, width * (2 * b + 1), b);
  }

  lemma OddArea(width: nat, b: nat)
    ensures width * (2 * b + 1) == b * (2 * width) + width
  {
  }

  lemma LowerRowOutside(width: nat, area: nat, r: nat)
    requires area == RowsBefore(width, r) + width
    ensures !TurnInside(width, area, r, 0)
  {
  }

  /** Nor are the last two of the four bytes that the last turn in a row of odd width needs. */
  lemma OddWidthLeaves(width: nat, b: nat)
    requires b > 0 && width % 2 == 1
    ensures !TurnInside(width, width * (2 * b), b - 1, width / 2)
  {
    BeforeIs(width, b - 1);
    EvenArea(width, b);
    LastTurnOutside(width, width * (2 * b), b - 1);
  }

  lemma EvenArea(width: nat, b: nat)
    requires b > 0
    ensures width * (2 * b) == (b - 1) * (2 * width) + 2 * width
  {
  }

  lemma LastTurnOutside(width: nat, area: nat, r: nat)
    requires area == RowsBefore(width, r) + 2 * width && width % 2 == 1
    ensures !TurnInside(width, area, r, width / 2)
  {
  }

  /** Every turn of the loops stays inside the buffers if and only if both sides are even, or there is no turn at all. */
  lemma InsideExactlyWhenEven(width: nat, height: nat)
    ensures AllInside(width, height) <==> width == 0 || height == 0 || (width % 2 == 0 && height % 2 == 0)
  {
    var a, b := width / 2, height / 2;
    if width > 0 && height % 2 == 1 {
      OddHeightLeaves(width, b);
      assert !RowPairInside(width, width * height, b);
    } else if width % 2 == 1 && height > 0 {
      OddWidthLeaves(width, b);
      assert !RowPairInside(width, width * height, b - 1);
    } else if width > 0 {
      forall r: nat, c: nat | r < b && c < a ensures TurnInside(width, width * height, r, c) {
        EvenTurnInside(a, b, r, c);
      }
    }
  }

  /** A picture of 3 by 2: of the twelve bytes, the second turn reads up to the fourteenth. */
  lemma ThreeByTwoReadsOutside()
    ensures Turns(3) == 2 && 3 * 2 * 16 / 8 == 12
    ensures TurnInside(3, 3 * 2, 0, 0) && !TurnInside(3, 3 * 2, 0, 1)
  {
  }

  /** The inner loop with its offsets alone: whether every turn stays inside, and where the samples continue. */
  method RowPairOffsets(width: nat, line1: nat, line2: nat, m: nat, n: nat, u: nat, v: nat, insize: nat, outsize: nat)
      returns (inside: bool, u': nat, v': nat)
    ensures inside <==> forall c: nat :: c < Turns(width) ==> TurnFits(line1, line2, m, n, u, v, c, insize, outsize)
    ensures u' == u + Turns(width) && v' == v + Turns(width)
  {
    var l1, l2, m1, n1 := line1, line2, m, n;
    inside, u', v' := true, u, v;
    ghost var turn: nat := 0;
    var k := 0;
    while k < width * 2
      invariant k == 4 * turn && turn <= Turns(width)
      invariant l1 == line1 + k && l2 == line2 + k && m1 == m + 2 * turn && n1 == n + 2 * turn
      invariant u' == u + turn && v' == v + turn
      invariant inside <==> forall c: nat :: c < turn ==> TurnFits(line1, line2, m, n, u, v, c, insize, outsize)
    {
      assert TurnFits(line1, line2, m, n, u, v, turn, insize, outsize) == Fits(l1, l2, m1, n1, u', v', insize, outsize);
      inside := inside && Fits(l1, l2, m1, n1, u', v', insize, outsize);
      l1, l2, m1, n1, u', v' := l1 + 4, l2 + 4, m1 + 2, n1 + 2, u' + 1, v' + 1;
      k, turn := k + 4, turn + 1;
    }
  }

  lemma OffsetsOf(width: nat, r: nat, i: nat, j: nat)
    requires i == 2 * r && j == i + 1
    ensures i * width * 2 == 2 * RowsBefore(width, r) && j * width * 2 == 2 * RowsBefore(width, r) + 2 * width
    ensures width * i == RowsBefore(width, r) && width * j == RowsBefore(width, r) + width
  {
    BeforeIs(width, r);
    assert width * i == r * (2 * width);
    assert width * j == width * i + width;
  }

  /** One turn of the outer loop. */
  method RowPairAt(width: nat, area: nat, i: nat, j: nat, y: nat, u: nat, v: nat, ghost r: nat)
      returns (inside: bool, y': nat, u': nat, v': nat)
    requires i == y == 2 * r && j == i + 1 && u == area + TurnsBefore(width, r) && v == area * 5 / 4 + TurnsBefore(width, r)
    ensures inside <==> RowPairInside(width, area, r)
    ensures y' == y + 2 && u' == u + Turns(width) && v' == v + Turns(width)
  {
    OffsetsOf(width, r, i, j);
    var line1, line2 := i * width * 2, j * width * 2;
    var m := width * y;
    y' := y + 1;
    var n := width * y';
    y' := y' + 1;
    assert y == i && y + 1 == j;
    inside, u', v' := RowPairOffsets(width, line1, line2, m, n, u, v, area * 16 / 8, area * 12 / 8);
    assert forall c: nat :: TurnInside(width, area, r, c) == TurnFits(line1, line2, m, n, u, v, c, area * 16 / 8, area * 12 / 8);
  }

  /** Both loops with their offsets alone, for any sides. */
  method LoopOffsets(width: nat, height: nat) returns (inside: bool)
    ensures inside <==> AllInside(width, height)
  {
    var area := width * height;
    var u, v := area, area * 5 / 4;
    inside := true;
    ghost var r: nat := 0;
    var y, i, j := 0, 0, 1;
    while i < height
      invariant i == y == 2 * r && j == i + 1
      invariant u == area + TurnsBefore(width, r) && v == area * 5 / 4 + TurnsBefore(width, r)
      invariant inside <==> forall q: nat :: q < r && 2 * q < height ==> RowPairInside(width, area, q)
    {
      var fits;
      fits, y, u, v := RowPairAt(width, area, i, j, y, u, v, r);
      inside := inside && fits;
      i, j, r := i + 2, j + 2, r + 1;
    }
  }

  class Converter {
    const inbuf: array<Byte>
    const outbuf: array<Byte>
    ghost var writes: seq<nat>    // how often each output byte has been written

    constructor (inbuf: array<Byte>, outbuf: array<Byte>)
      ensures this.inbuf == inbuf && this.outbuf == outbuf
    {
      this.inbuf, this.outbuf := inbuf, outbuf;
      writes := [];
    }

    ghost predicate At(plan: seq<Byte>, a: nat, n: nat, t: nat, k: nat)
      reads this, outbuf
    {
      inbuf != outbuf && Progress(plan, a, n, outbuf[..], writes, t, k)
    }

    /** Store one right byte at a place not yet in `ps`. */
    method Write(p: nat, value: Byte, ghost plan: seq<Byte>, ghost ps: set<nat>, ghost out: seq<Byte>, ghost ws: seq<nat>)
        returns (ghost ps': set<nat>)
      requires p < outbuf.Length == |plan| && value == plan[p] && p !in ps
      requires WroteAll(plan, ps, out, ws, outbuf[..], writes)
      modifies this`writes, outbuf
      ensures ps' == ps + {p} && WroteAll(plan, ps', out, ws, outbuf[..], writes)
    {
      outbuf[p] := value;
      writes := writes[p := writes[p] + 1];
      ps' := ps + {p};
    }

    /** The luma half of a turn. */
    method StoreLuma(m: nat, n1: nat, y1: Byte, y2: Byte, y3: Byte, y4: Byte,
                     ghost plan: seq<Byte>, ghost out: seq<Byte>, ghost ws: seq<nat>) returns (ghost ps: set<nat>)
      requires m + 1 < n1 && n1 + 1 < outbuf.Length == |plan|
      requires y1 == plan[m] && y2 == plan[m + 1] && y3 == plan[n1] && y4 == plan[n1 + 1]
      requires WroteAll(plan, {}, out, ws, outbuf[..], writes)
      modifies this`writes, outbuf
      ensures ps == {m, m + 1, n1, n1 + 1} && WroteAll(plan, ps, out, ws, outbuf[..], writes)
    {
      ps := Write(m, y1, plan, {}, out, ws);
      ps := Write(m + 1, y2, plan, ps, out, ws);
      ps := Write(n1, y3, plan, ps, out, ws);
      ps := Write(n1 + 1, y4, plan, ps, out, ws);
    }

    /** One turn of the inner loop: eight bytes read, six written. */
    method FourPixels(ghost plan: seq<Byte>, ghost a: nat, ghost n: nat, ghost t: nat, ghost k: nat,
                      line1: nat, line2: nat, m: nat, n1: nat, u: nat, v: nat)
      requires k < a && t + a <= n && At(plan, a, n, t, k) && inbuf.Length == 8 * n
      requires TurnPlan(inbuf[..], plan, a, n, t, k)
      requires line1 == 8 * t + 4 * k && line2 == 8 * t + 4 * a + 4 * k
      requires m == 4 * t + 2 * k && n1 == 4 * t + 2 * a + 2 * k && u == 4 * n + t + k && v == 5 * n + t + k
      modifies this`writes, outbuf
      ensures At(plan, a, n, t, k + 1)
    {
      ghost var out, ws := outbuf[..], writes;
      var y1, u1, y2, v1 := inbuf[line1], inbuf[line1 + 1], inbuf[line1 + 2], inbuf[line1 + 3];
      var y3, u2, y4, v2 := inbuf[line2], inbuf[line2 + 1], inbuf[line2 + 2], inbuf[line2 + 3];
      PlacesOf(a, n, t, k, m, n1, u, v);
      ghost var ps := StoreLuma(m, n1, y1, y2, y3, y4, plan, out, ws);
      ps := Write(u, Half(u1, u2), plan, ps, out, ws);
      ps := Write(v, Half(v1, v2), plan, ps, out, ws);
      TurnDone(plan, a, n, out, ws, t, k, ps, outbuf[..], writes);
    }

    /** The inner loop: one pair of rows. */
    method RowPair(ghost plan: seq<Byte>, ghost a: nat, ghost samples: nat, ghost t: nat, width: nat,
                   line1: nat, line2: nat, m: nat, n: nat, u: nat, v: nat) returns (u': nat, v': nat)
      requires width == 2 * a && inbuf.Length == 8 * samples && t + a <= samples && At(plan, a, samples, t, 0)
      requires forall k :: 0 <= k < a ==> TurnPlan(inbuf[..], plan, a, samples, t, k)
      requires line1 == 8 * t && line2 == 8 * t + 4 * a && m == 4 * t && n == 4 * t + 2 * a
      requires u == 4 * samples + t && v == 5 * samples + t
      modifies this`writes, outbuf
      ensures At(plan, a, samples, t, a)
      ensures u' == u + a && v' == v + a
    {
      ghost var packed := inbuf[..];
      var l1, l2, m1, n1 := line1, line2, m, n;
      u', v' := u, v;
      ghost var turn: nat := 0;
      var k := 0;
      while k < width * 2
        invariant k == 4 * turn && turn <= a && inbuf[..] == packed
        invariant l1 == line1 + k && l2 == line2 + k && m1 == m + 2 * turn && n1 == n + 2 * turn
        invariant u' == u + turn && v' == v + turn
        invariant At(plan, a, samples, t, turn)
      {
        FourPixels(plan, a, samples, t, turn, l1, l2, m1, n1, u', v');
        l1, l2, m1, n1, u', v' := l1 + 4, l2 + 4, m1 + 2, n1 + 2, u' + 1, v' + 1;
        k, turn := k + 4, turn + 1;
      }
    }

    /** The whole conversion: every byte of the planar picture is written, right, and once. */
    method Yuv422ToYuv420(width: nat, height: nat)
      requires width % 2 == 0 && height % 2 == 0 && inbuf != outbuf
      requires inbuf.Length == 8 * (width / 2 * (height / 2)) && outbuf.Length == 6 * (width / 2 * (height / 2))
      modifies this`writes, outbuf
      ensures outbuf[..] == Planar(inbuf[..], width / 2, width / 2 * (height / 2))
      ensures |writes| == outbuf.Length && forall p :: 0 <= p < |writes| ==> writes[p] == 1
    {
      ghost var a, b := width / 2, height / 2;
      ghost var packed := inbuf[..];
      ghost var plan := Planar(packed, a, a * b);
      writes := seq(outbuf.Length, _ => 0);
      Offsets(a, b, 0);
      var u := width * height;
      var v := width * height * 5 / 4;
      var y, i, j := 0, 0, 1;
      while i < height
        invariant i % 2 == 0 && i / 2 <= b && j == i + 1 && y == i && inbuf[..] == packed
        invariant u == 4 * (a * b) + a * (i / 2) && v == 5 * (a * b) + a * (i / 2)
        invariant At(plan, a, a * b, a * (i / 2), 0)
      {
        ghost var r := i / 2;
        Offsets(a, b, r);
        RowFits(a, b, r);
        PlanarPlan(packed, a, b, r);
        var line1, line2 := i * width * 2, j * width * 2;
        var m := width * y;
        y := y + 1;
        var n := width * y;
        y := y + 1;
        u, v := RowPair(plan, a, a * b, a * r, width, line1, line2, m, n, u, v);
        RowDone(plan, a, a * b, outbuf[..], writes, a * r);
        i, j := i + 2, j + 2;
      }
      AllWritten(plan, a, a * b, outbuf[..], writes);
    }
  }

  lemma AllWritten(plan: seq<Byte>, a: nat, n: nat, out: seq<Byte>, writes: seq<nat>)
    requires Progress(plan, a, n, out, writes, n, 0)
    ensures out == plan && forall p :: 0 <= p < |writes| ==> writes[p] == 1
  {
    forall p | 0 <= p < |out| ensures out[p] == plan[p] && writes[p] == 1 {
      assert Written(a, n, n, 0, p);
    }
  }

  // ---- what the output means ----

  /** `mean` is half the sum of the two, or the half below it. */
  predicate RoundedDown(mean: Byte, x: Byte, y: Byte) {
    2 * mean <= x + y < 2 * mean + 2
  }

  /**
   Pixel pair `c` of a row pair whose samples begin at `t`, in its upper and its lower row of `4 * a` bytes: luma is
   copied, and each chroma sample is the mean of the two rows, rounded down.
   */
  predicate PairMeaning(packed: seq<Byte>, out: seq<Byte>, a: nat, n: nat, t: nat, c: nat)
    requires |packed| == 8 * n && |out| == 6 * n && t + a <= n && c < a
  {
    var upper, lower := 8 * t + 4 * c, 8 * t + 4 * a + 4 * c;
    && out[4 * t + 2 * c] == packed[upper] && out[4 * t + 2 * c + 1] == packed[upper + 2]
    && out[4 * t + 2 * a + 2 * c] == packed[lower] && out[4 * t + 2 * a + 2 * c + 1] == packed[lower + 2]
    && RoundedDown(out[4 * n + t + c], packed[upper + 1], packed[lower + 1])
    && RoundedDown(out[5 * n + t + c], packed[upper + 3], packed[lower + 3])
  }

  lemma HalfRounds(x: Byte, y: Byte, mean: Byte)
    requires mean == Half(x, y)
    ensures RoundedDown(mean, x, y)
  {
  }

  lemma TurnMeaning(packed: seq<Byte>, out: seq<Byte>, a: nat, n: nat, t: nat, c: nat)
    requires |packed| == 8 * n && |out| == 6 * n && t + a <= n && c < a && TurnPlan(packed, out, a, n, t, c)
    ensures PairMeaning(packed, out, a, n, t, c)
  {
    var upper, lower := 8 * t + 4 * c, 8 * t + 4 * a + 4 * c;
    HalfRounds(packed[upper + 1], packed[lower + 1], out[4 * n + t + c]);
    HalfRounds(packed[upper + 3], packed[lower + 3], out[5 * n + t + c]);
  }

  /** The meaning of the picture converted, by row pair and pixel pair. */
  lemma PlanarMeaning(packed: seq<Byte>, a: nat, b: nat, r: nat, c: nat)
    requires a > 0 && |packed| == 8 * (a * b) && r < b && c < a
    ensures a * r + a <= a * b
    ensures PairMeaning(packed, Planar(packed, a, a * b), a, a * b, a * r, c)
  {
    PlanarPlan(packed, a, b, r);
    TurnMeaning(packed, Planar(packed, a, a * b), a, a * b, a * r, c);
  }

  /** The chroma sample that serves pixel pair `g`, counted row by row through the picture. */
  function SampleOf(a: nat, g: nat): nat
    requires a > 0
  {
    g / a / 2 * a + g % a
  }

  /** Byte `q` of the packed picture that repeats every chroma row of a planar one. */
  function UpsampledAt(out: seq<Byte>, a: nat, n: nat, q: nat): Byte
    requires a > 0 && |out| == 6 * n && q < 8 * n
  {
    var g := q / 4;
    if q % 4 == 0 then out[2 * g]
    else if q % 4 == 2 then out[2 * g + 1]
    else if SampleOf(a, g) >= n then 0
    else if q % 4 == 1 then out[4 * n + SampleOf(a, g)]
    else out[5 * n + SampleOf(a, g)]
  }

  lemma SampleIs(a: nat, r: nat, c: nat, half: nat)
    requires c < a && half < 2
    ensures SampleOf(a, 2 * (a * r) + a * half + c) == a * r + c
  {
    var g := 2 * (a * r) + a * half + c;
    assert g == (2 * r + half) * a + c;
    DivUnique(g, a, 2 * r + half, c);
    assert g / a / 2 == r;
  }

  /** Pixel pair `g` by its row pair, the half of that it is in, and its place in the row. */
  lemma PairSplit(a: nat, g: nat)
    requires a > 0
    ensures g == 2 * (a * (g / a / 2)) + (if g / a % 2 == 0 then 0 else a) + g % a
  {
    var row := g / a;
    HalfRow(a, row);
    assert g == a * row + g % a;
  }

  lemma HalfRow(a: nat, row: nat)
    ensures a * row == 2 * (a * (row / 2)) + (if row % 2 == 0 then 0 else a)
  {
    var r := row / 2;
    if row % 2 == 0 {
      assert row == 2 * r;
      assert a * (2 * r) == 2 * (a * r);
    } else {
      assert row == 2 * r + 1;
      assert a * (2 * r + 1) == 2 * (a * r) + a;
    }
  }

  lemma PairRow(a: nat, b: nat, g: nat)
    requires a > 0 && g < 2 * (a * b)
    ensures g / a / 2 < b
  {
    var row := g / a;
    assert g >= a * row;
    assert a * (2 * b) == 2 * (a * b);
    if row >= 2 * b {
      MulMonotone(a, 2 * b, row);
    }
  }

  /** The sample of pixel pair `g`, by row pair and place in the row. */
  lemma SamplePlace(a: nat, g: nat)
    requires a > 0
    ensures SampleOf(a, g) == a * (g / a / 2) + g % a
    ensures Top(a, SampleOf(a, g)) == 8 * (a * (g / a / 2)) + 4 * (g % a)
  {
    TopIs(a, g / a / 2, g % a);
  }

  lemma SampleInside(a: nat, b: nat, g: nat)
    requires a > 0 && g < 2 * (a * b)
    ensures SampleOf(a, g) < a * b
  {
    var r, c := g / a / 2, g % a;
    PairRow(a, b, g);
    RowFits(a, b, r);
    SamplePlace(a, g);
  }

  lemma PairTop(a: nat, g: nat)
    requires a > 0
    ensures 4 * g == Top(a, SampleOf(a, g)) + (if g / a % 2 == 0 then 0 else 4 * a)
  {
    PairSplit(a, g);
    SamplePlace(a, g);
    PairBytes(g, a * (g / a / 2), g % a, a, g / a % 2 == 0);
  }

  /** The pixel pair `g` is in the upper or the lower row of its sample. */
  lemma PairPlace(a: nat, b: nat, g: nat)
    requires a > 0 && g < 2 * (a * b)
    ensures SampleOf(a, g) < a * b
    ensures 4 * g == Top(a, SampleOf(a, g)) + (if g / a % 2 == 0 then 0 else 4 * a)
  {
    SampleInside(a, b, g);
    PairTop(a, g);
  }

  lemma PairBytes(g: nat, t: nat, c: nat, a: nat, upper: bool)
    requires g == 2 * t + (if upper then 0 else a) + c
    ensures 4 * g == 8 * t + 4 * c + (if upper then 0 else 4 * a)
  {
  }

  /** Both pixel pairs of a sample lead back to it. */
  lemma BothRows(a: nat, j: nat)
    requires a > 0
    ensures Top(a, j) % 4 == 0
    ensures SampleOf(a, Top(a, j) / 4) == j && SampleOf(a, Top(a, j) / 4 + a) == j
  {
    var r, c := j / a, j % a;
    assert j == a * r + c;
    TopIs(a, r, c);
    SampleIs(a, r, c, 0);
    SampleIs(a, r, c, 1);
    assert Top(a, j) / 4 == 2 * (a * r) + c;
  }

  /** The two rows of sample `j` have the same chroma. */
  ghost predicate RowsAgree(packed: seq<Byte>, a: nat, j: nat)
    requires a > 0
  {
    && Top(a, j) + 4 * a + 3 < |packed|
    && packed[Top(a, j) + 1] == packed[Top(a, j) + 4 * a + 1]
    && packed[Top(a, j) + 3] == packed[Top(a, j) + 4 * a + 3]
  }

  ghost predicate Recovered(packed: seq<Byte>, a: nat, n: nat, q: nat)
    requires a > 0 && |packed| == 8 * n && q < 8 * n
  {
    UpsampledAt(Planar(packed, a, n), a, n, q) == packed[q]
  }

  lemma LumaPlaces(packed: seq<Byte>, a: nat, n: nat, g: nat)
    requires a > 0 && |packed| == 8 * n && g < 2 * n
    ensures Planar(packed, a, n)[2 * g] == packed[4 * g] && Planar(packed, a, n)[2 * g + 1] == packed[4 * g + 2]
  {
  }

  lemma FirstLuma(packed: seq<Byte>, a: nat, n: nat, g: nat)
    requires a > 0 && |packed| == 8 * n && g < 2 * n
    ensures Recovered(packed, a, n, 4 * g)
  {
    DivUnique(4 * g, 4, g, 0);
    LumaPlaces(packed, a, n, g);
  }

  lemma SecondLuma(packed: seq<Byte>, a: nat, n: nat, g: nat)
    requires a > 0 && |packed| == 8 * n && g < 2 * n
    ensures Recovered(packed, a, n, 4 * g + 2)
  {
    DivUnique(4 * g + 2, 4, g, 2);
    LumaPlaces(packed, a, n, g);
  }

  /** Converting and repeating keeps luma. */
  lemma LumaRecovered(packed: seq<Byte>, a: nat, n: nat, q: nat)
    requires a > 0 && |packed| == 8 * n && q < 8 * n && q % 2 == 0
    ensures Recovered(packed, a, n, q)
  {
    EvenPlace(q);
    FirstLuma(packed, a, n, q / 4);
    SecondLuma(packed, a, n, q / 4);
  }

  lemma EvenPlace(q: nat)
    requires q % 2 == 0
    ensures q == 4 * (q / 4) || q == 4 * (q / 4) + 2
  {
    var g := q / 4;
    DivUnique(4 * g + 1, 2, 2 * g, 1);
    DivUnique(4 * g + 3, 2, 2 * g + 1, 1);
    assert q == 4 * g + q % 4;
  }

  /** It gives chroma the mean of its two rows. */
  lemma ChromaMean(packed: seq<Byte>, a: nat, n: nat, q: nat)
    requires a > 0 && |packed| == 8 * n && q < 8 * n && q % 2 == 1 && SampleOf(a, q / 4) < n
    ensures UpsampledAt(Planar(packed, a, n), a, n, q) == Mean(packed, a, SampleOf(a, q / 4), q % 4)
  {
    var g := q / 4;
    ChromaPlaces(packed, a, n, SampleOf(a, g));
    OddPlace(q);
    ChromaOf(Planar(packed, a, n), a, n, g, q % 4);
  }

  lemma OddPlace(q: nat)
    requires q % 2 == 1
    ensures (q % 4 == 1 || q % 4 == 3) && q == 4 * (q / 4) + q % 4
  {
    var g := q / 4;
    DivUnique(4 * g, 2, 2 * g, 0);
    DivUnique(4 * g + 2, 2, 2 * g + 1, 0);
    assert q == 4 * g + q % 4;
  }

  /** The chroma bytes of pixel pair `g`. */
  lemma ChromaOf(out: seq<Byte>, a: nat, n: nat, g: nat, offset: nat)
    requires a > 0 && |out| == 6 * n && g < 2 * n && (offset == 1 || offset == 3) && SampleOf(a, g) < n
    ensures UpsampledAt(out, a, n, 4 * g + offset) == out[(if offset == 1 then 4 * n else 5 * n) + SampleOf(a, g)]
  {
    Quarter(g, offset);
  }

  lemma ChromaPlaces(packed: seq<Byte>, a: nat, n: nat, j: nat)
    requires a > 0 && |packed| == 8 * n && j < n
    ensures Planar(packed, a, n)[4 * n + j] == Mean(packed, a, j, 1)
    ensures Planar(packed, a, n)[5 * n + j] == Mean(packed, a, j, 3)
  {
  }

  lemma RecoveredWhenAgree(packed: seq<Byte>, a: nat, b: nat, q: nat)
    requires a > 0 && |packed| == 8 * (a * b) && q < 8 * (a * b)
    requires forall j :: 0 <= j < a * b ==> RowsAgree(packed, a, j)
    ensures Recovered(packed, a, a * b, q)
  {
    PairPlace(a, b, q / 4);
    assert RowsAgree(packed, a, SampleOf(a, q / 4));
    if q % 2 == 0 {
      LumaRecovered(packed, a, a * b, q);
    } else {
      ChromaMean(packed, a, a * b, q);
    }
  }

  /** Pixel pairs served by the same chroma sample are given the same chroma. */
  lemma SameSampleSameByte(out: seq<Byte>, a: nat, n: nat, g1: nat, g2: nat, offset: nat)
    requires a > 0 && |out| == 6 * n && g1 < 2 * n && g2 < 2 * n && (offset == 1 || offset == 3)
    requires SampleOf(a, g1) == SampleOf(a, g2)
    ensures UpsampledAt(out, a, n, 4 * g1 + offset) == UpsampledAt(out, a, n, 4 * g2 + offset)
  {
    Quarter(g1, offset);
    Quarter(g2, offset);
  }

  lemma Quarter(k: nat, offset: nat)
    requires offset == 1 || offset == 3
    ensures (4 * k + offset) / 4 == k && (4 * k + offset) % 4 == offset && (4 * k + offset) % 2 == 1
  {
    DivUnique(4 * k + offset, 4, k, offset);
    DivUnique(4 * k + offset, 2, 2 * k + (if offset == 1 then 0 else 1), 1);
  }

  lemma AgreeWhenRecovered(packed: seq<Byte>, a: nat, b: nat, j: nat)
    requires a > 0 && |packed| == 8 * (a * b) && j < a * b
    requires forall q :: 0 <= q < 8 * (a * b) ==> Recovered(packed, a, a * b, q)
    ensures RowsAgree(packed, a, j)
  {
    TopFits(a, b, j);
    BothRows(a, j);
    var k := Top(a, j) / 4;
    assert Top(a, j) == 4 * k;
    SameWhenRecovered(packed, a, a * b, k, 1);
    SameWhenRecovered(packed, a, a * b, k, 3);
  }

  lemma SameWhenRecovered(packed: seq<Byte>, a: nat, n: nat, k: nat, offset: nat)
    requires a > 0 && |packed| == 8 * n && k + a < 2 * n && SampleOf(a, k) == SampleOf(a, k + a)
    requires offset == 1 || offset == 3
    ensures Recovered(packed, a, n, 4 * k + offset) && Recovered(packed, a, n, 4 * (k + a) + offset) ==>
              packed[4 * k + offset] == packed[4 * (k + a) + offset]
  {
    SameSampleSameByte(Planar(packed, a, n), a, n, k, k + a, offset);
  }

  /** What is lost: repeating the chroma rows recovers the picture exactly when paired rows agree. */
  lemma RecoveredExactlyWhenRowsAgree(packed: seq<Byte>, a: nat, b: nat)
    requires a > 0 && |packed| == 8 * (a * b)
    ensures (forall q :: 0 <= q < 8 * (a * b) ==> Recovered(packed, a, a * b, q))
       <==> (forall j :: 0 <= j < a * b ==> RowsAgree(packed, a, j))
  {
    if forall j :: 0 <= j < a * b ==> RowsAgree(packed, a, j) {
      forall q | 0 <= q < 8 * (a * b) ensures Recovered(packed, a, a * b, q) {
        RecoveredWhenAgree(packed, a, b, q);
      }
    }
    if forall q :: 0 <= q < 8 * (a * b) ==> Recovered(packed, a, a * b, q) {
      forall j | 0 <= j < a * b ensures RowsAgree(packed, a, j) {
        AgreeWhenRecovered(packed, a, b, j);
      }
    }
  }
}
