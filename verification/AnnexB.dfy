/**
 The byte stream format of Annex B of ITU-T H.264: NAL units, each behind a start code.
 `Split` is the meaning of repeated scanning; `Join` is the format itself.
 */
module AnnexB {
  import opened Bytes

  datatype Unit = Unit(prefix: nat, data: seq<Byte>)

  predicate Code3At(s: seq<Byte>, p: nat) {
    p + 3 <= |s| && s[p] == 0 && s[p + 1] == 0 && s[p + 2] == 1
  }

  predicate Code4At(s: seq<Byte>, p: nat) {
    p + 4 <= |s| && s[p] == 0 && s[p + 1] == 0 && s[p + 2] == 0 && s[p + 3] == 1
  }

  predicate CodeAt(s: seq<Byte>, p: nat) {
    Code3At(s, p) || Code4At(s, p)
  }

  /** What the scanner demands of a buffer so that no look-ahead leaves it. */
  predicate WellEnded(s: seq<Byte>) {
    && |s| > 0
    && s[|s| - 1] != 0
    && !(|s| >= 3 && s[|s| - 3] == 0 && s[|s| - 2] == 0 && s[|s| - 1] == 1)
  }

  function PrefixLen(s: seq<Byte>, p: nat): nat {
    if Code3At(s, p) then 3 else if Code4At(s, p) then 4 else 0
  }

  /** The first start code at or after `p`, or the end of the buffer. */
  function NextCode(s: seq<Byte>, p: nat): (q: nat)
    requires p <= |s|
    ensures p <= q <= |s|
    ensures q < |s| ==> CodeAt(s, q)
    ensures forall r :: p <= r < q ==> !CodeAt(s, r)
    decreases |s| - p
  {
    if p == |s| || CodeAt(s, p) then p else NextCode(s, p + 1)
  }

  /** A start code is never the last thing in a well-ended buffer. */
  lemma CodeLeavesData(s: seq<Byte>, p: nat)
    requires WellEnded(s) && CodeAt(s, p)
    ensures p + PrefixLen(s, p) < |s|
  {
  }

  /** The units found by scanning from `p`; nothing when there is no start code at `p`. */
  function Split(s: seq<Byte>, p: nat): seq<Unit>
    requires WellEnded(s) && p <= |s|
    decreases |s| - p
  {
    if !CodeAt(s, p) then []
    else
      CodeLeavesData(s, p);
      var d := p + PrefixLen(s, p);
      var q := NextCode(s, d + 1);
      [Unit(PrefixLen(s, p), s[d..q])] + Split(s, q)
  }

  function StartCode(prefix: nat): seq<Byte> {
    if prefix == 3 then [0, 0, 1] else [0, 0, 0, 1]
  }

  function Join(us: seq<Unit>): seq<Byte> {
    if us == [] then [] else StartCode(us[0].prefix) + us[0].data + Join(us[1..])
  }

  /** What scanning alone guarantees of a unit: a start code before it, none after its first byte. */
  predicate Scanned(u: Unit) {
    && (u.prefix == 3 || u.prefix == 4)
    && u.data != []
    && forall k :: 1 <= k < |u.data| ==> !Code3At(u.data, k)
  }

  /** A unit as an encoder emits it: no start code inside, no trailing zero byte. */
  predicate Proper(u: Unit) {
    && (u.prefix == 3 || u.prefix == 4)
    && u.data != []
    && u.data[|u.data| - 1] != 0
    && forall k :: 0 <= k < |u.data| ==> !Code3At(u.data, k)
  }

  predicate AllPrefixed(us: seq<Unit>) {
    forall i :: 0 <= i < |us| ==> (us[i].prefix == 3 || us[i].prefix == 4) && us[i].data != []
  }

  predicate AllScanned(us: seq<Unit>) {
    forall i :: 0 <= i < |us| ==> Scanned(us[i])
  }

  predicate AllProper(us: seq<Unit>) {
    forall i :: 0 <= i < |us| ==> Proper(us[i])
  }

  /** The end of `u` and the start code of the next unit would read as a longer start code. */
  predicate Blurs(u: Unit, next: Unit) {
    |u.data| >= 2 && u.data[|u.data| - 1] == 0 && next.prefix == 3
  }

  /** A caller's check on a list of units: it is exactly what makes the split undo the join. */
  predicate Separable(us: seq<Unit>) {
    && AllScanned(us)
    && forall i :: 0 <= i < |us| - 1 ==> !Blurs(us[i], us[i + 1])
  }

  function Payloads(us: seq<Unit>): (ds: seq<seq<Byte>>)
    ensures |ds| == |us| && forall i :: 0 <= i < |us| ==> ds[i] == us[i].data
  {
    seq(|us|, i requires 0 <= i < |us| => us[i].data)
  }

  /** The bytes of a start code: two or three zeros and a one. */
  predicate ZerosAndOne(s: seq<Byte>, p: nat, zeros: nat) {
    p + zeros < |s| && s[p + zeros] == 1 && forall k :: p <= k < p + zeros ==> s[k] == 0
  }

  lemma CodeBytes(s: seq<Byte>, p: nat)
    ensures Code3At(s, p) <==> ZerosAndOne(s, p, 2)
    ensures Code4At(s, p) <==> ZerosAndOne(s, p, 3)
    ensures PrefixLen(s, p) == if ZerosAndOne(s, p, 2) then 3 else if ZerosAndOne(s, p, 3) then 4 else 0
  {
    assert ZerosAndOne(s, p, 2) ==> s[p] == 0 && s[p + 1] == 0;
    assert ZerosAndOne(s, p, 3) ==> s[p] == 0 && s[p + 1] == 0 && s[p + 2] == 0;
  }

  /**
   The first unit found at `p`, byte by byte: none without a start code there, else what is behind it up to the
   next place, from the unit's second byte on, where a start code is, or up to the end.
   */
  lemma FirstUnitBytes(s: seq<Byte>, p: nat, zeros: nat, q: nat)
    requires WellEnded(s) && p <= |s| && (zeros == 2 || zeros == 3) && ZerosAndOne(s, p, zeros)
    requires p + zeros + 2 <= q <= |s| && (q < |s| ==> ZerosAndOne(s, q, 2) || ZerosAndOne(s, q, 3))
    requires forall r :: p + zeros + 2 <= r < q ==> !ZerosAndOne(s, r, 2) && !ZerosAndOne(s, r, 3)
    ensures Split(s, p) == [Unit(zeros + 1, s[p + zeros + 1..q])] + Split(s, q)
  {
    CodeBytes(s, p);
    NextCodeBytes(s, p + zeros + 2, q);
    SplitStep(s, p, Unit(zeros + 1, s[p + zeros + 1..q]), p + zeros + 1, q);
  }

  /** Where the scan stops, byte by byte. */
  lemma NextCodeBytes(s: seq<Byte>, p: nat, q: nat)
    requires p <= q <= |s| && (q < |s| ==> ZerosAndOne(s, q, 2) || ZerosAndOne(s, q, 3))
    requires forall r :: p <= r < q ==> !ZerosAndOne(s, r, 2) && !ZerosAndOne(s, r, 3)
    ensures NextCode(s, p) == q
  {
    CodeBytes(s, q);
    forall r | p <= r < q ensures !CodeAt(s, r) {
      CodeBytes(s, r);
    }
    NextCodeIs(s, p, q);
  }

  lemma NoUnitWithoutCode(s: seq<Byte>, p: nat)
    requires WellEnded(s) && p <= |s|
    ensures Split(s, p) == [] <==> !ZerosAndOne(s, p, 2) && !ZerosAndOne(s, p, 3)
  {
    CodeBytes(s, p);
  }

  /** The format, byte by byte: two or three zeros and a one before each unit. */
  lemma JoinBytes(prefix: nat, data: seq<Byte>, us: seq<Unit>)
    requires prefix == 3 || prefix == 4
    ensures Join([Unit(prefix, data)] + us) == (if prefix == 3 then [0, 0, 1] else [0, 0, 0, 1]) + data + Join(us)
  {
    assert ([Unit(prefix, data)] + us)[1..] == us;
  }

  lemma CodeIsStartCode(s: seq<Byte>, p: nat)
    requires CodeAt(s, p)
    ensures p + PrefixLen(s, p) <= |s|
    ensures s[p..p + PrefixLen(s, p)] == StartCode(PrefixLen(s, p))
  {
  }

  lemma StartCodeIsCode(s: seq<Byte>, p: nat, prefix: nat)
    requires (prefix == 3 || prefix == 4) && p + prefix <= |s|
    requires s[p..p + prefix] == StartCode(prefix)
    ensures CodeAt(s, p) && PrefixLen(s, p) == prefix
  {
    var code := s[p..p + prefix];
    assert code[0] == s[p] && code[1] == s[p + 1] && code[2] == s[p + 2];
    if prefix == 4 {
      assert code[3] == s[p + 3];
    }
  }

  lemma ScannedSlice(s: seq<Byte>, prefix: nat, d: nat)
    requires d < |s| && (prefix == 3 || prefix == 4)
    ensures Scanned(Unit(prefix, s[d..NextCode(s, d + 1)]))
  {
    var q := NextCode(s, d + 1);
    forall k | 1 <= k < q - d ensures !Code3At(s[d..q], k) {
      assert !CodeAt(s, d + k);
    }
  }

  lemma {:induction false} SplitScanned(s: seq<Byte>, p: nat)
    requires WellEnded(s) && p <= |s|
    ensures AllScanned(Split(s, p))
    decreases |s| - p
  {
    if CodeAt(s, p) {
      CodeLeavesData(s, p);
      var d := p + PrefixLen(s, p);
      ScannedSlice(s, PrefixLen(s, p), d);
      SplitScanned(s, NextCode(s, d + 1));
    }
  }

  /** Scanning tiles the buffer: start codes and non-empty units, with nothing lost in between. */
  lemma {:induction false} SplitTiles(s: seq<Byte>, p: nat)
    requires WellEnded(s) && p <= |s| && (p == |s| || CodeAt(s, p))
    ensures Join(Split(s, p)) == s[p..]
    decreases |s| - p
  {
    if p < |s| {
      CodeLeavesData(s, p);
      CodeIsStartCode(s, p);
      var d := p + PrefixLen(s, p);
      var q := NextCode(s, d + 1);
      SplitTiles(s, q);
      JoinCons(Unit(PrefixLen(s, p), s[d..q]), Split(s, q));
      Cut(s, p, d, q);
    }
  }

  lemma Cut(s: seq<Byte>, p: nat, d: nat, q: nat)
    requires p <= d <= q <= |s|
    ensures s[p..] == s[p..d] + s[d..q] + s[q..]
  {
  }

  lemma JoinCons(u: Unit, us: seq<Unit>)
    ensures Join([u] + us) == StartCode(u.prefix) + u.data + Join(us)
  {
    assert ([u] + us)[1..] == us;
  }

  /** A place in the middle of a buffer, or right behind it. */
  lemma InMiddle(pre: seq<Byte>, mid: seq<Byte>, post: seq<Byte>, j: nat)
    requires j < |mid| + |post|
    ensures (pre + mid + post)[|pre| + j] == if j < |mid| then mid[j] else post[j - |mid|]
  {
  }

  /** No start code begins after the first byte of a unit that the next one does not blur. */
  lemma UnitHidesNoCode(pre: seq<Byte>, u: Unit, post: seq<Byte>, r: nat)
    requires Scanned(u) && |pre| < r < |pre| + |u.data|
    requires post != [] ==> |post| >= 3 && post[0] == 0 && post[1] == 0
    requires |u.data| >= 2 && u.data[|u.data| - 1] == 0 ==> post == [] || post[2] == 0
    ensures !CodeAt(pre + u.data + post, r)
  {
    UnitHidesNoCode3(pre, u, post, r);
    UnitHidesNoCode4(pre, u, post, r);
  }

  lemma UnitHidesNoCode3(pre: seq<Byte>, u: Unit, post: seq<Byte>, r: nat)
    requires Scanned(u) && |pre| < r < |pre| + |u.data|
    requires post != [] ==> |post| >= 3 && post[0] == 0 && post[1] == 0
    ensures !Code3At(pre + u.data + post, r)
  {
    var k := r - |pre|;
    assert !Code3At(u.data, k);
    if k + 2 < |u.data| + |post| {
      InMiddle(pre, u.data, post, k);
      InMiddle(pre, u.data, post, k + 1);
      InMiddle(pre, u.data, post, k + 2);
    }
  }

  lemma UnitHidesNoCode4(pre: seq<Byte>, u: Unit, post: seq<Byte>, r: nat)
    requires Scanned(u) && |pre| < r < |pre| + |u.data|
    requires post != [] ==> |post| >= 3 && post[0] == 0 && post[1] == 0
    requires |u.data| >= 2 && u.data[|u.data| - 1] == 0 ==> post == [] || post[2] == 0
    ensures !Code4At(pre + u.data + post, r)
  {
    var k := r - |pre|;
    assert k + 1 < |u.data| ==> !Code3At(u.data, k + 1);
    if k + 3 < |u.data| + |post| {
      InMiddle(pre, u.data, post, k);
      InMiddle(pre, u.data, post, k + 1);
      InMiddle(pre, u.data, post, k + 2);
      InMiddle(pre, u.data, post, k + 3);
    }
  }

  lemma NextCodeIs(s: seq<Byte>, p: nat, q: nat)
    requires p <= q <= |s|
    requires q == |s| || CodeAt(s, q)
    requires forall r :: p <= r < q ==> !CodeAt(s, r)
    ensures NextCode(s, p) == q
  {
  }

  lemma JoinBegins(us: seq<Unit>)
    requires us != [] && AllPrefixed(us)
    ensures |Join(us)| >= us[0].prefix
    ensures Join(us)[..us[0].prefix] == StartCode(us[0].prefix)
  {
  }

  lemma CodeAtJoin(pre: seq<Byte>, us: seq<Unit>)
    requires us != [] && AllPrefixed(us)
    ensures CodeAt(pre + Join(us), |pre|) && PrefixLen(pre + Join(us), |pre|) == us[0].prefix
  {
    var prefix, t := us[0].prefix, Join(us);
    JoinBegins(us);
    assert (pre + t)[|pre|..|pre| + prefix] == t[..prefix];
    StartCodeIsCode(pre + t, |pre|, prefix);
  }

  /** The first unit of a join, where it stands after `pre`. */
  lemma FirstOfJoin(pre: seq<Byte>, us: seq<Unit>, s: seq<Byte>, pre': seq<Byte>)
    requires us != [] && AllPrefixed(us) && s == pre + Join(us) && pre' == pre + StartCode(us[0].prefix)
    ensures |pre'| == |pre| + us[0].prefix && |pre'| + |us[0].data| <= |s|
    ensures CodeAt(s, |pre|) && PrefixLen(s, |pre|) == us[0].prefix
    ensures s == pre' + us[0].data + Join(us[1..])
    ensures s[|pre'|..|pre'| + |us[0].data|] == us[0].data
  {
    CodeAtJoin(pre, us);
    assert s == pre' + us[0].data + Join(us[1..]);
  }

  /** The scan from just inside a unit stops at its end. */
  lemma ScanStops(pre: seq<Byte>, u: Unit, rest: seq<Unit>, s: seq<Byte>)
    requires Scanned(u) && AllPrefixed(rest)
    requires rest != [] ==> !Blurs(u, rest[0])
    requires s == pre + u.data + Join(rest)
    ensures NextCode(s, |pre| + 1) == |pre| + |u.data|
  {
    var q, post := |pre| + |u.data|, Join(rest);
    if rest != [] {
      JoinBegins(rest);
      assert StartCode(rest[0].prefix)[..3] == post[..3];
      assert post[0] == post[..3][0] && post[1] == post[..3][1] && post[2] == post[..3][2];
      CodeAtJoin(pre + u.data, rest);
    }
    forall r | |pre| + 1 <= r < q ensures !CodeAt(s, r) {
      UnitHidesNoCode(pre, u, post, r);
    }
    NextCodeIs(s, |pre| + 1, q);
  }

  /** The unit at `p`, whose data go from `d` to `q`, is found there. */
  lemma SplitStep(s: seq<Byte>, p: nat, u: Unit, d: nat, q: nat)
    requires WellEnded(s) && CodeAt(s, p) && PrefixLen(s, p) == u.prefix
    requires d == p + u.prefix && d < q <= |s| && s[d..q] == u.data && NextCode(s, d + 1) == q
    ensures Split(s, p) == [u] + Split(s, q)
  {
    CodeLeavesData(s, p);
  }

  lemma SeparableTail(us: seq<Unit>)
    requires us != [] && Separable(us)
    ensures Separable(us[1..]) && Scanned(us[0])
    ensures |us| > 1 ==> !Blurs(us[0], us[1])
  {
  }

  /** The first unit of a separable join is found where it stands after `pre`. */
  lemma FirstIsFound(pre: seq<Byte>, us: seq<Unit>, s: seq<Byte>, pre': seq<Byte>, q: nat)
    requires us != [] && Separable(us) && s == pre + Join(us) && WellEnded(s)
    requires pre' == pre + StartCode(us[0].prefix) && q == |pre'| + |us[0].data|
    ensures q <= |s| && Split(s, |pre|) == [us[0]] + Split(s, q)
    ensures Separable(us[1..]) && s == pre' + us[0].data + Join(us[1..])
  {
    SeparableTail(us);
    FirstOfJoin(pre, us, s, pre');
    ScanStops(pre', us[0], us[1..], s);
    SplitStep(s, |pre|, us[0], |pre'|, q);
  }

  lemma {:induction false} SplitSuffix(pre: seq<Byte>, us: seq<Unit>, s: seq<Byte>)
    requires Separable(us) && s == pre + Join(us) && WellEnded(s)
    ensures Split(s, |pre|) == us
    decreases |us|
  {
    if us != [] {
      var u, rest := us[0], us[1..];
      var pre' := pre + StartCode(u.prefix);
      FirstIsFound(pre, us, s, pre', |pre' + u.data|);
      SplitSuffix(pre' + u.data, rest, s);
    } else {
      assert !CodeAt(s, |s|);
    }
  }

  /** A blurred boundary is a start code that the scan finds one byte early. */
  lemma BlurIsCode(pre: seq<Byte>, u: Unit, rest: seq<Unit>)
    requires rest != [] && AllPrefixed(rest) && Blurs(u, rest[0])
    ensures CodeAt(pre + u.data + Join(rest), |pre| + |u.data| - 1)
  {
    JoinBegins(rest);
    var s, q := pre + u.data + Join(rest), |pre| + |u.data|;
    assert s[q..q + 3] == Join(rest)[..3];
    assert s[q] == s[q..q + 3][0] && s[q + 1] == s[q..q + 3][1] && s[q + 2] == s[q..q + 3][2];
  }

  /** Where the scan ran to the end of the unit, its end was not blurred. */
  lemma ScanShowsBoundary(pre: seq<Byte>, u: Unit, rest: seq<Unit>)
    requires rest != [] && AllPrefixed(rest)
    requires |pre| + 1 <= |pre + u.data + Join(rest)|
    requires NextCode(pre + u.data + Join(rest), |pre| + 1) == |pre| + |u.data|
    ensures !Blurs(u, rest[0])
  {
    if Blurs(u, rest[0]) {
      BlurIsCode(pre, u, rest);
      assert false;
    }
  }

  lemma SplitPeel(s: seq<Byte>, p: nat, us: seq<Unit>, q: nat)
    requires WellEnded(s) && p <= |s| && us != [] && Split(s, p) == us
    requires q == p + us[0].prefix + |us[0].data|
    ensures p + us[0].prefix + 1 <= |s| && q <= |s|
    ensures NextCode(s, p + us[0].prefix + 1) == q && Split(s, q) == us[1..]
  {
    CodeLeavesData(s, p);
  }

  predicate NoneBlurs(us: seq<Unit>) {
    forall i :: 0 <= i < |us| - 1 ==> !Blurs(us[i], us[i + 1])
  }

  lemma NoneBlursCons(us: seq<Unit>)
    requires |us| > 1 && !Blurs(us[0], us[1]) && NoneBlurs(us[1..])
    ensures NoneBlurs(us)
  {
    forall i | 0 <= i < |us| - 1 ensures !Blurs(us[i], us[i + 1]) {
      assert i > 0 ==> !Blurs(us[1..][i - 1], us[1..][i]);
    }
  }

  lemma AllPrefixedTail(us: seq<Unit>)
    requires us != [] && AllPrefixed(us)
    ensures AllPrefixed(us[1..])
  {
  }

  lemma {:induction false} SplitShowsSeparable(pre: seq<Byte>, us: seq<Unit>, s: seq<Byte>)
    requires AllPrefixed(us) && s == pre + Join(us) && WellEnded(s)
    requires Split(s, |pre|) == us
    ensures NoneBlurs(us)
    decreases |us|
  {
    if |us| > 1 {
      var u, rest := us[0], us[1..];
      var pre' := pre + StartCode(u.prefix);
      AllPrefixedTail(us);
      FirstOfJoin(pre, us, s, pre');
      SplitPeel(s, |pre|, us, |pre' + u.data|);
      ScanShowsBoundary(pre', u, rest);
      SplitShowsSeparable(pre' + u.data, rest, s);
      NoneBlursCons(us);
    }
  }

  /** The split undoes the join exactly on separable lists, whatever start codes were chosen. */
  lemma SplitInvertsJoin(us: seq<Unit>)
    requires us != [] && AllPrefixed(us) && WellEnded(Join(us))
    ensures Split(Join(us), 0) == us <==> Separable(us)
  {
    assert [] + Join(us) == Join(us);
    if Separable(us) {
      SplitSuffix([], us, Join(us));
    } else if Split(Join(us), 0) == us {
      SplitShowsSeparable([], us, Join(us));
      SplitScanned(Join(us), 0);
    }
  }

  /** A unit that ends in zero before a three-byte start code: the scan gives its zero to the next start code. */
  lemma BlurredUnitIsNotFound()
    ensures var us := [Unit(3, [0x65, 0]), Unit(3, [0x41])];
      AllPrefixed(us) && WellEnded(Join(us)) && Split(Join(us), 0) != us
  {
    var us := [Unit(3, [0x65, 0]), Unit(3, [0x41])];
    assert Join(us[1..]) == [0, 0, 1, 0x41];
    assert Join(us) == [0, 0, 1, 0x65, 0, 0, 0, 1, 0x41];
    assert Blurs(us[0], us[1]);
    SplitInvertsJoin(us);
  }

  /** Appending the end of a proper unit to anything gives a well-ended buffer. */
  lemma ProperEnds(code: seq<Byte>, u: Unit)
    requires Proper(u) && code == StartCode(u.prefix)
    ensures WellEnded(code + u.data)
  {
    var s := code + u.data;
    assert s[|s| - 1] == u.data[|u.data| - 1];
    if |u.data| >= 3 {
      assert !Code3At(u.data, |u.data| - 3);
    }
  }

  lemma WellEndedSuffix(head: seq<Byte>, t: seq<Byte>)
    requires WellEnded(t) && |t| >= 3
    ensures WellEnded(head + t)
  {
  }

  lemma {:induction false} JoinWellEnded(us: seq<Unit>)
    requires us != [] && AllProper(us)
    ensures WellEnded(Join(us)) && |Join(us)| >= 4
  {
    var u, code := us[0], StartCode(us[0].prefix);
    assert Proper(u);
    if |us| == 1 {
      assert Join(us) == code + u.data;
      ProperEnds(code, u);
    } else {
      JoinWellEnded(us[1..]);
      WellEndedSuffix(code + u.data, Join(us[1..]));
    }
  }

  /** What the encoder emits is separable, so every such list survives the round trip. */
  lemma ProperRoundTrip(us: seq<Unit>)
    requires us != [] && AllProper(us)
    ensures WellEnded(Join(us)) && Split(Join(us), 0) == us
  {
    JoinWellEnded(us);
    assert AllPrefixed(us) && Separable(us);
    SplitInvertsJoin(us);
  }
}
