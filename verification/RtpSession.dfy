/**
 What a packing session means: the pure machine behind `pack_put` and `pack_get`, the packet
 list it must produce, and an independent RFC 6184 receiver that turns packets back into NAL units.
 */
module RtpSession {
  import opened Arithmetic
  import opened Bytes
  import opened AnnexB
  import opened RtpFormat

  /** The session's constants; `start` is the clock when the handle was opened. */
  datatype Config = Config(max: nat, ssrc: U32, start: U32)

  /** One reading of the clock. `overflow` is what converting a product beyond 32 bits would give. */
  datatype Clock = Clock(now: U32, overflow: U32)

  /** `unit` and `index` describe the unit being fragmented; `index` is 0 when there is none. */
  datatype Session = Session(
    todo: seq<seq<Byte>>, unit: seq<Byte>, index: nat, seqNum: U16, timestamp: U32)

  datatype Op = Put(buf: seq<Byte>) | Get(clock: Clock)

  const SAMPLES_PER_MS := 90

  predicate AllNonEmpty(us: seq<seq<Byte>>) {
    forall i :: 0 <= i < |us| ==> us[i] != []
  }

  ghost predicate Sound(c: Config, s: Session) {
    && c.max > 0
    && AllNonEmpty(s.todo)
    && (s.index == 0 ==> s.unit == [])
    && (s.index > 0 ==> |s.unit| > c.max && s.index < FragmentCount(|s.unit|, c.max))
  }

  function Elapsed(start: U32, now: U32): U32 {
    (now as int - start as int) % TWO_32
  }

  /** The media timestamp of a unit that starts now: 90 ticks for each elapsed millisecond. */
  function Stamp(start: U32, clock: Clock): U32 {
    var ticks := SAMPLES_PER_MS * Elapsed(start, clock.now) as int;
    if ticks < TWO_32 then ticks else clock.overflow
  }

  function NextSeq(n: U16): U16 {
    (n as int + 1) % 0x1_0000
  }

  // ---- the machine ----

  function DoPut(s: Session, buf: seq<Byte>): Session
    requires WellEnded(buf)
  {
    s.(todo := Payloads(Split(buf, 0)), unit := [], index := 0)
  }

  /** Fragment `i` of `unit` as a packet with timestamp `ts`. */
  function EmitPacket(c: Config, seqNum: U16, unit: seq<Byte>, i: nat, ts: U32): Packet
    requires c.max > 0 && unit != [] && i < FragmentCount(|unit|, c.max)
  {
    var f := FragmentAt(unit, c.max, i);
    Packet(Header(f.marker, seqNum, ts, c.ssrc), f.body)
  }

  /** The session once fragment `i` of `unit` is out. */
  function AfterEmit(c: Config, seqNum: U16, todo: seq<seq<Byte>>, unit: seq<Byte>, i: nat, ts: U32): Session
    requires c.max > 0
  {
    if i + 1 == FragmentCount(|unit|, c.max) then Session(todo, [], 0, NextSeq(seqNum), ts)
    else Session(todo, unit, i + 1, NextSeq(seqNum), ts)
  }

  function DoGet(c: Config, s: Session, clock: Clock): (Session, Option<Packet>)
    requires Sound(c, s)
  {
    if s.index > 0 then
      (AfterEmit(c, s.seqNum, s.todo, s.unit, s.index, s.timestamp),
       Some(EmitPacket(c, s.seqNum, s.unit, s.index, s.timestamp)))
    else if s.todo == [] then (s, None)
    else
      var ts := Stamp(c.start, clock);
      (AfterEmit(c, s.seqNum, s.todo[1..], s.todo[0], 0, ts), Some(EmitPacket(c, s.seqNum, s.todo[0], 0, ts)))
  }

  predicate OpOk(op: Op) {
    op.Put? ==> WellEnded(op.buf)
  }

  predicate OpsOk(ops: seq<Op>) {
    forall i :: 0 <= i < |ops| ==> OpOk(ops[i])
  }

  function Step(c: Config, s: Session, op: Op): (Session, Option<Packet>)
    requires Sound(c, s) && OpOk(op)
  {
    match op
    case Put(buf) => (DoPut(s, buf), None)
    case Get(clock) => DoGet(c, s, clock)
  }

  lemma StepSound(c: Config, s: Session, op: Op)
    requires Sound(c, s) && OpOk(op)
    ensures Sound(c, Step(c, s, op).0)
  {
    match op
    case Put(buf) =>
      SplitScanned(buf, 0);
    case Get(clock) =>
      if s.index == 0 && s.todo != [] && |s.todo[0]| > c.max {
        FragmentsTile(s.todo[0], c.max);
      }
  }

  /** A whole run, packets in the order they were returned. */
  function Run(c: Config, s: Session, ops: seq<Op>): (Session, seq<Packet>)
    requires Sound(c, s) && OpsOk(ops)
    decreases |ops|
  {
    if ops == [] then (s, [])
    else
      StepSound(c, s, ops[0]);
      var (s1, p) := Step(c, s, ops[0]);
      var (s2, ps) := Run(c, s1, ops[1..]);
      (s2, if p.Some? then [p.value] + ps else ps)
  }

  /** A run grows at its end by one step. */
  lemma {:induction false} RunSnoc(c: Config, s: Session, ops: seq<Op>, op: Op)
    requires Sound(c, s) && OpsOk(ops) && OpOk(op)
    ensures Sound(c, Run(c, s, ops).0) && OpsOk(ops + [op])
    ensures Run(c, s, ops + [op]).0 == Step(c, Run(c, s, ops).0, op).0
    ensures Run(c, s, ops + [op]).1 == Run(c, s, ops).1 + Returned(Step(c, Run(c, s, ops).0, op).1)
    decreases |ops|
  {
    if ops == [] {
      StepSound(c, s, op);
      assert Run(c, Step(c, s, op).0, []).1 == [];
    } else {
      StepSound(c, s, ops[0]);
      RunSnoc(c, Step(c, s, ops[0]).0, ops[1..], op);
      assert (ops + [op])[1..] == ops[1..] + [op];
    }
  }

  function Returned(p: Option<Packet>): seq<Packet> {
    if p.Some? then [p.value] else []
  }

  /** The session is inside unit `u`, at fragment `i`, or about to begin it; `rest` is to be done behind it. */
  predicate AtFragment(s: Session, u: seq<Byte>, i: nat, rest: seq<seq<Byte>>) {
    if i > 0 then s.index == i && s.unit == u && s.todo == rest else s.index == 0 && s.todo == [u] + rest
  }

  lemma GetEmits(c: Config, s: Session, clock: Clock, u: seq<Byte>, i: nat, rest: seq<seq<Byte>>)
    requires Sound(c, s) && AtFragment(s, u, i, rest)
    ensures u != [] && i < FragmentCount(|u|, c.max)
    ensures var ts := if i > 0 then s.timestamp else Stamp(c.start, clock);
      DoGet(c, s, clock) == (AfterEmit(c, s.seqNum, rest, u, i, ts), Some(EmitPacket(c, s.seqNum, u, i, ts)))
  {
    assert i == 0 ==> s.todo[0] == u && s.todo[1..] == rest;
  }

  /** One get there, with `n` fragments in all: numbers, marker, and the session afterwards. */
  lemma GetAdvances(c: Config, s: Session, clock: Clock, u: seq<Byte>, n: nat, i: nat, rest: seq<seq<Byte>>)
    requires Sound(c, s) && AtFragment(s, u, i, rest) && n > 0 && (n - 1) * c.max < |u| <= n * c.max
    ensures DoGet(c, s, clock).1.Some?
    ensures var s', h := DoGet(c, s, clock).0, DoGet(c, s, clock).1.value.header;
      && h.seqNum == s.seqNum && h.ssrc == c.ssrc && h.marker == (i == n - 1)
      && s'.todo == rest && s'.seqNum == (if s.seqNum == 0xFFFF then 0 else s.seqNum + 1) && s'.timestamp == h.timestamp
      && (if i == n - 1 then s'.index == 0 && s'.unit == [] else s'.index == i + 1 && s'.unit == u)
  {
    GetEmits(c, s, clock, u, i, rest);
    CountUnique(|u|, c.max, n);
  }

  /** Its bytes: a unit that fits goes out as it is, any other behind the two bytes of a fragmentation unit. */
  lemma GetSends(c: Config, s: Session, clock: Clock, u: seq<Byte>, n: nat, i: nat, rest: seq<seq<Byte>>)
    requires Sound(c, s) && AtFragment(s, u, i, rest) && n > 0 && (n - 1) * c.max < |u| <= n * c.max && i < n
    ensures DoGet(c, s, clock).1.Some?
    ensures Written(u, c.max, n, i, DoGet(c, s, clock).1.value.body)
  {
    GetEmits(c, s, clock, u, i, rest);
    FragmentBytes(u, c.max, n, i, DoGet(c, s, clock).1.value.body);
  }

  // ---- the list of packets a buffer stands for ----

  function FragmentsFrom(u: seq<Byte>, max: nat, i: nat): (fs: seq<Fragment>)
    requires u != [] && max > 0 && i <= FragmentCount(|u|, max)
    ensures |fs| == FragmentCount(|u|, max) - i
    decreases FragmentCount(|u|, max) - i
  {
    if i == FragmentCount(|u|, max) then [] else [FragmentAt(u, max, i)] + FragmentsFrom(u, max, i + 1)
  }

  /** The packetisation of a list of NAL units. */
  function Packetize(us: seq<seq<Byte>>, max: nat): seq<Fragment>
    requires AllNonEmpty(us) && max > 0
  {
    if us == [] then [] else FragmentsFrom(us[0], max, 0) + Packetize(us[1..], max)
  }

  function PacketCount(us: seq<seq<Byte>>, max: nat): nat
    requires max > 0
  {
    if us == [] then 0 else FragmentCount(|us[0]|, max) + PacketCount(us[1..], max)
  }

  lemma {:induction false} PacketizeLength(us: seq<seq<Byte>>, max: nat)
    requires AllNonEmpty(us) && max > 0
    ensures |Packetize(us, max)| == PacketCount(us, max)
  {
    if us != [] {
      PacketizeLength(us[1..], max);
    }
  }

  /** Everything the session still has to send before the next put. */
  ghost function Pending(c: Config, s: Session): seq<Fragment>
    requires Sound(c, s)
  {
    (if s.index > 0 then FragmentsFrom(s.unit, c.max, s.index) else []) + Packetize(s.todo, c.max)
  }

  function AsFragment(p: Packet): Fragment {
    Fragment(p.header.marker, p.body)
  }

  lemma ConsAppend<T>(x: T, xs: seq<T>, ys: seq<T>)
    ensures [x] + xs + ys == [x] + (xs + ys)
  {
  }

  lemma EmitTakesHead(c: Config, n: U16, todo: seq<seq<Byte>>, unit: seq<Byte>, i: nat, ts: U32)
    requires c.max > 0 && AllNonEmpty(todo) && unit != [] && i < FragmentCount(|unit|, c.max)
    ensures Sound(c, AfterEmit(c, n, todo, unit, i, ts))
    ensures FragmentsFrom(unit, c.max, i) + Packetize(todo, c.max)
         == [FragmentAt(unit, c.max, i)] + Pending(c, AfterEmit(c, n, todo, unit, i, ts))
  {
    ConsAppend(FragmentAt(unit, c.max, i), FragmentsFrom(unit, c.max, i + 1), Packetize(todo, c.max));
  }

  /** Call by call: a get takes the head of the pending list, and finds nothing only when it is empty. */
  lemma GetTakesHead(c: Config, s: Session, clock: Clock)
    requires Sound(c, s)
    ensures var (s', p) := DoGet(c, s, clock);
      && Sound(c, s')
      && if Pending(c, s) == [] then s' == s && p == None
         else p.Some? && Pending(c, s) == [AsFragment(p.value)] + Pending(c, s')
  {
    if s.index > 0 {
      EmitTakesHead(c, s.seqNum, s.todo, s.unit, s.index, s.timestamp);
    } else if s.todo != [] {
      EmitTakesHead(c, s.seqNum, s.todo[1..], s.todo[0], 0, Stamp(c.start, clock));
    }
  }

  function Bodies(ps: seq<Packet>): (fs: seq<Fragment>)
    ensures |fs| == |ps| && forall i :: 0 <= i < |ps| ==> fs[i] == AsFragment(ps[i])
  {
    seq(|ps|, i requires 0 <= i < |ps| => AsFragment(ps[i]))
  }

  predicate AllGets(ops: seq<Op>) {
    forall i :: 0 <= i < |ops| ==> ops[i].Get?
  }

  /**
   Draining refines packetisation: `n` gets return the first `n` pending packets, whatever the
   clock says; once they are gone every further get returns nothing and changes nothing.
   */
  lemma {:induction false} DrainRefines(c: Config, s: Session, ops: seq<Op>)
    requires Sound(c, s) && AllGets(ops)
    ensures OpsOk(ops) && Sound(c, Run(c, s, ops).0)
    ensures var (s', ps) := Run(c, s, ops);
      && Bodies(ps) + Pending(c, s') == Pending(c, s)
      && |ps| == Min(|ops|, |Pending(c, s)|)
      && (Pending(c, s) == [] ==> s' == s)
    decreases |ops|
  {
    if ops != [] {
      GetTakesHead(c, s, ops[0].clock);
      var (s1, p) := DoGet(c, s, ops[0].clock);
      DrainRefines(c, s1, ops[1..]);
      var (s2, ps) := Run(c, s1, ops[1..]);
      if p.Some? {
        BodiesCons(p.value, ps, Pending(c, s2));
      }
    }
  }

  lemma BodiesCons(p: Packet, ps: seq<Packet>, rest: seq<Fragment>)
    ensures Bodies([p] + ps) + rest == [AsFragment(p)] + (Bodies(ps) + rest)
    ensures |[AsFragment(p)] + (Bodies(ps) + rest)| == 1 + |Bodies(ps) + rest|
  {
  }

  // ---- an RFC 6184 receiver ----

  datatype Partial = Partial(data: seq<Byte>, timestamp: U32)

  /** A strict receiver: a gap, a malformed packet or an unfinished unit breaks it for good. */
  datatype Receiver =
    | Receiver(expected: U16, partial: Option<Partial>, units: seq<seq<Byte>>)
    | Broken

  function Accept(r: Receiver, wire: seq<Byte>): Receiver {
    if r.Broken? then Broken
    else
      match Parse(wire)
      case None => Broken
      case Some(p) => AcceptPacket(r, p)
  }

  function AcceptPacket(r: Receiver, p: Packet): Receiver
    requires r.Receiver?
  {
    if p.header.seqNum != r.expected || p.body == [] then Broken
    else
      var r' := r.(expected := (r.expected + 1) % 0x1_0000);
      var kind := PacketType(p.body[0]);
      if 1 <= kind <= 23 then AcceptSingle(r', p.body)
      else if kind == 28 then AcceptFragment(r', p)
      else Broken
  }

  lemma AcceptEncoded(r: Receiver, p: Packet)
    requires r.Receiver?
    ensures Accept(r, Encode(p)) == AcceptPacket(r, p)
  {
    ParseInvertsEncode(p);
  }

  function AcceptSingle(r: Receiver, body: seq<Byte>): Receiver
    requires r.Receiver?
  {
    if r.partial.Some? then Broken else r.(units := r.units + [body])
  }

  function AcceptFragment(r: Receiver, p: Packet): Receiver
    requires r.Receiver? && p.body != []
  {
    if |p.body| < 2 then Broken
    else
      var start, end := FuStart(p.body[1]), FuEnd(p.body[1]);
      var header := UnitHeader(p.body[0], p.body[1]);
      if start && end then Broken
      else if start then
        if r.partial.Some? then Broken
        else r.(partial := Some(Partial([header] + p.body[2..], p.header.timestamp)))
      else if r.partial.None? || r.partial.value.timestamp != p.header.timestamp
              || r.partial.value.data == [] || r.partial.value.data[0] != header then Broken
      else
        var data := r.partial.value.data + p.body[2..];
        if end then r.(partial := None, units := r.units + [data])
        else r.(partial := Some(Partial(data, p.header.timestamp)))
  }

  function AcceptAll(r: Receiver, ps: seq<Packet>): Receiver
    decreases |ps|
  {
    if ps == [] then r else AcceptAll(Accept(r, Encode(ps[0])), ps[1..])
  }

  // ---- the round trip ----

  /** NAL unit types that a packet may carry on their own. */
  predicate Carriable(u: seq<Byte>) {
    u != [] && 1 <= PacketType(u[0]) <= 23
  }

  predicate AllCarriable(us: seq<seq<Byte>>) {
    forall i :: 0 <= i < |us| ==> Carriable(us[i])
  }

  /** The units that have not yet been handed over completely. */
  function Owed(s: Session): seq<seq<Byte>> {
    (if s.index > 0 then [s.unit] else []) + s.todo
  }

  /** What the receiver holds when `i` fragments of `u` have arrived. */
  function Arrived(u: seq<Byte>, max: nat, i: nat, ts: U32): Option<Partial>
    requires max > 0 && (i > 0 ==> u != [])
  {
    if i == 0 then None else Some(Partial(u[..Offset(|u|, max, i)], ts))
  }

  /** The receiver has seen exactly what the sender has sent. */
  ghost predicate InStep(c: Config, s: Session, r: Receiver)
    requires Sound(c, s)
  {
    && r.Receiver?
    && r.expected == s.seqNum
    && r.partial == Arrived(s.unit, c.max, s.index, s.timestamp)
  }

  lemma ChunkExtends(u: seq<Byte>, max: nat, i: nat)
    requires u != [] && max > 0
    ensures u[..Offset(|u|, max, i)] + Chunk(u, max, i) == u[..Offset(|u|, max, i + 1)]
    ensures u[..Offset(|u|, max, 0)] == [u[0]]
  {
  }

  lemma LastChunkEnds(u: seq<Byte>, max: nat, i: nat)
    requires |u| > max > 0 && i == FragmentCount(|u|, max) - 1
    ensures i > 0 && u[..Offset(|u|, max, i + 1)] == u
  {
    ChunkSize(u, max, i);
  }

  /** One fragment of a unit, on top of the fragments before it. */
  lemma FragmentArrives(c: Config, u: seq<Byte>, i: nat, p: Packet, r: Receiver)
    requires c.max > 0 && |u| > c.max && i < FragmentCount(|u|, c.max)
    requires AsFragment(p) == FragmentAt(u, c.max, i)
    requires r.Receiver? && r.partial == Arrived(u, c.max, i, p.header.timestamp)
    ensures p.body != []
    ensures AcceptFragment(r, p) ==
            if p.header.marker then r.(partial := None, units := r.units + [u])
            else r.(partial := Arrived(u, c.max, i + 1, p.header.timestamp))
  {
    FragmentBits(u, c.max, i);
    ChunkExtends(u, c.max, i);
    if p.header.marker {
      LastChunkEnds(u, c.max, i);
    }
  }

  lemma IsFragment(u: seq<Byte>, max: nat, i: nat)
    requires |u| > max > 0 && i < FragmentCount(|u|, max)
    ensures FragmentAt(u, max, i).body != [] && PacketType(FragmentAt(u, max, i).body[0]) == 28
  {
    FragmentBits(u, max, i);
  }

  lemma AcceptsFragment(p: Packet, r: Receiver)
    requires p.body != [] && PacketType(p.body[0]) == 28 && r.Receiver? && r.expected == p.header.seqNum
    ensures AcceptPacket(r, p) == AcceptFragment(r.(expected := NextSeq(r.expected)), p)
  {
  }

  lemma AcceptChunk(c: Config, u: seq<Byte>, i: nat, p: Packet, r: Receiver)
    requires c.max > 0 && |u| > c.max && i < FragmentCount(|u|, c.max)
    requires AsFragment(p) == FragmentAt(u, c.max, i)
    requires r.Receiver? && r.expected == p.header.seqNum
    ensures r.partial == Arrived(u, c.max, i, p.header.timestamp) ==>
            Accept(r, Encode(p)) ==
            if p.header.marker then Receiver(NextSeq(r.expected), None, r.units + [u])
            else Receiver(NextSeq(r.expected), Arrived(u, c.max, i + 1, p.header.timestamp), r.units)
  {
    AcceptEncoded(r, p);
    IsFragment(u, c.max, i);
    AcceptsFragment(p, r);
    if r.partial == Arrived(u, c.max, i, p.header.timestamp) {
      FragmentArrives(c, u, i, p, r.(expected := NextSeq(r.expected)));
    }
  }

  lemma AcceptWhole(u: seq<Byte>, p: Packet, r: Receiver)
    requires Carriable(u) && p.body == u
    requires r.Receiver? && r.expected == p.header.seqNum && r.partial == None
    ensures Accept(r, Encode(p)) == Receiver(NextSeq(r.expected), None, r.units + [u])
  {
    AcceptEncoded(r, p);
  }

  lemma MoveOwed<T>(done: seq<T>, u: T, todo: seq<T>)
    ensures done + [u] + todo == done + ([u] + todo)
  {
  }

  /** What the receiver makes of fragment `i` of `unit`, whole units included. */
  lemma AcceptEmit(c: Config, unit: seq<Byte>, i: nat, ts: U32, r: Receiver)
    requires c.max > 0 && Carriable(unit) && i < FragmentCount(|unit|, c.max)
    requires r.Receiver? && r.partial == Arrived(unit, c.max, i, ts)
    ensures Accept(r, Encode(EmitPacket(c, r.expected, unit, i, ts))) == AfterAccept(c, unit, i, ts, r)
  {
    var p := EmitPacket(c, r.expected, unit, i, ts);
    if |unit| <= c.max {
      AcceptWhole(unit, p, r);
    } else {
      AcceptChunk(c, unit, i, p, r);
    }
  }

  function AfterAccept(c: Config, unit: seq<Byte>, i: nat, ts: U32, r: Receiver): Receiver
    requires c.max > 0 && unit != [] && r.Receiver?
  {
    if i + 1 == FragmentCount(|unit|, c.max) then Receiver(NextSeq(r.expected), None, r.units + [unit])
    else Receiver(NextSeq(r.expected), Arrived(unit, c.max, i + 1, ts), r.units)
  }

  /** Behind the last fragment the unit is no longer owed, but received. */
  lemma LastDelivers(c: Config, todo: seq<seq<Byte>>, unit: seq<Byte>, ts: U32, r: Receiver)
    requires c.max > 0 && AllNonEmpty(todo) && r.Receiver?
    ensures var s', r' := Session(todo, [], 0, NextSeq(r.expected), ts), Receiver(NextSeq(r.expected), None, r.units + [unit]);
      Sound(c, s') && InStep(c, s', r') && r'.units + Owed(s') == r.units + ([unit] + todo)
  {
    MoveOwed(r.units, unit, todo);
  }

  /** Behind any other fragment it is still owed. */
  lemma MoreToDeliver(c: Config, todo: seq<seq<Byte>>, unit: seq<Byte>, i: nat, ts: U32, r: Receiver)
    requires c.max > 0 && AllNonEmpty(todo) && unit != [] && r.Receiver? && i + 1 < FragmentCount(|unit|, c.max)
    ensures var s' := Session(todo, unit, i + 1, NextSeq(r.expected), ts);
      var r' := Receiver(NextSeq(r.expected), Arrived(unit, c.max, i + 1, ts), r.units);
      Sound(c, s') && InStep(c, s', r') && r'.units + Owed(s') == r.units + ([unit] + todo)
  {
  }

  lemma EmitDelivers(c: Config, todo: seq<seq<Byte>>, unit: seq<Byte>, i: nat, ts: U32, r: Receiver)
    requires c.max > 0 && AllNonEmpty(todo) && unit != [] && i < FragmentCount(|unit|, c.max)
    requires r.Receiver?
    ensures var s', r' := AfterEmit(c, r.expected, todo, unit, i, ts), AfterAccept(c, unit, i, ts, r);
      Sound(c, s') && InStep(c, s', r') && r'.units + Owed(s') == r.units + ([unit] + todo)
  {
    if i + 1 == FragmentCount(|unit|, c.max) {
      LastDelivers(c, todo, unit, ts, r);
    } else {
      MoreToDeliver(c, todo, unit, i, ts, r);
    }
  }

  lemma OwedHead(s: Session)
    ensures s.index > 0 ==> Owed(s) == [s.unit] + s.todo
    ensures s.index == 0 && s.todo != [] ==> Owed(s) == [s.todo[0]] + s.todo[1..]
  {
  }

  /** Emitting one packet and receiving it keeps the two ends in step and loses no unit. */
  lemma GetDelivers(c: Config, s: Session, clock: Clock, r: Receiver)
    requires Sound(c, s) && InStep(c, s, r) && AllCarriable(Owed(s))
    ensures var (s', p) := DoGet(c, s, clock);
      var r' := if p.Some? then Accept(r, Encode(p.value)) else r;
      && Sound(c, s') && InStep(c, s', r')
      && r'.units + Owed(s') == r.units + Owed(s)
  {
    OwedHead(s);
    if s.index > 0 {
      assert Carriable(Owed(s)[0]);
      AcceptEmit(c, s.unit, s.index, s.timestamp, r);
      EmitDelivers(c, s.todo, s.unit, s.index, s.timestamp, r);
    } else if s.todo != [] {
      assert Carriable(Owed(s)[0]);
      AcceptEmit(c, s.todo[0], 0, Stamp(c.start, clock), r);
      EmitDelivers(c, s.todo[1..], s.todo[0], 0, Stamp(c.start, clock), r);
    }
  }

  /** Every put finds the buffer before it drained, as the client's loops see to. */
  ghost predicate PutsWhenDrained(c: Config, s: Session, ops: seq<Op>)
    requires Sound(c, s) && OpsOk(ops)
    decreases |ops|
  {
    if ops == [] then true
    else
      StepSound(c, s, ops[0]);
      && (ops[0].Put? ==> Owed(s) == [])
      && PutsWhenDrained(c, Step(c, s, ops[0]).0, ops[1..])
  }

  /** All the units that a run is asked to send. */
  function UnitsPut(ops: seq<Op>): seq<seq<Byte>>
    requires OpsOk(ops)
    decreases |ops|
  {
    if ops == [] then []
    else if ops[0].Put? then assert OpOk(ops[0]); Payloads(Split(ops[0].buf, 0)) + UnitsPut(ops[1..])
    else UnitsPut(ops[1..])
  }

  lemma CarriableParts(us: seq<seq<Byte>>, vs: seq<seq<Byte>>)
    requires AllCarriable(us + vs)
    ensures AllCarriable(us) && AllCarriable(vs)
  {
    assert forall i :: 0 <= i < |us| ==> us[i] == (us + vs)[i];
    assert forall i :: 0 <= i < |vs| ==> vs[i] == (us + vs)[|us| + i];
  }

  lemma CarriableSuffix(head: seq<seq<Byte>>, us: seq<seq<Byte>>, vs: seq<seq<Byte>>)
    requires AllCarriable(us + vs) && (exists k: nat :: k <= |us| && head == us[k..])
    ensures AllCarriable(head + vs)
  {
    var k: nat :| k <= |us| && head == us[k..];
    assert head + vs == (us + vs)[k..];
  }

  lemma GetOwes(c: Config, s: Session, clock: Clock, later: seq<seq<Byte>>)
    requires Sound(c, s) && AllCarriable(Owed(s) + later)
    ensures AllCarriable(Owed(DoGet(c, s, clock).0) + later)
  {
    OwedHead(s);
    var left := Owed(DoGet(c, s, clock).0);
    var k := if left == Owed(s) then 0 else 1;
    assert left == Owed(s)[k..];
    CarriableSuffix(left, Owed(s), later);
  }

  lemma Balance<T>(before: seq<T>, owed: seq<T>, after: seq<T>, owes: seq<T>, later: seq<T>)
    requires after + owes == before + owed
    ensures after + (owes + later) == before + (owed + later)
  {
    assert after + (owes + later) == (after + owes) + later;
    assert before + (owed + later) == (before + owed) + later;
  }

  lemma PutOwes(s: Session, op: Op, later: seq<seq<Byte>>)
    requires op.Put? && OpOk(op) && Owed(s) == []
    ensures Owed(DoPut(s, op.buf)) + later == Owed(s) + (Payloads(Split(op.buf, 0)) + later)
    ensures s.index == 0
  {
  }

  /**
   No unit is lost, duplicated or reordered in any run whose puts wait for the drain: what the
   receiver has, plus what the sender still owes, is everything that was put.
   */
  lemma {:induction false} RunDelivers(c: Config, s: Session, ops: seq<Op>, r: Receiver)
    requires Sound(c, s) && OpsOk(ops) && PutsWhenDrained(c, s, ops)
    requires InStep(c, s, r) && AllCarriable(Owed(s) + UnitsPut(ops))
    ensures Sound(c, Run(c, s, ops).0)
    ensures InStep(c, Run(c, s, ops).0, AcceptAll(r, Run(c, s, ops).1))
    ensures AcceptAll(r, Run(c, s, ops).1).units + Owed(Run(c, s, ops).0) == r.units + (Owed(s) + UnitsPut(ops))
    decreases |ops|
  {
    if ops != [] {
      StepSound(c, s, ops[0]);
      var (s1, p) := Step(c, s, ops[0]);
      var later := UnitsPut(ops[1..]);
      if ops[0].Put? {
        PutOwes(s, ops[0], later);
        RunDelivers(c, s1, ops[1..], r);
      } else {
        CarriableParts(Owed(s), later);
        GetDelivers(c, s, ops[0].clock, r);
        GetOwes(c, s, ops[0].clock, later);
        var r1 := if p.Some? then Accept(r, Encode(p.value)) else r;
        RunDelivers(c, s1, ops[1..], r1);
        Balance(r.units, Owed(s), r1.units, Owed(s1), later);
        assert p.Some? ==> AcceptAll(r, Run(c, s, ops).1) == AcceptAll(r1, Run(c, s1, ops[1..]).1) by {
          AcceptCons(r, p, Run(c, s1, ops[1..]).1);
        }
      }
    }
  }

  lemma AcceptCons(r: Receiver, p: Option<Packet>, ps: seq<Packet>)
    ensures p.Some? ==> AcceptAll(r, [p.value] + ps) == AcceptAll(Accept(r, Encode(p.value)), ps)
  {
    if p.Some? {
      assert ([p.value] + ps)[1..] == ps;
    }
  }

  // ---- sequence numbers and timestamps over whole runs ----

  predicate NumberedFrom(ps: seq<Packet>, n: nat, ssrc: U32) {
    forall i :: 0 <= i < |ps| ==> ps[i].header.seqNum == (n + i) % 0x1_0000 && ps[i].header.ssrc == ssrc
  }

  lemma Renumber(n: U16, i: nat)
    ensures (NextSeq(n) + i) % 0x1_0000 == (n + (i + 1)) % 0x1_0000
  {
    if n == 0x1_0000 - 1 {
      AddModulus(i, 0x1_0000);
    }
  }

  lemma NumberedCons(p: Packet, ps: seq<Packet>, n: U16, ssrc: U32)
    requires p.header.seqNum == n && p.header.ssrc == ssrc && NumberedFrom(ps, NextSeq(n), ssrc)
    ensures NumberedFrom([p] + ps, n, ssrc)
  {
    var all := [p] + ps;
    forall i | 0 <= i < |all|
      ensures all[i].header.seqNum == (n + i) % 0x1_0000 && all[i].header.ssrc == ssrc
    {
      if i > 0 {
        Renumber(n, i - 1);
        assert all[i] == ps[i - 1];
      }
    }
  }

  lemma {:induction false} RunCounts(c: Config, s: Session, ops: seq<Op>)
    requires Sound(c, s) && OpsOk(ops)
    ensures Run(c, s, ops).0.seqNum == (s.seqNum + |Run(c, s, ops).1|) % 0x1_0000
    decreases |ops|
  {
    if ops != [] {
      StepSound(c, s, ops[0]);
      var (s1, p) := Step(c, s, ops[0]);
      var ps := Run(c, s1, ops[1..]).1;
      RunCounts(c, s1, ops[1..]);
      if p.Some? {
        Renumber(s.seqNum, |ps|);
        assert |Run(c, s, ops).1| == |ps| + 1 && s1.seqNum == NextSeq(s.seqNum);
      } else {
        assert |Run(c, s, ops).1| == |ps| && s1.seqNum == s.seqNum;
      }
    }
  }

  /** The `i`-th packet of a run is numbered `i` after the first, modulo 2^16; empty gets use no number. */
  lemma {:induction false} RunNumbers(c: Config, s: Session, ops: seq<Op>)
    requires Sound(c, s) && OpsOk(ops)
    ensures NumberedFrom(Run(c, s, ops).1, s.seqNum, c.ssrc)
    ensures Run(c, s, ops).0.seqNum == (s.seqNum + |Run(c, s, ops).1|) % 0x1_0000
    decreases |ops|
  {
    RunCounts(c, s, ops);
    if ops != [] {
      StepSound(c, s, ops[0]);
      var (s1, p) := Step(c, s, ops[0]);
      RunNumbers(c, s1, ops[1..]);
      var ps := Run(c, s1, ops[1..]).1;
      if p.Some? {
        NumberedCons(p.value, ps, s.seqNum, c.ssrc);
        assert Run(c, s, ops).1 == [p.value] + ps;
      }
    }
  }

  /** At the `i`-th call the clock stands `ms[i]` milliseconds, and whole turns of 2^32, from where it stood at the start. */
  predicate Clocked(c: Config, ops: seq<Op>, ms: seq<nat>) {
    && |ms| == |ops|
    && forall i :: 0 <= i < |ops| && ops[i].Get? ==> ms[i] <= 47_721_858 && ops[i].clock.now == (c.start + ms[i]) % 0x1_0000_0000
  }

  lemma ClockTurns(start: U32, clock: Clock, ms: nat)
    requires ms <= 47_721_858 && clock.now == (start + ms) % 0x1_0000_0000
    ensures Stamp(start, clock) == 90 * ms
  {
    if start + ms < 0x1_0000_0000 {
      assert clock.now == start + ms;
    } else {
      assert clock.now == start + ms - 0x1_0000_0000;
    }
  }

  /** A get that begins a unit `ms` milliseconds after the start stamps its packet with 90 ticks for each of them. */
  lemma UnitIsStamped(c: Config, s: Session, clock: Clock, ms: nat)
    requires Sound(c, s) && s.index == 0 && s.todo != []
    requires ms <= 47_721_858 && clock.now == (c.start + ms) % 0x1_0000_0000
    ensures var (s', p) := DoGet(c, s, clock);
      p.Some? && p.value.header.timestamp == 90 * ms && s'.timestamp == 90 * ms
  {
    ClockTurns(c.start, clock, ms);
  }

  /** The same in the bytes on the wire. */
  lemma StampOnTheWire(c: Config, s: Session, clock: Clock, ms: nat)
    requires Sound(c, s) && s.index == 0 && s.todo != []
    requires ms <= 47_721_858 && clock.now == (c.start + ms) % 0x1_0000_0000
    ensures DoGet(c, s, clock).1.Some?
    ensures var w := Encode(DoGet(c, s, clock).1.value);
      |w| >= 12 && ((w[4] as int * 0x100 + w[5]) * 0x100 + w[6]) * 0x100 + w[7] == 90 * ms
  {
    UnitIsStamped(c, s, clock, ms);
    WireBytes(DoGet(c, s, clock).1.value);
  }

  /** Any other get keeps the timestamp. */
  lemma RestKeepsStamp(c: Config, s: Session, clock: Clock)
    requires Sound(c, s) && (s.index > 0 || s.todo == [])
    ensures var (s', p) := DoGet(c, s, clock);
      s'.timestamp == s.timestamp && (p.Some? ==> p.value.header.timestamp == s.timestamp)
  {
  }

  predicate Ascending(ps: seq<Packet>, lo: nat) {
    && (forall i :: 0 <= i < |ps| ==> lo <= ps[i].header.timestamp)
    && (forall i, j :: 0 <= i <= j < |ps| ==> ps[i].header.timestamp <= ps[j].header.timestamp)
  }

  predicate Rising(ms: seq<nat>, lo: nat) {
    && (forall i :: 0 <= i < |ms| ==> lo <= ms[i])
    && (forall i, j :: 0 <= i <= j < |ms| ==> ms[i] <= ms[j])
  }

  lemma ClockedTail(c: Config, ops: seq<Op>, ms: seq<nat>)
    requires Clocked(c, ops, ms) && ops != []
    ensures Clocked(c, ops[1..], ms[1..])
  {
    assert forall i :: 0 <= i < |ops[1..]| ==> ops[1..][i] == ops[i + 1] && ms[1..][i] == ms[i + 1];
  }

  lemma AscendingCons(p: Packet, ps: seq<Packet>, lo: nat)
    requires lo <= p.header.timestamp && Ascending(ps, p.header.timestamp)
    ensures Ascending([p] + ps, lo)
  {
    var all := [p] + ps;
    assert forall i :: 1 <= i < |all| ==> all[i] == ps[i - 1];
  }

  lemma StepStamps(c: Config, s: Session, op: Op, ms: nat)
    requires Sound(c, s) && OpOk(op)
    requires op.Get? ==> ms <= 47_721_858 && op.clock.now == (c.start + ms) % 0x1_0000_0000
    ensures var (s', p) := Step(c, s, op);
      && (p.Some? ==> p.value.header.timestamp == s'.timestamp)
      && (s'.timestamp == s.timestamp || s'.timestamp == 90 * ms)
  {
    if op.Get? {
      if s.index == 0 && s.todo != [] {
        UnitIsStamped(c, s, op.clock, ms);
      } else {
        RestKeepsStamp(c, s, op.clock);
      }
    }
  }

  /** While the clock does not run backwards the timestamps of a run never decrease, whatever times the clock itself wraps. */
  lemma {:induction false} TimestampsAscend(c: Config, s: Session, ops: seq<Op>, ms: seq<nat>, lo: nat)
    requires Sound(c, s) && OpsOk(ops) && Clocked(c, ops, ms) && Rising(ms, lo)
    requires s.timestamp <= 90 * lo
    ensures Ascending(Run(c, s, ops).1, s.timestamp)
    decreases |ops|
  {
    if ops != [] {
      StepSound(c, s, ops[0]);
      StepStamps(c, s, ops[0], ms[0]);
      var (s1, p) := Step(c, s, ops[0]);
      ClockedTail(c, ops, ms);
      TimestampsAscend(c, s1, ops[1..], ms[1..], ms[0]);
      if p.Some? {
        AscendingCons(p.value, Run(c, s1, ops[1..]).1, s.timestamp);
      }
    }
  }

  /** What each call of a run returns; puts return nothing. */
  function Outputs(c: Config, s: Session, ops: seq<Op>): (outs: seq<Option<Packet>>)
    requires Sound(c, s) && OpsOk(ops)
    ensures |outs| == |ops|
    decreases |ops|
  {
    if ops == [] then []
    else
      StepSound(c, s, ops[0]);
      [Step(c, s, ops[0]).1] + Outputs(c, Step(c, s, ops[0]).0, ops[1..])
  }

  /** Call `i` returns nothing, or goes on with the unit of the packet before, or begins one at `ms[i]`. */
  predicate StampedAt(outs: seq<Option<Packet>>, ms: seq<nat>, i: nat)
    requires 0 < i < |outs| == |ms|
  {
    outs[i].Some? ==>
      if outs[i - 1].Some? && !outs[i - 1].value.header.marker
      then outs[i].value.header.timestamp == outs[i - 1].value.header.timestamp
      else outs[i].value.header.timestamp == 90 * ms[i]
  }

  predicate AllStamped(outs: seq<Option<Packet>>, ms: seq<nat>)
    requires |outs| == |ms|
  {
    forall i :: 0 < i < |outs| ==> StampedAt(outs, ms, i)
  }

  lemma FirstStamp(c: Config, s: Session, clock: Clock, ms: nat)
    requires Sound(c, s) && ms <= 47_721_858 && clock.now == (c.start + ms) % 0x1_0000_0000
    ensures var p := DoGet(c, s, clock).1;
      p.Some? ==> p.value.header.timestamp == if s.index > 0 then s.timestamp else 90 * ms
  {
    if s.index == 0 && s.todo != [] {
      UnitIsStamped(c, s, clock, ms);
    }
  }

  /** A packet leaves the session inside its unit exactly when it is not marked. */
  lemma MarkedEnds(c: Config, s: Session, op: Op)
    requires Sound(c, s) && OpOk(op)
    ensures var (s', p) := Step(c, s, op);
      && (p.Some? ==> (s'.index > 0 <==> !p.value.header.marker) && s'.timestamp == p.value.header.timestamp)
      && (p.None? ==> s'.index == 0)
  {
  }

  lemma StampedCons(p: Option<Packet>, outs: seq<Option<Packet>>, ms: seq<nat>, m: nat)
    requires |outs| == |ms| && AllStamped(outs, ms) && (outs != [] ==> StampedAt([p] + outs, [m] + ms, 1))
    ensures AllStamped([p] + outs, [m] + ms)
  {
    var o, t := [p] + outs, [m] + ms;
    forall i | 0 < i < |o| ensures StampedAt(o, t, i) {
      if i > 1 {
        assert StampedAt(outs, ms, i - 1);
        assert o[i] == outs[i - 1] && o[i - 1] == outs[i - 2] && t[i] == ms[i - 1];
      }
    }
  }

  /**
   Over any run: the packet of a get is stamped with 90 ticks for each millisecond elapsed at that get, unless it
   comes right behind an unmarked packet, whose unit and stamp it continues.
   */
  lemma {:induction false} TimestampsAreTicks(c: Config, s: Session, ops: seq<Op>, ms: seq<nat>)
    requires Sound(c, s) && OpsOk(ops) && Clocked(c, ops, ms)
    ensures AllStamped(Outputs(c, s, ops), ms)
    ensures ops != [] && Outputs(c, s, ops)[0].Some? && s.index == 0 ==> Outputs(c, s, ops)[0].value.header.timestamp == 90 * ms[0]
    decreases |ops|
  {
    if ops != [] {
      StepSound(c, s, ops[0]);
      if ops[0].Get? {
        FirstStamp(c, s, ops[0].clock, ms[0]);
      }
      var (s1, p) := Step(c, s, ops[0]);
      var outs := Outputs(c, s1, ops[1..]);
      ClockedTail(c, ops, ms);
      TimestampsAreTicks(c, s1, ops[1..], ms[1..]);
      MarkedEnds(c, s, ops[0]);
      if |ops| > 1 {
        FirstOutput(c, s1, ops[1..]);
        SecondStamp(c, s1, p, ops[1], ms[1], [p] + outs, ms);
      }
      assert ms == [ms[0]] + ms[1..];
      StampedCons(p, outs, ms[1..], ms[0]);
    }
  }

  lemma FirstOutput(c: Config, s: Session, ops: seq<Op>)
    requires Sound(c, s) && OpsOk(ops) && ops != []
    ensures Outputs(c, s, ops)[0] == Step(c, s, ops[0]).1
  {
  }

  lemma SecondStamp(c: Config, s: Session, p: Option<Packet>, op: Op, m: nat, o: seq<Option<Packet>>, ms: seq<nat>)
    requires Sound(c, s) && OpOk(op) && |o| == |ms| > 1 && o[0] == p && o[1] == Step(c, s, op).1 && ms[1] == m
    requires op.Get? ==> m <= 47_721_858 && op.clock.now == (c.start + m) % 0x1_0000_0000
    requires p.Some? ==> (s.index > 0 <==> !p.value.header.marker) && s.timestamp == p.value.header.timestamp
    requires p.None? ==> s.index == 0
    ensures StampedAt(o, ms, 1)
  {
    NextStamp(c, s, op, m, o[1]);
  }

  lemma NextStamp(c: Config, s: Session, op: Op, m: nat, q: Option<Packet>)
    requires Sound(c, s) && OpOk(op) && q == Step(c, s, op).1
    requires op.Get? ==> m <= 47_721_858 && op.clock.now == (c.start + m) % 0x1_0000_0000
    ensures q.Some? ==> q.value.header.timestamp == if s.index > 0 then s.timestamp else 90 * m
  {
    if op.Get? {
      FirstStamp(c, s, op.clock, m);
    }
  }

  /** Within one unit the timestamp stays: it moves only behind a marked packet. */
  predicate SteadyWithinUnits(ps: seq<Packet>, ts: U32, open: bool) {
    && (open && ps != [] ==> ps[0].header.timestamp == ts)
    && (forall i :: 0 <= i < |ps| - 1 && !ps[i].header.marker ==>
          ps[i + 1].header.timestamp == ps[i].header.timestamp)
  }

  /** No put comes in the middle of a unit. */
  ghost predicate PutsBetweenUnits(c: Config, s: Session, ops: seq<Op>)
    requires Sound(c, s) && OpsOk(ops)
    decreases |ops|
  {
    if ops == [] then true
    else
      StepSound(c, s, ops[0]);
      && (ops[0].Put? ==> s.index == 0)
      && PutsBetweenUnits(c, Step(c, s, ops[0]).0, ops[1..])
  }

  lemma {:induction false} TimestampsSteady(c: Config, s: Session, ops: seq<Op>)
    requires Sound(c, s) && OpsOk(ops) && PutsBetweenUnits(c, s, ops)
    ensures SteadyWithinUnits(Run(c, s, ops).1, s.timestamp, s.index > 0)
    decreases |ops|
  {
    if ops != [] {
      StepSound(c, s, ops[0]);
      var (s1, p) := Step(c, s, ops[0]);
      TimestampsSteady(c, s1, ops[1..]);
      var ps := Run(c, s1, ops[1..]).1;
      if p.Some? {
        assert p.value.header.timestamp == s1.timestamp;
        assert !p.value.header.marker ==> s1.index > 0;
        var all := [p.value] + ps;
        assert forall i :: 0 < i < |all| ==> all[i] == ps[i - 1];
      }
    }
  }

  /** A get that comes right after an unmarked packet goes on with the same unit and carries its timestamp. */
  predicate Continues(p: Option<Packet>, q: Option<Packet>) {
    p.Some? && !p.value.header.marker ==> q.Some? && q.value.header.timestamp == p.value.header.timestamp
  }

  lemma GetContinues(c: Config, s: Session, clock: Clock, next: Clock)
    requires Sound(c, s)
    ensures Sound(c, DoGet(c, s, clock).0)
    ensures Continues(DoGet(c, s, clock).1, DoGet(c, DoGet(c, s, clock).0, next).1)
  {
    StepSound(c, s, Get(clock));
  }

  /** In every run, whenever its puts come: only a put can keep the rest of a unit from following it. */
  lemma {:induction false} UnitsStayTogether(c: Config, s: Session, ops: seq<Op>)
    requires Sound(c, s) && OpsOk(ops)
    ensures forall i :: 0 <= i < |ops| - 1 && ops[i + 1].Get? ==> Continues(Outputs(c, s, ops)[i], Outputs(c, s, ops)[i + 1])
    decreases |ops|
  {
    if ops != [] {
      StepSound(c, s, ops[0]);
      var s1, outs := Step(c, s, ops[0]).0, Outputs(c, s, ops);
      UnitsStayTogether(c, s1, ops[1..]);
      assert forall i :: 1 <= i < |ops| ==> outs[i] == Outputs(c, s1, ops[1..])[i - 1] && ops[i] == ops[1..][i - 1];
      if |ops| > 1 && ops[0].Get? && ops[1].Get? {
        GetContinues(c, s, ops[0].clock, ops[1].clock);
        assert outs[1] == Step(c, s1, ops[1]).1;
      }
    }
  }

  // ---- puts that do not wait ----

  /** The units owed that the puts of a run throw away. */
  function Dropped(c: Config, s: Session, ops: seq<Op>): nat
    requires Sound(c, s) && OpsOk(ops)
    decreases |ops|
  {
    if ops == [] then 0
    else
      StepSound(c, s, ops[0]);
      (if ops[0].Put? then |Owed(s)| else 0) + Dropped(c, Step(c, s, ops[0]).0, ops[1..])
  }

  lemma {:induction false} NothingDropped(c: Config, s: Session, ops: seq<Op>)
    requires Sound(c, s) && OpsOk(ops)
    ensures Dropped(c, s, ops) == 0 <==> PutsWhenDrained(c, s, ops)
    decreases |ops|
  {
    if ops != [] {
      StepSound(c, s, ops[0]);
      NothingDropped(c, Step(c, s, ops[0]).0, ops[1..]);
    }
  }

  /** The receiver is in step, or waits for the rest of a unit that a put has cut off. */
  ghost predicate LooselyInStep(c: Config, s: Session, r: Receiver)
    requires Sound(c, s)
  {
    InStep(c, s, r) || (r.Receiver? && r.expected == s.seqNum && s.index == 0 && r.partial.Some?)
  }

  /** A new unit breaks a receiver that waits for the rest of another. */
  lemma NewUnitBreaks(c: Config, unit: seq<Byte>, ts: U32, r: Receiver)
    requires c.max > 0 && Carriable(unit) && r.Receiver? && r.partial.Some?
    ensures Accept(r, Encode(EmitPacket(c, r.expected, unit, 0, ts))) == Broken
  {
    var p := EmitPacket(c, r.expected, unit, 0, ts);
    AcceptEncoded(r, p);
    if |unit| > c.max {
      FragmentBits(unit, c.max, 0);
    }
  }

  lemma {:induction false} BrokenStays(ps: seq<Packet>)
    ensures AcceptAll(Broken, ps) == Broken
    decreases |ps|
  {
    if ps != [] {
      BrokenStays(ps[1..]);
    }
  }

  /** One get, at a receiver that is loosely in step. */
  lemma LooseGet(c: Config, s: Session, clock: Clock, r: Receiver)
    requires Sound(c, s) && LooselyInStep(c, s, r) && AllCarriable(Owed(s))
    ensures var (s', p) := DoGet(c, s, clock);
      var r' := if p.Some? then Accept(r, Encode(p.value)) else r;
      && Sound(c, s')
      && (r' == Broken || (LooselyInStep(c, s', r') && |r'.units| + |Owed(s')| == |r.units| + |Owed(s)|))
  {
    OwedHead(s);
    if InStep(c, s, r) {
      GetDelivers(c, s, clock, r);
      SameTotal(DoGet(c, s, clock).0, s, if DoGet(c, s, clock).1.Some? then Accept(r, Encode(DoGet(c, s, clock).1.value)) else r, r);
    } else if s.todo != [] {
      StepSound(c, s, Get(clock));
      assert Carriable(Owed(s)[0]);
      NewUnitBreaks(c, s.todo[0], Stamp(c.start, clock), r);
    }
  }

  lemma SameTotal(s': Session, s: Session, r': Receiver, r: Receiver)
    requires r'.Receiver? && r.Receiver? && r'.units + Owed(s') == r.units + Owed(s)
    ensures |r'.units| + |Owed(s')| == |r.units| + |Owed(s)|
  {
    assert |r'.units + Owed(s')| == |r.units + Owed(s)|;
  }

  /** Units are received, owed or thrown away by a put, unless the receiver has broken. */
  lemma {:induction false} RunAccounts(c: Config, s: Session, ops: seq<Op>, r: Receiver)
    requires Sound(c, s) && OpsOk(ops) && LooselyInStep(c, s, r) && AllCarriable(Owed(s) + UnitsPut(ops))
    ensures var (s', ps) := Run(c, s, ops);
      var r' := AcceptAll(r, ps);
      r' == Broken ||
      |r'.units| + |Owed(s')| + Dropped(c, s, ops) == |r.units| + |Owed(s)| + |UnitsPut(ops)|
    decreases |ops|
  {
    if ops != [] {
      StepSound(c, s, ops[0]);
      var (s1, p) := Step(c, s, ops[0]);
      var later := UnitsPut(ops[1..]);
      if ops[0].Put? {
        CarriableParts(Owed(s), UnitsPut(ops));
        assert Owed(s1) == Payloads(Split(ops[0].buf, 0));
        RunAccounts(c, s1, ops[1..], r);
      } else {
        CarriableParts(Owed(s), later);
        LooseGet(c, s, ops[0].clock, r);
        GetOwes(c, s, ops[0].clock, later);
        var r1 := if p.Some? then Accept(r, Encode(p.value)) else r;
        AcceptCons(r, p, Run(c, s1, ops[1..]).1);
        if r1 == Broken {
          BrokenStays(Run(c, s1, ops[1..]).1);
        } else {
          RunAccounts(c, s1, ops[1..], r1);
        }
      }
    }
  }

  /**
   The receiver has, or is still owed, exactly what was put, in order, if and only if every put waited until
   the buffer before it was drained.
   */
  lemma DeliversExactlyWhenDrained(c: Config, s: Session, ops: seq<Op>, r: Receiver)
    requires Sound(c, s) && OpsOk(ops) && InStep(c, s, r) && AllCarriable(Owed(s) + UnitsPut(ops))
    ensures var (s', ps) := Run(c, s, ops);
      AcceptAll(r, ps).Receiver? && AcceptAll(r, ps).units + Owed(s') == r.units + (Owed(s) + UnitsPut(ops))
      <==> PutsWhenDrained(c, s, ops)
  {
    if PutsWhenDrained(c, s, ops) {
      RunDelivers(c, s, ops, r);
    } else {
      var (s', ps) := Run(c, s, ops);
      RunAccounts(c, s, ops, r);
      NothingDropped(c, s, ops);
      if AcceptAll(r, ps).Receiver? {
        assert |AcceptAll(r, ps).units + Owed(s')| < |r.units + (Owed(s) + UnitsPut(ops))|;
      }
    }
  }

  // ---- a put too early ----

  /** A drained session is loaded, and then any number of gets. */
  lemma LoadDelivers(c: Config, s: Session, buf: seq<Byte>, gets: seq<Op>, r: Receiver)
    requires Sound(c, s) && s.index == 0 && InStep(c, s, r) && WellEnded(buf) && AllGets(gets)
    requires AllCarriable(Payloads(Split(buf, 0)))
    ensures OpsOk(gets) && Sound(c, DoPut(s, buf))
    ensures var (s', ps) := Run(c, DoPut(s, buf), gets);
      && InStepAfter(c, s', AcceptAll(r, ps))
      && AcceptAll(r, ps).units + Owed(s') == r.units + Payloads(Split(buf, 0))
  {
    StepSound(c, s, Put(buf));
    var s1, units := DoPut(s, buf), Payloads(Split(buf, 0));
    GetsPutNothing(c, s1, gets);
    assert Owed(s1) == units && units + [] == units;
    RunDelivers(c, s1, gets, r);
  }

  ghost predicate InStepAfter(c: Config, s: Session, r: Receiver) {
    Sound(c, s) && InStep(c, s, r)
  }

  lemma PutFirst(c: Config, s: Session, buf: seq<Byte>, more: seq<Op>)
    requires Sound(c, s) && WellEnded(buf) && OpsOk(more)
    ensures OpsOk([Put(buf)] + more) && Sound(c, DoPut(s, buf))
    ensures Run(c, s, [Put(buf)] + more) == Run(c, DoPut(s, buf), more)
    ensures PutsWhenDrained(c, s, [Put(buf)] + more) <==> Owed(s) == [] && PutsWhenDrained(c, DoPut(s, buf), more)
    ensures UnitsPut([Put(buf)] + more) == Payloads(Split(buf, 0)) + UnitsPut(more)
  {
    var ops := [Put(buf)] + more;
    assert OpsOk(ops) by {
      assert forall i :: 1 <= i < |ops| ==> ops[i] == more[i - 1];
    }
    assert ops[1..] == more;
    StepSound(c, s, Put(buf));
  }

  lemma TwoPuts(c: Config, s: Session, b1: seq<Byte>, b2: seq<Byte>, gets: seq<Op>)
    requires Sound(c, s) && WellEnded(b1) && WellEnded(b2) && AllGets(gets)
    ensures OpsOk([Put(b1), Put(b2)] + gets) && Sound(c, DoPut(s, b1)) && Sound(c, DoPut(DoPut(s, b1), b2))
    ensures Run(c, s, [Put(b1), Put(b2)] + gets) == Run(c, DoPut(DoPut(s, b1), b2), gets)
    ensures PutsWhenDrained(c, s, [Put(b1), Put(b2)] + gets) ==> Payloads(Split(b1, 0)) == []
    ensures UnitsPut([Put(b1), Put(b2)] + gets) == Payloads(Split(b1, 0)) + Payloads(Split(b2, 0))
  {
    StepSound(c, s, Put(b1));
    StepSound(c, DoPut(s, b1), Put(b2));
    GetsPutNothing(c, DoPut(DoPut(s, b1), b2), gets);
    PutFirst(c, DoPut(s, b1), b2, gets);
    PutFirst(c, s, b1, [Put(b2)] + gets);
    assert [Put(b1)] + ([Put(b2)] + gets) == [Put(b1), Put(b2)] + gets;
    assert Owed(DoPut(s, b1)) == Payloads(Split(b1, 0));
    assert Payloads(Split(b2, 0)) + [] == Payloads(Split(b2, 0));
  }

  /** Two puts in a row: of the first buffer the receiver never gets anything. */
  lemma SecondPutDiscards(c: Config, s: Session, b1: seq<Byte>, b2: seq<Byte>, gets: seq<Op>, r: Receiver)
    requires Sound(c, s) && s.index == 0 && InStep(c, s, r) && WellEnded(b1) && WellEnded(b2) && AllGets(gets)
    requires AllCarriable(Payloads(Split(b2, 0)))
    ensures OpsOk([Put(b1), Put(b2)] + gets)
    ensures var (s', ps) := Run(c, s, [Put(b1), Put(b2)] + gets);
      AcceptAll(r, ps).Receiver? && AcceptAll(r, ps).units + Owed(s') == r.units + Payloads(Split(b2, 0))
  {
    TwoPuts(c, s, b1, b2, gets);
    LoadDelivers(c, DoPut(s, b1), b2, gets, r);
  }

  /** A buffer of one unit, put twice before anything is taken: one of the two never arrives. */
  lemma PutTwiceLosesAUnit(c: Config, s: Session, gets: seq<Op>, r: Receiver)
    requires Sound(c, s) && Owed(s) == [] && InStep(c, s, r) && AllGets(gets)
    ensures var ops := [Put([0, 0, 1, 0x65]), Put([0, 0, 1, 0x65])] + gets;
      && OpsOk(ops) && UnitsPut(ops) == [[0x65], [0x65]] && !PutsWhenDrained(c, s, ops)
      && var (s', ps) := Run(c, s, ops);
         AcceptAll(r, ps).Receiver? && AcceptAll(r, ps).units + Owed(s') == r.units + [[0x65]]
  {
    var buf: seq<Byte> := [0, 0, 1, 0x65];
    OneUnit(buf);
    TwoPuts(c, s, buf, buf, gets);
    assert [[0x65]] + [[0x65]] == [[0x65], [0x65]];
    SecondPutDiscards(c, s, buf, buf, gets, r);
  }

  lemma OneUnit(buf: seq<Byte>)
    requires buf == [0, 0, 1, 0x65]
    ensures WellEnded(buf) && Payloads(Split(buf, 0)) == [[0x65]] && AllCarriable([[0x65]])
  {
    var us := [Unit(3, [0x65])];
    assert Join(us[1..]) == [];
    assert Join(us) == buf;
    assert AllProper(us);
    ProperRoundTrip(us);
    assert Payloads(us) == [[0x65]];
  }

  // ---- the whole trip ----

  /**
   The law the packer exists for: join any proper, carriable units behind any start codes, put the
   buffer, drain it whatever the clock says, and the receiver has exactly those units, in order.
   */
  lemma RoundTrip(c: Config, s: Session, us: seq<Unit>, gets: seq<Op>, r: Receiver)
    requires Sound(c, s) && Owed(s) == [] && InStep(c, s, r)
    requires us != [] && AllProper(us) && AllCarriable(Payloads(us))
    requires AllGets(gets) && |gets| >= PacketCount(Payloads(us), c.max)
    ensures WellEnded(Join(us)) && OpsOk(gets) && Sound(c, DoPut(s, Join(us)))
    ensures var (s', ps) := Run(c, DoPut(s, Join(us)), gets);
      && |ps| == PacketCount(Payloads(us), c.max)
      && Sound(c, s') && InStep(c, s', AcceptAll(r, ps))
      && AcceptAll(r, ps).units == r.units + Payloads(us)
  {
    var ds := Payloads(us);
    ProperRoundTrip(us);
    var s1 := DoPut(s, Join(us));
    StepSound(c, s, Put(Join(us)));
    assert s1.todo == ds && Owed(s1) == ds;
    GetsPutNothing(c, s1, gets);
    assert ds + [] == ds;
    RunDelivers(c, s1, gets, r);
    DrainCompletes(c, s1, gets);
    assert r.units + (ds + []) == r.units + ds;
  }

  /** Enough gets empty a freshly loaded session, one packet for each pending fragment. */
  lemma DrainCompletes(c: Config, s: Session, gets: seq<Op>)
    requires Sound(c, s) && s.index == 0
    requires AllGets(gets) && |gets| >= PacketCount(s.todo, c.max)
    ensures OpsOk(gets) && Sound(c, Run(c, s, gets).0)
    ensures |Run(c, s, gets).1| == PacketCount(s.todo, c.max)
    ensures Owed(Run(c, s, gets).0) == []
  {
    PacketizeLength(s.todo, c.max);
    assert Pending(c, s) == Packetize(s.todo, c.max);
    DrainRefines(c, s, gets);
    NothingPending(c, Run(c, s, gets).0);
  }

  lemma NothingPending(c: Config, s: Session)
    requires Sound(c, s)
    ensures Pending(c, s) == [] <==> Owed(s) == []
  {
  }

  lemma {:induction false} GetsPutNothing(c: Config, s: Session, gets: seq<Op>)
    requires Sound(c, s) && AllGets(gets) && OpsOk(gets)
    ensures UnitsPut(gets) == [] && PutsWhenDrained(c, s, gets)
    decreases |gets|
  {
    if gets != [] {
      StepSound(c, s, gets[0]);
      GetsPutNothing(c, Step(c, s, gets[0]).0, gets[1..]);
    }
  }
}
