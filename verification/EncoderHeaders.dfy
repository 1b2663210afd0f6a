/**
 When the encoder hands out parameter sets: a small stage machine that survives between calls, and
 a counter of frames since the group of pictures began. The stage variables are static: all encoders
 share them.
 */
module EncoderHeaders {
  import opened Arithmetic
  import opened Sequences

  datatype Header = Sps | SpsMvc | Pps | PpsMvc

  const STAGE_SPS := 0
  const STAGE_SPS_MVC := 1
  const STAGE_PPS := 2
  const STAGE_PPS_MVC := 3

  /** One complete set, in the order in which a decoder must see it. */
  function HeaderSet(mvc: bool): seq<Header> {
    if mvc then [Sps, SpsMvc, Pps, PpsMvc] else [Sps, Pps]
  }

  /** How many headers of the set are out before a stage. */
  function Position(stage: int, mvc: bool): nat {
    if stage <= STAGE_SPS then 0
    else if stage == STAGE_SPS_MVC then 1
    else if stage == STAGE_PPS then (if mvc then 2 else 1)
    else 3
  }

  /** The counter after a frame was encoded, or was not. */
  function NextCounter(counter: int, gop: int, ok: bool): int {
    if !ok then counter else if counter + 1 >= gop then 0 else counter + 1
  }

  /** The stage variables as a value. */
  datatype Stage = Stage(next: int, ended: bool)

  /** A call's answer, and the stage it leaves. */
  datatype Answer = Answer(ret: int, header: Header, stage: Stage)

  /** One call at any stage, even one that an encoder of the other kind has left. */
  function Ask(counter: int, mvc: bool, s: Stage): Answer {
    if counter != 0 then Answer(0, Sps, s)
    else if s.ended then Answer(0, Sps, Stage(s.next, false))
    else if s.next == STAGE_SPS then Answer(1, Sps, Stage(if mvc then STAGE_SPS_MVC else STAGE_PPS, false))
    else if s.next == STAGE_SPS_MVC then Answer(1, SpsMvc, Stage(STAGE_PPS, false))
    else if s.next == STAGE_PPS then Answer(1, Pps, if mvc then Stage(STAGE_PPS_MVC, false) else Stage(STAGE_SPS, true))
    else Answer(1, PpsMvc, Stage(STAGE_SPS, true))
  }

  /** A stage belongs to an encoder's kind of set, and a set that has ended is over. */
  predicate Proper(s: Stage, mvc: bool) {
    && STAGE_SPS <= s.next <= STAGE_PPS_MVC
    && (!mvc ==> s.next == STAGE_SPS || s.next == STAGE_PPS)
    && (s.ended ==> s.next == STAGE_SPS)
  }

  const REST := Stage(STAGE_SPS, false)

  /** The headers of the current set that are already out. */
  function Out(s: Stage, mvc: bool): nat {
    if s.ended then |HeaderSet(mvc)| else Position(s.next, mvc)
  }

  /** At a stage of its own an encoder gets the next header of its set, and 0 exactly when none is due or left. */
  lemma AskIsNext(counter: int, mvc: bool, s: Stage)
    requires Proper(s, mvc)
    ensures var a := Ask(counter, mvc, s);
      && Proper(a.stage, mvc)
      && (a.ret == 1 <==> counter == 0 && !s.ended) && (a.ret == 0 || a.ret == 1)
      && (a.ret == 1 ==> Out(s, mvc) < |HeaderSet(mvc)| && a.header == HeaderSet(mvc)[Out(s, mvc)]
                         && Out(a.stage, mvc) == Out(s, mvc) + 1)
      && (counter == 0 && s.ended ==> a.stage == REST)
      && (counter != 0 ==> a.stage == s)
  {
  }

  /**
   Two encoders whose drains interleave mix their sets. Of two plain ones the second is given a PPS without
   its SPS, and then the first is told that its set is complete. (With one of the extension, which the
   program never opens, the other is given a header that its set does not even have.)
   */
  lemma InterleavedDrainsMix()
    ensures var first := Ask(0, false, REST);
      var second := Ask(0, false, first.stage);
      && first.ret == 1 && first.header == Sps
      && second == Answer(1, Pps, Stage(STAGE_SPS, true))
      && Ask(0, false, second.stage).ret == 0
    ensures Ask(0, false, Ask(0, true, REST).stage).ret == 1
    ensures Ask(0, false, Ask(0, true, REST).stage).header !in HeaderSet(false)
  {
  }

  /** The static variables. */
  class Stages {
    var next: int
    var ended: bool

    constructor ()
      ensures View() == REST
    {
      next, ended := STAGE_SPS, false;
    }

    ghost function View(): Stage
      reads this
    {
      Stage(next, ended)
    }
  }

  class EncHandle {
    const stages: Stages
    var counter: int            // gop_offset_counter
    var gop: int
    const mvc: bool
    var forceIPicture: bool

    constructor (stages: Stages, gop: int, mvc: bool)
      ensures this.stages == stages && counter == 0 && this.gop == gop && this.mvc == mvc && !forceIPicture
    {
      this.stages, counter, forceIPicture := stages, 0, false;
      this.gop, this.mvc := gop, mvc;
    }

    /** Between two drains. */
    ghost predicate AtRest()
      reads stages
    {
      stages.View() == REST
    }

    /** One header per call; 0 when none is due or the set is complete. */
    method GetHeaders() returns (ret: int, header: Header)
      requires STAGE_SPS <= stages.next <= STAGE_PPS_MVC
      modifies stages
      ensures Answer(ret, header, stages.View()) == Ask(counter, mvc, old(stages.View()))
    {
      header := Sps;
      if counter != 0 {
        return 0, header;
      }
      if stages.ended {
        stages.ended := false;
        return 0, header;
      }
      if stages.next == STAGE_SPS {
        stages.next := if mvc then STAGE_SPS_MVC else STAGE_PPS;
      } else if stages.next == STAGE_SPS_MVC {
        header := SpsMvc;
        stages.next := STAGE_PPS;
      } else if stages.next == STAGE_PPS {
        header := Pps;
        if mvc {
          stages.next := STAGE_PPS_MVC;
        } else {
          stages.next, stages.ended := STAGE_SPS, true;
        }
      } else {
        header := PpsMvc;
        stages.next, stages.ended := STAGE_SPS, true;
      }
      ret := 1;
    }

    /** The client's loop: it ends, with one complete set when the counter is 0 and with nothing else. */
    method DrainHeaders() returns (headers: seq<Header>)
      requires AtRest()
      modifies stages
      ensures AtRest()
      ensures headers == if counter != 0 then [] else if mvc then [Sps, SpsMvc, Pps, PpsMvc] else [Sps, Pps]
    {
      headers := [];
      while true
        invariant Proper(stages.View(), mvc) && (counter != 0 ==> AtRest() && headers == [])
        invariant counter == 0 ==> |headers| == Out(stages.View(), mvc) <= |HeaderSet(mvc)|
        invariant counter == 0 ==> headers == HeaderSet(mvc)[..|headers|]
        decreases |HeaderSet(mvc)| - |headers|
      {
        AskIsNext(counter, mvc, stages.View());
        var ret, header := GetHeaders();
        if ret != 1 {
          break;
        }
        headers := headers + [header];
      }
    }

    /** Encode one frame; `ok` says whether the hardware delivers it. */
    method EncodeDo(ok: bool) returns (ret: int)
      modifies this`counter, this`forceIPicture
      ensures ret == (if ok then 0 else -1) && !forceIPicture
      ensures counter == if !ok then old(counter) else if old(counter) + 1 < gop then old(counter) + 1 else 0
    {
      forceIPicture := false;
      if !ok {
        return -1;
      }
      counter := counter + 1;
      if counter >= gop {
        counter := 0;
      }
      ret := 0;
    }

    method ForceIPic()
      modifies this`counter, this`forceIPicture
      ensures counter == 0 && forceIPicture
    {
      forceIPicture := true;
      counter := 0;
    }
  }

  // ---- whole runs ----

  /** One turn of the client: perhaps force an I picture, drain the headers, encode a frame. */
  datatype Round = Round(force: bool, ok: bool)

  /** The counter when the headers of a round are drained. */
  function AtDrain(counter: int, r: Round): int {
    if r.force then 0 else counter
  }

  /** For each round, the headers it starts with. */
  function Headers(counter: int, gop: int, mvc: bool, rounds: seq<Round>): (hs: seq<seq<Header>>)
    ensures |hs| == |rounds|
    decreases |rounds|
  {
    if rounds == [] then []
    else
      var c := AtDrain(counter, rounds[0]);
      [if c == 0 then HeaderSet(mvc) else []] + Headers(NextCounter(c, gop, rounds[0].ok), gop, mvc, rounds[1..])
  }

  function CounterAfter(counter: int, gop: int, rounds: seq<Round>): int
    decreases |rounds|
  {
    if rounds == [] then counter
    else CounterAfter(NextCounter(AtDrain(counter, rounds[0]), gop, rounds[0].ok), gop, rounds[1..])
  }

  /** Round `i` is the first of those from `i` on; `log` has the headers of the rounds before. */
  lemma RoundFrom(counter: int, gop: int, mvc: bool, rounds: seq<Round>, i: nat, log: seq<seq<Header>>)
    requires i < |rounds|
    ensures var c := AtDrain(counter, rounds[i]);
            var next := NextCounter(c, gop, rounds[i].ok);
            && log + Headers(counter, gop, mvc, rounds[i..]) ==
               log + [if c == 0 then HeaderSet(mvc) else []] + Headers(next, gop, mvc, rounds[i + 1..])
            && CounterAfter(counter, gop, rounds[i..]) == CounterAfter(next, gop, rounds[i + 1..])
  {
    Shift(rounds, i);
  }

  /** The client's loop over a list of rounds does exactly that. */
  method RunRounds(h: EncHandle, rounds: seq<Round>) returns (log: seq<seq<Header>>)
    requires h.AtRest()
    modifies h.stages, h`counter, h`forceIPicture
    ensures h.AtRest() && h.counter == CounterAfter(old(h.counter), h.gop, rounds)
    ensures log == Headers(old(h.counter), h.gop, h.mvc, rounds)
  {
    log := [];
    for i := 0 to |rounds|
      invariant h.AtRest()
      invariant CounterAfter(h.counter, h.gop, rounds[i..]) == CounterAfter(old(h.counter), h.gop, rounds)
      invariant log + Headers(h.counter, h.gop, h.mvc, rounds[i..]) == Headers(old(h.counter), h.gop, h.mvc, rounds)
    {
      RoundFrom(h.counter, h.gop, h.mvc, rounds, i, log);
      if rounds[i].force {
        h.ForceIPic();
      }
      var headers := h.DrainHeaders();
      log := log + [headers];
      var _ := h.EncodeDo(rounds[i].ok);
    }
  }

  /** A round that forces an I picture starts with the headers, whatever the counter. */
  lemma {:induction false} ForcedRoundSpeaks(counter: int, gop: int, mvc: bool, rounds: seq<Round>, i: nat)
    requires i < |rounds| && rounds[i].force
    ensures Headers(counter, gop, mvc, rounds)[i] == if mvc then [Sps, SpsMvc, Pps, PpsMvc] else [Sps, Pps]
    decreases |rounds|
  {
    if i > 0 {
      ForcedRoundSpeaks(NextCounter(AtDrain(counter, rounds[0]), gop, rounds[0].ok), gop, mvc, rounds[1..], i - 1);
    }
  }

  /** The rounds that succeed; an I picture that a failed round has forced is forced in the next of them instead. */
  function Succeeding(rounds: seq<Round>, force: bool): seq<Round> {
    if rounds == [] then []
    else if rounds[0].ok then [Round(rounds[0].force || force, true)] + Succeeding(rounds[1..], false)
    else Succeeding(rounds[1..], rounds[0].force || force)
  }

  /** The headers of the rounds that succeed. */
  function OfSucceeding(rounds: seq<Round>, hs: seq<seq<Header>>): seq<seq<Header>>
    requires |hs| == |rounds|
  {
    if rounds == [] then [] else (if rounds[0].ok then [hs[0]] else []) + OfSucceeding(rounds[1..], hs[1..])
  }

  /** A force carried over is as good as a counter of 0. */
  lemma {:induction false} ForceIsZero(counter: int, gop: int, mvc: bool, rounds: seq<Round>)
    ensures Headers(counter, gop, mvc, Succeeding(rounds, true)) == Headers(0, gop, mvc, Succeeding(rounds, false))
    decreases |rounds|
  {
    if rounds != [] {
      if rounds[0].ok {
        var rest := Succeeding(rounds[1..], false);
        assert Succeeding(rounds, true)[1..] == rest && Succeeding(rounds, false)[1..] == rest;
      } else {
        ForceIsZero(counter, gop, mvc, rounds[1..]);
        ForceIsZero(0, gop, mvc, rounds[1..]);
      }
    }
  }

  /** Failed frames leave no trace: the successful rounds start with the headers that they would start with on their own. */
  lemma {:induction false} FailuresLeaveNoTrace(counter: int, gop: int, mvc: bool, rounds: seq<Round>)
    ensures OfSucceeding(rounds, Headers(counter, gop, mvc, rounds)) == Headers(counter, gop, mvc, Succeeding(rounds, false))
    decreases |rounds|
  {
    if rounds != [] {
      var r, next := rounds[0], NextCounter(AtDrain(counter, rounds[0]), gop, rounds[0].ok);
      assert Headers(counter, gop, mvc, rounds)[1..] == Headers(next, gop, mvc, rounds[1..]);
      FailuresLeaveNoTrace(next, gop, mvc, rounds[1..]);
      if r.ok {
        assert Succeeding(rounds, false)[1..] == Succeeding(rounds[1..], false);
      } else if r.force {
        ForceIsZero(counter, gop, mvc, rounds[1..]);
      }
    }
  }

  // ---- several encoders ----

  /** One turn of the client of encoder `who`. */
  datatype Turn = Turn(who: nat, round: Round)

  /** What is fixed about an encoder. */
  datatype Kind = Kind(gop: int, mvc: bool)

  predicate AllKnown(turns: seq<Turn>, n: nat) {
    forall i :: 0 <= i < |turns| ==> turns[i].who < n
  }

  /** For each turn the headers it starts with, when encoder `k` has counted `counters[k]` frames. */
  function SharedHeaders(counters: seq<int>, kinds: seq<Kind>, turns: seq<Turn>): (hs: seq<seq<Header>>)
    requires |counters| == |kinds| && AllKnown(turns, |kinds|)
    ensures |hs| == |turns|
    decreases |turns|
  {
    if turns == [] then []
    else
      var k, r := turns[0].who, turns[0].round;
      var c := AtDrain(counters[k], r);
      [if c == 0 then HeaderSet(kinds[k].mvc) else []]
      + SharedHeaders(counters[k := NextCounter(c, kinds[k].gop, r.ok)], kinds, turns[1..])
  }

  /** The turns of encoder `k`. */
  function RoundsOf(turns: seq<Turn>, k: nat): seq<Round>
    decreases |turns|
  {
    if turns == [] then [] else (if turns[0].who == k then [turns[0].round] else []) + RoundsOf(turns[1..], k)
  }

  /** The headers of the turns of encoder `k`. */
  function HeadersOf(turns: seq<Turn>, hs: seq<seq<Header>>, k: nat): seq<seq<Header>>
    requires |hs| == |turns|
    decreases |turns|
  {
    if turns == [] then [] else (if turns[0].who == k then [hs[0]] else []) + HeadersOf(turns[1..], hs[1..], k)
  }

  /** As long as every drain is run to its end, an encoder gets the headers it would get if it were alone. */
  lemma {:induction false} EachAsIfAlone(counters: seq<int>, kinds: seq<Kind>, turns: seq<Turn>, k: nat)
    requires |counters| == |kinds| && AllKnown(turns, |kinds|) && k < |kinds|
    ensures HeadersOf(turns, SharedHeaders(counters, kinds, turns), k) ==
            Headers(counters[k], kinds[k].gop, kinds[k].mvc, RoundsOf(turns, k))
    decreases |turns|
  {
    if turns != [] {
      var who, r := turns[0].who, turns[0].round;
      var counters' := counters[who := NextCounter(AtDrain(counters[who], r), kinds[who].gop, r.ok)];
      var hs := SharedHeaders(counters, kinds, turns);
      EachAsIfAlone(counters', kinds, turns[1..], k);
      assert hs[1..] == SharedHeaders(counters', kinds, turns[1..]);
      if who == k {
        assert RoundsOf(turns, k)[1..] == RoundsOf(turns[1..], k);
      } else {
        assert RoundsOf(turns, k) == RoundsOf(turns[1..], k);
      }
    }
  }

  ghost function Counters(hs: seq<EncHandle>): (cs: seq<int>)
    reads hs
    ensures |cs| == |hs| && forall k :: 0 <= k < |cs| ==> cs[k] == hs[k].counter
  {
    seq(|hs|, k requires 0 <= k < |hs| reads hs => hs[k].counter)
  }

  ghost function Kinds(hs: seq<EncHandle>): (ks: seq<Kind>)
    reads hs
    ensures |ks| == |hs| && forall k :: 0 <= k < |ks| ==> ks[k] == Kind(hs[k].gop, hs[k].mvc)
  {
    seq(|hs|, k requires 0 <= k < |hs| reads hs => Kind(hs[k].gop, hs[k].mvc))
  }

  /** One turn of one of the encoders. */
  method TakeTurn(hs: seq<EncHandle>, stages: Stages, t: Turn) returns (headers: seq<Header>)
    requires Distinct(hs) && t.who < |hs| && stages.View() == REST && forall k :: 0 <= k < |hs| ==> hs[k].stages == stages
    modifies stages, hs`counter, hs`forceIPicture
    ensures stages.View() == REST && Kinds(hs) == old(Kinds(hs))
    ensures var c := AtDrain(old(Counters(hs))[t.who], t.round);
      && headers == (if c == 0 then HeaderSet(hs[t.who].mvc) else [])
      && Counters(hs) == old(Counters(hs))[t.who := NextCounter(c, hs[t.who].gop, t.round.ok)]
  {
    var h := hs[t.who];
    if t.round.force {
      h.ForceIPic();
    }
    headers := h.DrainHeaders();
    var _ := h.EncodeDo(t.round.ok);
  }

  lemma SharedFrom(counters: seq<int>, kinds: seq<Kind>, turns: seq<Turn>, i: nat, logs: seq<seq<Header>>)
    requires |counters| == |kinds| && AllKnown(turns, |kinds|) && i < |turns|
    ensures var k, r := turns[i].who, turns[i].round;
      var c := AtDrain(counters[k], r);
      logs + SharedHeaders(counters, kinds, turns[i..]) ==
      logs + [if c == 0 then HeaderSet(kinds[k].mvc) else []]
      + SharedHeaders(counters[k := NextCounter(c, kinds[k].gop, r.ok)], kinds, turns[i + 1..])
  {
    Shift(turns, i);
  }

  /** The clients of several encoders, whole turns in any order, on the shared stage variables. */
  method RunShared(hs: seq<EncHandle>, stages: Stages, turns: seq<Turn>) returns (logs: seq<seq<Header>>)
    requires Distinct(hs) && AllKnown(turns, |hs|)
    requires stages.View() == REST && forall k :: 0 <= k < |hs| ==> hs[k].stages == stages
    modifies stages, hs`counter, hs`forceIPicture
    ensures stages.View() == REST && logs == SharedHeaders(old(Counters(hs)), old(Kinds(hs)), turns)
  {
    ghost var ks, all := Kinds(hs), SharedHeaders(Counters(hs), Kinds(hs), turns);
    logs := [];
    for i := 0 to |turns|
      invariant stages.View() == REST && Kinds(hs) == ks
      invariant logs + SharedHeaders(Counters(hs), ks, turns[i..]) == all
    {
      SharedFrom(Counters(hs), ks, turns, i, logs);
      var headers := TakeTurn(hs, stages, turns[i]);
      logs := logs + [headers];
    }
  }

  // ---- single calls in any order ----

  predicate AllBelow(calls: seq<nat>, n: nat) {
    forall i :: 0 <= i < |calls| ==> calls[i] < n
  }

  /** The answers to single calls; `calls` names the encoder of each, and no frame is encoded in between. */
  function Answers(counters: seq<int>, kinds: seq<Kind>, s: Stage, calls: seq<nat>): (r: seq<Answer>)
    requires |counters| == |kinds| && AllBelow(calls, |kinds|)
    ensures |r| == |calls|
    decreases |calls|
  {
    if calls == [] then []
    else
      var a := Ask(counters[calls[0]], kinds[calls[0]].mvc, s);
      [a] + Answers(counters, kinds, a.stage, calls[1..])
  }

  /** What an encoder is due that has been given `got` headers of its set: the next one, or the end of the set. */
  datatype Due = Header(header: Header) | End

  function DueTo(counter: int, mvc: bool, got: nat): Due {
    if counter == 0 && got < |HeaderSet(mvc)| then Due.Header(HeaderSet(mvc)[got]) else End
  }

  function GotNext(counter: int, mvc: bool, got: nat): nat {
    if counter == 0 && got < |HeaderSet(mvc)| then got + 1 else 0
  }

  /** What each call is due, going by the calls of its own encoder alone. */
  function Dues(counters: seq<int>, kinds: seq<Kind>, got: seq<nat>, calls: seq<nat>): (r: seq<Due>)
    requires |counters| == |kinds| == |got| && AllBelow(calls, |kinds|)
    ensures |r| == |calls|
    decreases |calls|
  {
    if calls == [] then []
    else
      var k := calls[0];
      [DueTo(counters[k], kinds[k].mvc, got[k])]
      + Dues(counters, kinds, got[k := GotNext(counters[k], kinds[k].mvc, got[k])], calls[1..])
  }

  predicate Gives(a: Answer, d: Due) {
    if d.End? then a.ret == 0 else a.ret == 1 && a.header == d.header
  }

  predicate AllGiven(r: seq<Answer>, ds: seq<Due>)
    requires |r| == |ds|
  {
    forall i :: 0 <= i < |r| ==> Gives(r[i], ds[i])
  }

  predicate OthersOutside(got: seq<nat>, k: nat) {
    forall j :: 0 <= j < |got| && j != k ==> got[j] == 0
  }

  /** No encoder that is due headers calls while another is inside a drain. */
  predicate Undisturbed(counters: seq<int>, kinds: seq<Kind>, got: seq<nat>, calls: seq<nat>)
    requires |counters| == |kinds| == |got| && AllBelow(calls, |kinds|)
    decreases |calls|
  {
    if calls == [] then true
    else
      var k := calls[0];
      && (counters[k] == 0 ==> OthersOutside(got, k))
      && Undisturbed(counters, kinds, got[k := GotNext(counters[k], kinds[k].mvc, got[k])], calls[1..])
  }

  /** Nobody is inside a drain, or one encoder is and the stage says how far. */
  ghost predicate Orderly(counters: seq<int>, kinds: seq<Kind>, got: seq<nat>, s: Stage)
    requires |counters| == |kinds| == |got|
  {
    || (s == REST && forall j :: 0 <= j < |got| ==> got[j] == 0)
    || (exists k: nat :: Inside(counters, kinds, got, s, k))
  }

  predicate Inside(counters: seq<int>, kinds: seq<Kind>, got: seq<nat>, s: Stage, k: nat)
    requires |counters| == |kinds| == |got|
  {
    k < |got| && counters[k] == 0 && got[k] > 0 && OthersOutside(got, k) && Proper(s, kinds[k].mvc) && Out(s, kinds[k].mvc) == got[k]
  }

  lemma OutAtMost(s: Stage, mvc: bool)
    requires Proper(s, mvc)
    ensures Out(s, mvc) <= |HeaderSet(mvc)| && (Out(s, mvc) == |HeaderSet(mvc)| <==> s.ended) && (Out(s, mvc) == 0 <==> s == REST)
  {
  }

  /** A call that disturbs nobody is given its due and leaves things orderly. */
  lemma OwnCall(counters: seq<int>, kinds: seq<Kind>, got: seq<nat>, s: Stage, k: nat)
    requires |counters| == |kinds| == |got| && k < |got| && counters[k] == 0 && OthersOutside(got, k)
    requires Proper(s, kinds[k].mvc) && Out(s, kinds[k].mvc) == got[k]
    ensures var a := Ask(0, kinds[k].mvc, s);
      && Gives(a, DueTo(0, kinds[k].mvc, got[k]))
      && Orderly(counters, kinds, got[k := GotNext(0, kinds[k].mvc, got[k])], a.stage)
  {
    var mvc := kinds[k].mvc;
    AskIsNext(0, mvc, s);
    OutAtMost(s, mvc);
    var a, got' := Ask(0, mvc, s), got[k := GotNext(0, mvc, got[k])];
    assert a.ret == 1 ==> Inside(counters, kinds, got', a.stage, k);
  }

  /** A call while another encoder is inside a drain is not given its due, which is an SPS. */
  lemma IntrudingCall(mvc: bool, other: bool, s: Stage)
    requires Proper(s, other) && Out(s, other) > 0
    ensures !Gives(Ask(0, mvc, s), DueTo(0, mvc, 0))
  {
  }

  lemma {:induction false} GivenFrom(counters: seq<int>, kinds: seq<Kind>, got: seq<nat>, s: Stage, calls: seq<nat>)
    requires |counters| == |kinds| == |got| && AllBelow(calls, |kinds|) && Orderly(counters, kinds, got, s)
    requires forall j :: 0 <= j < |got| && counters[j] != 0 ==> got[j] == 0
    ensures AllGiven(Answers(counters, kinds, s, calls), Dues(counters, kinds, got, calls))
       <==> Undisturbed(counters, kinds, got, calls)
    decreases |calls|
  {
    if calls != [] {
      var k := calls[0];
      var a := Ask(counters[k], kinds[k].mvc, s);
      var got' := got[k := GotNext(counters[k], kinds[k].mvc, got[k])];
      GivenCons(a, Answers(counters, kinds, a.stage, calls[1..]),
                DueTo(counters[k], kinds[k].mvc, got[k]), Dues(counters, kinds, got', calls[1..]));
      FirstCall(counters, kinds, got, s, k);
      if counters[k] != 0 || OthersOutside(got, k) {
        GivenFrom(counters, kinds, got', a.stage, calls[1..]);
      }
    }
  }

  lemma GivenCons(a: Answer, r: seq<Answer>, d: Due, ds: seq<Due>)
    requires |r| == |ds|
    ensures AllGiven([a] + r, [d] + ds) <==> Gives(a, d) && AllGiven(r, ds)
  {
    if Gives(a, d) && AllGiven(r, ds) {
      assert forall i :: 0 < i < |[a] + r| ==> ([a] + r)[i] == r[i - 1] && ([d] + ds)[i] == ds[i - 1];
    }
    if AllGiven([a] + r, [d] + ds) {
      assert ([a] + r)[0] == a && ([d] + ds)[0] == d;
      forall i | 0 <= i < |r| ensures Gives(r[i], ds[i]) {
        assert ([a] + r)[i + 1] == r[i] && ([d] + ds)[i + 1] == ds[i];
      }
    }
  }

  lemma FirstCall(counters: seq<int>, kinds: seq<Kind>, got: seq<nat>, s: Stage, k: nat)
    requires |counters| == |kinds| == |got| && k < |got| && Orderly(counters, kinds, got, s)
    requires forall j :: 0 <= j < |got| && counters[j] != 0 ==> got[j] == 0
    ensures var a := Ask(counters[k], kinds[k].mvc, s);
      && (Gives(a, DueTo(counters[k], kinds[k].mvc, got[k])) <==> counters[k] != 0 || OthersOutside(got, k))
      && (counters[k] != 0 || OthersOutside(got, k) ==>
            Orderly(counters, kinds, got[k := GotNext(counters[k], kinds[k].mvc, got[k])], a.stage))
  {
    if counters[k] != 0 {
      assert got[k := 0] == got;
    } else if s == REST && forall j :: 0 <= j < |got| ==> got[j] == 0 {
      OwnCall(counters, kinds, got, s, k);
    } else {
      var j: nat :| Inside(counters, kinds, got, s, j);
      if j == k {
        OwnCall(counters, kinds, got, s, k);
      } else {
        IntrudingCall(kinds[k].mvc, kinds[j].mvc, s);
      }
    }
  }

  /**
   Whatever encoders call, in whatever order: every call is given what its own encoder is due if and only if
   no encoder that is due headers calls while another is inside a drain.
   */
  lemma GivenExactlyWhenUndisturbed(counters: seq<int>, kinds: seq<Kind>, got: seq<nat>, calls: seq<nat>)
    requires |counters| == |kinds| == |got| && AllBelow(calls, |kinds|) && forall j :: 0 <= j < |got| ==> got[j] == 0
    ensures AllGiven(Answers(counters, kinds, REST, calls), Dues(counters, kinds, got, calls))
       <==> Undisturbed(counters, kinds, got, calls)
  {
    GivenFrom(counters, kinds, got, REST, calls);
  }

  /** One call on one of the encoders. */
  method OneCall(hs: seq<EncHandle>, stages: Stages, k: nat) returns (a: Answer)
    requires k < |hs| && (forall j :: 0 <= j < |hs| ==> hs[j].stages == stages) && STAGE_SPS <= stages.next <= STAGE_PPS_MVC
    modifies stages
    ensures a == Ask(hs[k].counter, hs[k].mvc, old(stages.View())) && a.stage == stages.View()
    ensures STAGE_SPS <= stages.next <= STAGE_PPS_MVC
  {
    var ret, header := hs[k].GetHeaders();
    a := Answer(ret, header, Stage(stages.next, stages.ended));
  }

  /** The calls on the encoders themselves. */
  method CallInOrder(hs: seq<EncHandle>, stages: Stages, calls: seq<nat>) returns (r: seq<Answer>)
    requires AllBelow(calls, |hs|) && (forall k :: 0 <= k < |hs| ==> hs[k].stages == stages)
    requires STAGE_SPS <= stages.next <= STAGE_PPS_MVC
    modifies stages
    ensures r == Answers(Counters(hs), Kinds(hs), old(stages.View()), calls)
  {
    ghost var cs, ks, all := Counters(hs), Kinds(hs), Answers(Counters(hs), Kinds(hs), stages.View(), calls);
    r := [];
    for i := 0 to |calls|
      invariant Counters(hs) == cs && Kinds(hs) == ks && STAGE_SPS <= stages.next <= STAGE_PPS_MVC
      invariant AllBelow(calls[i..], |hs|) && r + Answers(cs, ks, stages.View(), calls[i..]) == all
    {
      Shift(calls, i);
      ghost var s := stages.View();
      var a := OneCall(hs, stages, calls[i]);
      AnswersCons(r, cs, ks, s, calls[i..], a);
      r := r + [a];
    }
  }

  lemma AnswersCons(r: seq<Answer>, counters: seq<int>, kinds: seq<Kind>, s: Stage, calls: seq<nat>, a: Answer)
    requires |counters| == |kinds| && AllBelow(calls, |kinds|) && calls != []
    requires a == Ask(counters[calls[0]], kinds[calls[0]].mvc, s)
    ensures r + Answers(counters, kinds, s, calls) == r + [a] + Answers(counters, kinds, a.stage, calls[1..])
  {
  }

  // ---- how often headers come ----

  function Successes(rounds: seq<Round>): nat {
    if rounds == [] then 0 else (if rounds[0].ok then 1 else 0) + Successes(rounds[1..])
  }

  predicate Silent(hs: seq<seq<Header>>) {
    forall i :: 0 <= i < |hs| ==> hs[i] == []
  }

  /** While no headers come, the counter runs on: it leaves room for the rest of the group only. */
  lemma {:induction false} SilenceIsShort(counter: int, gop: int, mvc: bool, rounds: seq<Round>)
    requires 0 < counter < gop && Silent(Headers(counter, gop, mvc, rounds))
    ensures Successes(rounds) <= gop - counter
    decreases |rounds|
  {
    if rounds != [] {
      var hs := Headers(counter, gop, mvc, rounds);
      assert hs[0] == [] && hs[1..] == Headers(NextCounter(counter, gop, rounds[0].ok), gop, mvc, rounds[1..]);
      assert HeaderSet(mvc) != [];
      assert forall i :: 0 <= i < |hs[1..]| ==> hs[1..][i] == hs[i + 1];
      var c := NextCounter(counter, gop, rounds[0].ok);
      if c == 0 {
        ZeroSpeaks(gop, mvc, rounds[1..]);
      } else {
        SilenceIsShort(c, gop, mvc, rounds[1..]);
      }
    }
  }

  lemma ZeroSpeaks(gop: int, mvc: bool, rounds: seq<Round>)
    ensures rounds != [] ==> Headers(0, gop, mvc, rounds)[0] != []
  {
  }

  /**
   With a fixed group length, at most that many frames are encoded from one header set up to the
   next, whatever frames fail and wherever I pictures are forced.
   */
  lemma HeadersComeInTime(counter: int, gop: int, mvc: bool, rounds: seq<Round>)
    requires gop >= 1 && 0 <= counter < gop && rounds != []
    requires var hs := Headers(counter, gop, mvc, rounds); hs[0] != [] && Silent(hs[1..])
    ensures Successes(rounds) <= gop
  {
    var hs, c := Headers(counter, gop, mvc, rounds), NextCounter(0, gop, rounds[0].ok);
    assert hs[1..] == Headers(c, gop, mvc, rounds[1..]);
    if c == 0 {
      ZeroSpeaks(gop, mvc, rounds[1..]);
    } else {
      SilenceIsShort(c, gop, mvc, rounds[1..]);
    }
  }

  predicate Smooth(rounds: seq<Round>) {
    forall i :: 0 <= i < |rounds| ==> rounds[i].ok && !rounds[i].force
  }

  /** Undisturbed, header sets come exactly every `gop` frames. */
  lemma {:induction false} HeadersArePeriodic(counter: int, gop: int, mvc: bool, rounds: seq<Round>, i: nat)
    requires gop >= 1 && 0 <= counter < gop && Smooth(rounds) && i < |rounds|
    ensures Headers(counter, gop, mvc, rounds)[i] == if (counter + i) % gop == 0 then HeaderSet(mvc) else []
    decreases |rounds|
  {
    if i == 0 {
      SmallMod(counter, gop);
    } else {
      var c := NextCounter(counter, gop, true);
      HeadersArePeriodic(c, gop, mvc, rounds[1..], i - 1);
      if c == 0 {
        AddModulus(i - 1, gop);
      }
    }
  }

  lemma SmallMod(a: int, b: int)
    requires 0 <= a < b
    ensures a % b == 0 <==> a == 0
  {
  }
}
