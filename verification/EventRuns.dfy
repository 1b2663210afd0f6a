/**
 Whole runs of the event pool: any sequence of callbacks, removals, waits and returns on the components of
 one client, and why the pool does not run out.
 */
module EventRuns {
  import opened Bytes
  import opened Sequences
  import opened IlEvents
  import opened EventPool
  import EventLists

  /** A call on component `c`. `Relate` is the unlocked write by which a waiter announces or withdraws itself. */
  datatype Call =
    | Handle(c: nat, event: Event)
    | Remove(c: nat, p: Pattern)
    | Return(c: nat)
    | Scan(c: nat, command: Command, data2: U32, other: Option<nat>)
    | Relate(c: nat, to: Option<nat>)
    | SetMask(c: nat, mask: ErrorMask)

  /** The queues and error masks of the components. */
  datatype Pool = Pool(queues: seq<seq<Event>>, masks: seq<ErrorMask>)

  /** A call that names existing components and brings only events of the kinds that its component sees. */
  predicate Fits(call: Call, kinds: seq<set<Event>>) {
    && call.c < |kinds|
    && match call
       case Handle(c, event) => Accepted(event) && Stored(event) in kinds[c]
       case Scan(_, _, _, other) => other.Some? ==> other.value < |kinds|
       case Relate(_, to) => to.Some? ==> to.value < |kinds|
       case _ => true
  }

  predicate AllFit(calls: seq<Call>, kinds: seq<set<Event>>) {
    forall i :: 0 <= i < |calls| ==> Fits(calls[i], kinds)
  }

  /** The queue without the first event that satisfies `f`. */
  function WithoutFirst(q: seq<Event>, f: Event -> bool): seq<Event> {
    if FirstIndex(q, f) < |q| then RemoveAt(q, FirstIndex(q, f)) else q
  }

  /** What a call does to the pool when it does not fail. */
  function Step(p: Pool, call: Call): Pool
    requires call.c < |p.queues| == |p.masks|
  {
    var q := p.queues[call.c];
    match call
    case Handle(c, event) => p.(queues := p.queues[c := Enqueued(q, event, p.masks[c])])
    case Remove(c, pattern) => p.(queues := p.queues[c := WithoutFirst(q, Matcher(pattern))])
    case Return(c) => p.(queues := p.queues[c := []])
    case Scan(c, command, data2, _) => p.(queues := p.queues[c := WithoutFirst(q, Ender(command, data2))])
    case Relate(_, _) => p
    case SetMask(c, mask) => p.(masks := p.masks[c := mask])
  }

  /** Every queue holds only events of the kinds that its component sees. */
  predicate Within(p: Pool, kinds: seq<set<Event>>) {
    |p.queues| == |p.masks| == |kinds| && forall k :: 0 <= k < |kinds| ==> Elements(p.queues[k]) <= kinds[k]
  }

  /** No component sees more than `d` kinds, and the pool has room for all of them and one more each. */
  predicate Roomy(kinds: seq<set<Event>>, d: nat) {
    (forall k :: 0 <= k < |kinds| ==> |kinds[k]| <= d) && |kinds| * (d + 1) <= NUM_EVENTS
  }

  lemma EnqueuedWithin(q: seq<Event>, e: Event, mask: ErrorMask, all: set<Event>)
    requires Elements(q) <= all && Stored(e) in all
    ensures Elements(Enqueued(q, e, mask)) <= all
  {
    forall x | x in Enqueued(q, e, mask) ensures x in all {
      assert x in Dedup(q) ==> x in Elements(q);
    }
  }

  lemma RestWithin(q: seq<Event>, f: Event -> bool, all: set<Event>)
    requires Elements(q) <= all
    ensures Elements(WithoutFirst(q, f)) <= all
  {
    forall x | x in WithoutFirst(q, f) ensures x in all {
      assert x in Elements(q);
    }
  }

  /** No call brings a queue an event of another kind. */
  lemma StepWithin(p: Pool, call: Call, kinds: seq<set<Event>>)
    requires Within(p, kinds) && Fits(call, kinds)
    ensures Within(Step(p, call), kinds)
  {
    match call {
      case Handle(c, event) => EnqueuedWithin(p.queues[c], event, p.masks[c], kinds[c]);
      case Remove(c, pattern) => RestWithin(p.queues[c], Matcher(pattern), kinds[c]);
      case Scan(c, command, data2, _) => RestWithin(p.queues[c], Ender(command, data2), kinds[c]);
      case _ =>
    }
  }

  /** All the calls, one after the other. */
  function Steps(p: Pool, calls: seq<Call>, kinds: seq<set<Event>>): (r: Pool)
    requires Within(p, kinds) && AllFit(calls, kinds)
    ensures Within(r, kinds)
    decreases |calls|
  {
    if calls == [] then p
    else
      assert Fits(calls[|calls| - 1], kinds) && AllFit(calls[..|calls| - 1], kinds);
      var before := Steps(p, calls[..|calls| - 1], kinds);
      StepWithin(before, calls[|calls| - 1], kinds);
      Step(before, calls[|calls| - 1])
  }

  lemma StepsSnoc(p: Pool, calls: seq<Call>, i: nat, kinds: seq<set<Event>>)
    requires Within(p, kinds) && AllFit(calls, kinds) && i < |calls|
    ensures Fits(calls[i], kinds) && AllFit(calls[..i], kinds) && AllFit(calls[..i + 1], kinds)
    ensures Steps(p, calls[..i + 1], kinds) == Step(Steps(p, calls[..i], kinds), calls[i])
  {
    assert calls[..i + 1][..i] == calls[..i];
  }

  lemma SmallQueues(p: Pool, kinds: seq<set<Event>>, d: nat)
    requires Within(p, kinds) && Roomy(kinds, d)
    ensures forall k :: 0 <= k < |p.queues| ==> |Elements(p.queues[k])| <= d
  {
    forall k | 0 <= k < |p.queues| ensures |Elements(p.queues[k])| <= d {
      EventLists.SubsetCard(Elements(p.queues[k]), kinds[k]);
    }
  }

  // ---- on the heap ----

  ghost predicate Fine(h: Client)
    reads h, h.comps, h.next, h.events
  {
    h.Valid() && h.Related()
  }

  ghost function PoolOf(h: Client): (p: Pool)
    requires h.Valid()
    reads h, h.comps, h.next, h.events
    ensures |p.queues| == |p.masks| == |h.comps|
  {
    Pool(h.Queues(), Masks(h.comps))
  }

  twostate lemma MasksStay(cs: seq<Component>)
    requires forall d :: 0 <= d < |cs| ==> cs[d].errorMask == old(cs[d].errorMask)
    ensures Masks(cs) == old(Masks(cs))
  {
  }

  /** A callback finds a spare node. */
  method PerformHandle(h: Client, c: nat, e: Event, ghost kinds: seq<set<Event>>, ghost d: nat) returns (ok: bool)
    requires Fine(h) && Within(PoolOf(h), kinds) && Roomy(kinds, d) && Fits(Handle(c, e), kinds)
    modifies h`eventList, h`home, h`spare, h`held, h.comps`list, h.next, h.events, h.comps`flags
    ensures ok && Fine(h) && h.Queues() == old(h.Queues())[c := Enqueued(old(h.Queues())[c], e, h.comps[c].errorMask)]
    ensures Masks(h.comps) == old(Masks(h.comps))
  {
    var k := h.comps[c];
    SmallQueues(PoolOf(h), kinds, d);
    h.NeverExhausted(k, d);
    ok := h.HandleEvent(k, e);
    MasksStay(h.comps);
  }

  method PerformRemove(h: Client, c: nat, p: Pattern)
    requires Fine(h) && c < |h.comps|
    modifies h`eventList, h`home, h`spare, h`held, h.comps`list, h.next, h.events, h.comps`flags
    ensures Fine(h) && h.Queues() == old(h.Queues())[c := WithoutFirst(old(h.Queues())[c], Matcher(p))]
    ensures Masks(h.comps) == old(Masks(h.comps))
  {
    var _ := h.RemoveEvent(h.comps[c], p);
    MasksStay(h.comps);
  }

  method PerformScan(h: Client, c: nat, command: Command, data2: U32, other: Option<nat>)
    requires Fine(h) && c < |h.comps| && (other.Some? ==> other.value < |h.comps|)
    modifies h`eventList, h`home, h`spare, h`held, h.comps`list, h.next, h.events, h.comps`flags
    ensures Fine(h) && h.Queues() == old(h.Queues())[c := WithoutFirst(old(h.Queues())[c], Ender(command, data2))]
  {
    var o := if other.Some? then h.comps[other.value] else null;
    var _, _ := h.ScanForCommand(h.comps[c], command, data2, o);
  }

  method PerformReturn(h: Client, c: nat)
    requires Fine(h) && c < |h.comps|
    modifies h`eventList, h`home, h`spare, h`held, h.comps`list, h.next, h.events
    ensures Fine(h) && h.Queues() == old(h.Queues())[c := []]
    ensures Masks(h.comps) == old(Masks(h.comps))
  {
    h.ReturnEvents(h.comps[c]);
    MasksStay(h.comps);
  }

  method PerformRelate(h: Client, c: nat, to: Option<nat>)
    requires Fine(h) && c < |h.comps| && (to.Some? ==> to.value < |h.comps|)
    modifies h.comps`related
    ensures Fine(h) && h.Queues() == old(h.Queues())
    ensures Masks(h.comps) == old(Masks(h.comps))
  {
    h.comps[c].related := if to.Some? then h.comps[to.value] else null;
    MasksStay(h.comps);
  }

  method PerformSetMask(h: Client, c: nat, mask: ErrorMask)
    requires Fine(h) && c < |h.comps|
    modifies h.comps`errorMask
    ensures Fine(h) && h.Queues() == old(h.Queues()) && Masks(h.comps) == old(Masks(h.comps))[c := mask]
  {
    h.comps[c].errorMask := mask;
  }

  method Perform(h: Client, call: Call, ghost kinds: seq<set<Event>>, ghost d: nat) returns (ok: bool)
    requires Fine(h) && Within(PoolOf(h), kinds) && Roomy(kinds, d) && Fits(call, kinds)
    modifies h`eventList, h`home, h`spare, h`held, h.comps, h.next, h.events
    ensures ok && Fine(h) && PoolOf(h) == Step(old(PoolOf(h)), call)
  {
    ok := true;
    match call {
      case Handle(c, e) => ok := PerformHandle(h, c, e, kinds, d);
      case Remove(c, p) => PerformRemove(h, c, p);
      case Return(c) => PerformReturn(h, c);
      case Scan(c, command, data2, other) =>
        PerformScan(h, c, command, data2, other);
        MasksStay(h.comps);
      case Relate(c, to) => PerformRelate(h, c, to);
      case SetMask(c, mask) => PerformSetMask(h, c, mask);
    }
  }

  /** The pool of a client with `n` components when it is opened. */
  function Fresh(n: nat): Pool {
    Pool(seq(n, _ => []), seq(n, _ => {}))
  }

  /** Nothing queued, no component related to another, nothing masked. */
  ghost predicate Blank(h: Client)
    reads h, h.comps, h.next, h.events
  {
    && h.Valid()
    && forall k :: 0 <= k < |h.comps| ==> h.Queues()[k] == [] && h.comps[k].related == null && h.comps[k].errorMask == {}
  }

  lemma BlankIsFresh(h: Client)
    requires Blank(h)
    ensures Fine(h) && PoolOf(h) == Fresh(|h.comps|)
  {
    assert h.Queues() == Fresh(|h.comps|).queues;
    assert Masks(h.comps) == Fresh(|h.comps|).masks;
  }

  method AttachBlank(h: Client) returns (c: Component)
    requires Blank(h)
    modifies h`comps, h`held
    ensures Blank(h) && h.comps == old(h.comps) + [c] && fresh(c)
  {
    c := h.Attach();
  }

  method Open(n: nat) returns (h: Client)
    ensures fresh(h) && fresh(h.next) && fresh(h.events) && fresh(h.comps)
    ensures Fine(h) && PoolOf(h) == Fresh(n)
  {
    h := new Client();
    for i := 0 to n
      invariant fresh(h) && fresh(h.next) && fresh(h.events) && fresh(h.comps) && |h.comps| == i && Blank(h)
    {
      var _ := AttachBlank(h);
    }
    BlankIsFresh(h);
  }

  /** Any calls on a client whose queues are within bounds. */
  method RunCalls(h: Client, calls: seq<Call>, ghost p: Pool, ghost kinds: seq<set<Event>>, ghost d: nat) returns (allOk: bool)
    requires Fine(h) && PoolOf(h) == p && Within(p, kinds) && Roomy(kinds, d) && AllFit(calls, kinds)
    modifies h`eventList, h`home, h`spare, h`held, h.comps, h.next, h.events
    ensures allOk && Fine(h) && PoolOf(h) == Steps(p, calls, kinds)
  {
    allOk := true;
    for i := 0 to |calls|
      invariant allOk && AllFit(calls[..i], kinds) && Fine(h) && PoolOf(h) == Steps(p, calls[..i], kinds)
    {
      StepsSnoc(p, calls, i, kinds);
      var ok := Perform(h, calls[i], kinds, d);
      allOk := allOk && ok;
    }
    assert calls[..|calls|] == calls;
  }

  lemma FreshWithin(kinds: seq<set<Event>>)
    ensures Within(Fresh(|kinds|), kinds)
  {
  }

  /**
   The capacity bound over runs: from the opening of the client on, whatever is called in whatever order, no
   callback ever finds the pool exhausted, as long as each component sees at most `d` kinds of events and the
   bound holds; so the queues and masks are what the calls, all of them carried out, make of empty ones.
   */
  method RunNeverExhausts(calls: seq<Call>, ghost kinds: seq<set<Event>>, n: nat, ghost d: nat)
      returns (h: Client, allOk: bool)
    requires n == |kinds| && Roomy(kinds, d) && AllFit(calls, kinds)
    ensures allOk && Fine(h) && Within(Fresh(n), kinds) && PoolOf(h) == Steps(Fresh(n), calls, kinds)
  {
    FreshWithin(kinds);
    h := Open(n);
    allOk := RunCalls(h, calls, Fresh(n), kinds, d);
  }
}
