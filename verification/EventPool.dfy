/**
 The client's fixed array of event nodes, changed in place. A node is its position in the array, a
 null pointer is NIL; ghost fields say what the linked lists are, in the terms of `EventLists`.
 */
module EventPool {
  import opened Bytes
  import opened Sequences
  import opened IlEvents
  import opened EventLists

  const NUM_EVENTS := 100

  class Component {
    const id: nat
    var list: int
    var flags: set<Flag>
    var related: Component?
    var errorMask: ErrorMask

    constructor (id: nat)
      ensures this.id == id && list == NIL && flags == {} && related == null && errorMask == {}
    {
      this.id, list, flags, related, errorMask := id, NIL, {}, null, {};
    }
  }

  /** The flags that event `e` on component `c` raises on component `d`. */
  ghost function FlagsFor(c: Component, e: Event, d: Component): set<Flag>
    reads c`related, c`errorMask
  {
    (if d == c.related && CommandError(e) then {EventError} else {}) + (if d == c then Raised(e, c.errorMask) else {})
  }

  /** The error masks, component by component. */
  ghost function Masks(cs: seq<Component>): (ms: seq<ErrorMask>)
    reads cs
    ensures |ms| == |cs| && forall d :: 0 <= d < |ms| ==> ms[d] == cs[d].errorMask
  {
    seq(|cs|, d requires 0 <= d < |cs| reads cs => cs[d].errorMask)
  }

  /** All queues but the one of component `c`. */
  function Others(qs: seq<seq<Event>>, c: nat): seq<seq<Event>>
    requires c < |qs|
  {
    qs[c := []]
  }

  lemma OnlyOne(qs: seq<seq<Event>>, qs': seq<seq<Event>>, c: nat)
    requires c < |qs| && c < |qs'| && Others(qs', c) == Others(qs, c)
    ensures qs' == qs[c := qs'[c]]
  {
    assert |Others(qs, c)| == |qs| && |Others(qs', c)| == |qs'|;
    forall k | 0 <= k < |qs| && k != c ensures qs'[k] == qs[k] {
      assert Others(qs', c)[k] == Others(qs, c)[k];
    }
  }

  class Client {
    const events: array<Event>
    const next: array<int>
    var eventList: int
    var comps: seq<Component>
    ghost var home: seq<int>
    ghost var spare: seq<nat>
    ghost var held: seq<seq<nat>>

    /** The list heads of the first `n` components. */
    ghost function HeadsTo(n: nat): (hs: seq<int>)
      requires n <= |comps|
      reads this, comps`list
      ensures |hs| == n && forall k :: 0 <= k < n ==> hs[k] == comps[k].list
    {
      if n == 0 then [] else HeadsTo(n - 1) + [comps[n - 1].list]
    }

    ghost function Heads(): (hs: seq<int>)
      reads this, comps`list
      ensures |hs| == |comps| && forall k :: 0 <= k < |comps| ==> hs[k] == comps[k].list
    {
      HeadsTo(|comps|)
    }

    /** The linked lists as a value. */
    ghost function View(): Lists
      reads this, comps`list, next
    {
      Lists(next[..], eventList, Heads(), home, spare, held)
    }

    /** Every node is on exactly one list, and the lists repeat nothing behind their heads. */
    ghost predicate Valid()
      reads this, comps`list, next, events
    {
      && events.Length == next.Length == NUM_EVENTS
      && |held| == |comps|
      && (forall k :: 0 <= k < |comps| ==> comps[k].id == k)
      && PoolOk(View(), events[..])
    }

    ghost predicate Has(c: Component)
      reads this
    {
      c.id < |comps| && comps[c.id] == c
    }

    /** A component is only related to another of the same client. */
    ghost predicate Related()
      reads this, comps`related
    {
      forall k :: 0 <= k < |comps| && comps[k].related != null ==> Has(comps[k].related)
    }

    /** The events waiting on each component, newest first. */
    ghost function Queues(): (qs: seq<seq<Event>>)
      requires Valid()
      reads this, comps`list, next, events
      ensures |qs| == |comps|
    {
      Contents(View(), events[..])
    }

    constructor ()
      ensures Valid() && fresh(events) && fresh(next) && comps == []
      ensures |spare| == 100
    {
      events := new Event[NUM_EVENTS](_ => Unused);
      next := new int[NUM_EVENTS](_ => NIL);
      eventList, comps, held := NIL, [], [];
      home, spare := AllSpare(NUM_EVENTS), Countdown(NUM_EVENTS);
      new;
      for i := 0 to NUM_EVENTS
        invariant comps == [] && held == [] && home == AllSpare(NUM_EVENTS) && spare == Countdown(NUM_EVENTS)
        invariant eventList == i - 1 && forall k :: 0 <= k < i ==> next[k] == k - 1
      {
        events[i] := Unused;
        next[i] := eventList;
        eventList := i;
      }
      InitialSound(View());
      assert InRange(View(), NUM_EVENTS);
    }

    /** A new component joins the client, with nothing on its list. */
    method Attach() returns (c: Component)
      requires Valid()
      modifies this`comps, this`held
      ensures Valid() && fresh(c) && comps == old(comps) + [c] && Has(c)
      ensures c.related == null && c.flags == {} && c.errorMask == {}
      ensures Queues() == old(Queues()) + [[]]
    {
      ghost var was := View();
      EmptyListSound(was, events[..]);
      c := new Component(|comps|);
      assert c !in comps;
      comps, held := comps + [c], held + [[]];
      assert Heads() == was.heads + [NIL];
    }

    /** Conservation: the spare list and the components' lists together hold exactly the pool. */
    lemma PoolConserved()
      requires Valid()
      ensures |spare| + TotalTo(held, |held|) == NUM_EVENTS
      ensures forall n :: 0 <= n < NUM_EVENTS ==> (n in spare) != (exists k :: 0 <= k < |held| && n in held[k])
      ensures forall k, m :: 0 <= k < m < |held| ==> forall n :: n in held[k] ==> n !in held[m]
    {
      Conservation(View());
      OnlyOneList(View());
    }

    /** The callback's assertion holds when every component sees few enough different events. */
    lemma NeverExhausted(c: Component, d: nat)
      requires Valid() && Has(c)
      requires forall k :: 0 <= k < |comps| ==> |Elements(Queues()[k])| <= d
      requires |comps| * (d + 1) <= NUM_EVENTS
      ensures |spare| + |held[c.id]| - |Dedup(Queues()[c.id])| > 0
    {
      var p, es := View(), events[..];
      forall k | 0 <= k < |p.held| ensures Modest(p, es, k, d) {
        assert Queues()[k] == EventsOf(es, p.held[k]);
      }
      CapacitySuffices(p, es, c.id, d);
    }

    /** The pointer surgery: the node behind `prev` leaves the list of `c` and becomes the first spare one. */
    method Relink(c: Component, ghost i: nat, prev: int) returns (cur: nat)
      requires Valid() && Has(c) && i < |held[c.id]|
      requires prev == if i == 0 then NIL else held[c.id][i - 1]
      modifies this`eventList, this`home, this`spare, this`held, c`list, next
      ensures forall j :: 0 <= j < |old(held[c.id])| ==> old(held[c.id])[j] < next.Length == |old(home)|
      ensures cur == old(held[c.id])[i]
      ensures View() == Unlinked(old(View()), c.id, i)
    {
      ghost var was := View();
      UnlinkHead(was, c.id, i);
      cur := if prev == NIL then c.list else next[prev];
      if prev == NIL {
        c.list := next[cur];
      } else {
        next[prev] := next[cur];
      }
      next[cur] := eventList;
      eventList := cur;
      home, spare, held := home[cur := NIL], [cur] + spare, held[c.id := RemoveAt(held[c.id], i)];
      assert Heads() == if i == 0 then was.heads[c.id := was.next[cur]] else was.heads;
    }

    /** Give back the node behind `prev`, marking it unused where the program does. */
    method Unlink(c: Component, ghost i: nat, prev: int, mark: bool)
      requires Valid() && Has(c) && i < |held[c.id]|
      requires prev == if i == 0 then NIL else held[c.id][i - 1]
      modifies this`eventList, this`home, this`spare, this`held, c`list, next, events
      ensures Valid()
      ensures held == old(held)[c.id := RemoveAt(old(held[c.id]), i)] && |spare| == old(|spare|) + 1
      ensures Queues() == old(Queues())[c.id := RemoveAt(old(Queues()[c.id]), i)]
    {
      ghost var was, es := View(), events[..];
      var cur := Relink(c, i, prev);
      if mark {
        events[cur] := Unused;
      }
      UnlinkPool(was, es, c.id, i, events[..]);
    }

    /** Between two turns of the inner loop: copies are gone up to `prev`, at position `j`. */
    ghost predicate Cleaning(c: Component, q: seq<Event>, k: nat, j: nat, prev: int)
      reads this, comps`list, next, events
    {
      && Valid() && Has(c)
      && k <= j < |held[c.id]| && prev == held[c.id][j]
      && k < |q| && Cleaned(q, Queues()[c.id], k, j, q[k])
    }

    /** One turn of the inner loop: unlink the node behind `prev`, or step over it. */
    method DropOrSkip(c: Component, ghost q: seq<Event>, ghost k: nat, ghost j: nat, prev: nat, event: nat)
        returns (prev': nat, ghost j': nat)
      requires Cleaning(c, q, k, j, prev) && event == held[c.id][k] && next[prev] != NIL
      modifies this`eventList, this`home, this`spare, this`held, c`list, next, events
      ensures Cleaning(c, q, k, j', prev') && event == held[c.id][k]
      ensures |spare| + |held[c.id]| == old(|spare| + |held[c.id]|)
      ensures |held[c.id]| - j' < old(|held[c.id]|) - j
      ensures Others(Queues(), c.id) == Others(old(Queues()), c.id)
    {
      Leads(View(), c.id);
      ghost var now := Queues()[c.id];
      var cand := next[prev];
      assert now[j + 1] == events[cand] && now[k] == events[event];
      assert now[k] == now[..k + 1][k] == q[k];
      if events[cand] == events[event] {
        CleanedDrop(q, now, k, j, q[k]);
        Unlink(c, j + 1, prev, true);
        prev', j' := prev, j;
      } else {
        CleanedKeep(q, now, k, j, q[k]);
        prev', j' := cand, j + 1;
      }
    }

    /** The inner loop: remove the later copies of the event at position `k`. */
    method DropCopies(c: Component, ghost k: nat, event: nat)
      requires Valid() && Has(c) && k < |held[c.id]| && event == held[c.id][k]
      modifies this`eventList, this`home, this`spare, this`held, c`list, next, events
      ensures Valid() && |held[c.id]| > k && event == held[c.id][k]
      ensures |spare| + |held[c.id]| == old(|spare| + |held[c.id]|)
      ensures var q := old(Queues())[c.id];
        Queues() == old(Queues())[c.id := q[..k + 1] + Without(q[k + 1..], q[k])]
    {
      ghost var qs, q := Queues(), Queues()[c.id];
      ghost var j := k;
      var prev := event;
      Leads(View(), c.id);
      while next[prev] != NIL
        invariant Cleaning(c, q, k, j, prev) && event == held[c.id][k]
        invariant |spare| + |held[c.id]| == old(|spare| + |held[c.id]|)
        invariant Others(Queues(), c.id) == Others(qs, c.id)
        decreases |held[c.id]| - j
      {
        prev, j := DropOrSkip(c, q, k, j, prev, event);
      }
      Leads(View(), c.id);
      CleanedDone(q, Queues()[c.id], k, j, q[k]);
      OnlyOne(qs, Queues(), c.id);
    }

    /** Between two turns of the outer loop: the first `k` events are settled. */
    ghost predicate Settling(c: Component, q: seq<Event>, k: nat, event: int)
      reads this, comps`list, next, events
    {
      && Valid() && Has(c)
      && k <= |held[c.id]| && event == (if k < |held[c.id]| then held[c.id][k] else NIL)
      && Settled(q, Queues()[c.id], k)
    }

    /** One turn of the outer loop. */
    method SettleOne(c: Component, ghost q: seq<Event>, ghost k: nat, event: nat) returns (event': int)
      requires Settling(c, q, k, event)
      modifies this`eventList, this`home, this`spare, this`held, c`list, next, events
      ensures Settling(c, q, k + 1, event')
      ensures |spare| + |held[c.id]| == old(|spare| + |held[c.id]|) && |held[c.id]| <= old(|held[c.id]|)
      ensures Others(Queues(), c.id) == Others(old(Queues()), c.id)
    {
      ghost var now := Queues()[c.id];
      DropCopies(c, k, event);
      SettledNext(q, now, k, Queues()[c.id]);
      Leads(View(), c.id);
      event' := next[event];
    }

    /** The outer loop: keep the first of every group of equal events. */
    method DropDuplicates(c: Component)
      requires Valid() && Has(c)
      modifies this`eventList, this`home, this`spare, this`held, c`list, next, events
      ensures Valid()
      ensures |spare| + |held[c.id]| == old(|spare| + |held[c.id]|)
      ensures Queues() == old(Queues())[c.id := Dedup(old(Queues())[c.id])]
    {
      ghost var qs, q, k := Queues(), Queues()[c.id], 0;
      var event := c.list;
      Leads(View(), c.id);
      SettledFirst(q);
      while event != NIL
        invariant Settling(c, q, k, event)
        invariant |spare| + |held[c.id]| == old(|spare| + |held[c.id]|)
        invariant Others(Queues(), c.id) == Others(qs, c.id)
        decreases |held[c.id]| - k
      {
        event := SettleOne(c, q, k, event);
        k := k + 1;
      }
      SettledLast(q, Queues()[c.id], k);
      OnlyOne(qs, Queues(), c.id);
    }

    /** Fill the first spare node and put it at the head of the list of `c`. */
    method Enqueue(c: Component, e: Event)
      requires Valid() && Has(c) && spare != [] && Distinct(Queues()[c.id])
      modifies this`eventList, this`home, this`spare, this`held, c`list, next, events
      ensures Valid() && |spare| == old(|spare|) - 1
      ensures Queues() == old(Queues())[c.id := [e] + old(Queues())[c.id]]
    {
      ghost var was, es := View(), events[..];
      LinkPool(was, es, c.id, e);
      var event := eventList;
      events[event] := e;
      eventList := next[event];
      next[event] := c.list;
      c.list := event;
      home, spare, held := home[event := c.id], spare[1..], held[c.id := [event] + held[c.id]];
      assert View() == Linked(was, c.id);
    }

    method QueueUnlessIgnored(c: Component, e: Event)
      requires Valid() && Has(c) && spare != [] && Distinct(Queues()[c.id])
      modifies this`eventList, this`home, this`spare, this`held, c`list, next, events
      ensures Valid()
      ensures Queues() == old(Queues())[c.id := Put(old(Queues())[c.id], e, c.errorMask)]
      ensures c.related == old(c.related) && c.errorMask == old(c.errorMask)
      ensures forall d :: d in comps ==> d.flags == old(d.flags)
    {
      if !Ignored(e, c.errorMask) {
        Enqueue(c, Stored(e));
      }
    }

    /** The flags part of the callback: tell the related component of a failed command, then one's own. */
    method RaiseFlags(c: Component, e: Event)
      requires Has(c) && (c.related != null ==> Has(c.related))
      modifies comps`flags
      ensures forall d :: d in comps ==> d.flags == old(d.flags) + FlagsFor(c, e, d)
    {
      if CommandError(e) && c.related != null {
        c.related.flags := c.related.flags + {EventError};
      }
      c.flags := c.flags + Raised(e, c.errorMask);
    }

    /** The callback behind its assertion: raise the flags and queue what is not to be ignored. */
    method Deliver(c: Component, e: Event)
      requires Valid() && Has(c) && (c.related != null ==> Has(c.related))
      requires spare != [] && Distinct(Queues()[c.id])
      modifies this`eventList, this`home, this`spare, this`held, c`list, next, events, comps`flags
      ensures Valid()
      ensures Queues() == old(Queues())[c.id := Put(old(Queues())[c.id], e, c.errorMask)]
      ensures forall d :: d in comps ==> d.flags == old(d.flags) + FlagsFor(c, e, d)
    {
      RaiseFlags(c, e);
      QueueUnlessIgnored(c, e);
    }

    /**
     The event callback. It fails only where the program asserts that the pool is not empty; else
     it notifies the related component, raises the flags, and queues what is not to be ignored.
     */
    method HandleEvent(c: Component, e: Event) returns (ok: bool)
      requires Valid() && Has(c) && Accepted(e) && (c.related != null ==> Has(c.related))
      modifies this`eventList, this`home, this`spare, this`held, c`list, next, events, comps`flags
      ensures Valid()
      ensures ok <==> old(|spare| + |held[c.id]| - |Dedup(Queues()[c.id])|) > 0
      ensures ok ==> Queues() == old(Queues())[c.id := IlEvents.Enqueued(old(Queues())[c.id], e, c.errorMask)]
      ensures ok ==> forall d :: d in comps ==> d.flags == old(d.flags) + FlagsFor(c, e, d)
    {
      DropDuplicates(c);
      SpareLeads(View());
      ok := eventList != NIL;
      if ok {
        Deliver(c, e);
      }
    }

    /** Walk the list of `c` to the first event that satisfies `f`. */
    method Find(c: Component, f: Event -> bool) returns (cur: int, prev: int, ghost i: nat)
      requires Valid() && Has(c)
      ensures i == FirstIndex(Queues()[c.id], f) <= |held[c.id]|
      ensures cur == if i < |held[c.id]| then held[c.id][i] else NIL
      ensures prev == if i == 0 then NIL else held[c.id][i - 1]
      ensures cur != NIL ==> 0 <= cur < events.Length && events[cur] == Queues()[c.id][i]
    {
      Leads(View(), c.id);
      cur, prev, i := c.list, NIL, 0;
      while cur != NIL && !f(events[cur])
        invariant i <= |held[c.id]|
        invariant cur == if i < |held[c.id]| then held[c.id][i] else NIL
        invariant prev == if i == 0 then NIL else held[c.id][i - 1]
        invariant NoneBefore(Queues()[c.id], f, i)
        decreases |held[c.id]| - i
      {
        assert Queues()[c.id][i] == events[cur];
        prev, cur, i := cur, next[cur], i + 1;
      }
      FirstIndexIs(Queues()[c.id], f, i);
    }

    /** Remove the first matching event, and clear the flag that announced it. */
    method RemoveEvent(c: Component, p: Pattern) returns (ret: int)
      requires Valid() && Has(c)
      modifies this`eventList, this`home, this`spare, this`held, c`list, c`flags, next, events
      ensures Valid()
      ensures var q := old(Queues())[c.id]; var i := FirstIndex(q, Matcher(p));
        if i < |q| then ret == 0 && Queues() == old(Queues())[c.id := RemoveAt(q, i)] && c.flags == old(c.flags) - Cleared(p)
        else ret == -1 && Queues() == old(Queues()) && c.flags == old(c.flags)
    {
      var cur, prev, i := Find(c, Matcher(p));
      if cur == NIL {
        return -1;
      }
      Unlink(c, i, prev, true);
      c.flags := c.flags - Cleared(p);
      return 0;
    }

    /** Give all the events of a component back. */
    method ReturnEvents(c: Component)
      requires Valid() && Has(c)
      modifies this`eventList, this`home, this`spare, this`held, c`list, next, events
      ensures Valid() && Queues() == old(Queues())[c.id := []]
      ensures |spare| == old(|spare| + |held[c.id]|)
    {
      ghost var qs := Queues();
      Leads(View(), c.id);
      while c.list != NIL
        invariant Valid() && Has(c)
        invariant Others(Queues(), c.id) == Others(qs, c.id)
        invariant |spare| + |held[c.id]| == old(|spare| + |held[c.id]|)
        invariant c.list == if held[c.id] == [] then NIL else held[c.id][0]
        decreases |held[c.id]|
      {
        Unlink(c, 0, NIL, false);
        Leads(View(), c.id);
      }
      OnlyOne(qs, Queues(), c.id);
    }

    /** Does the list of `c` hold a command error? */
    method HasFailed(c: Component) returns (failed: bool)
      requires Valid() && Has(c)
      ensures failed <==> exists e :: e in Queues()[c.id] && CommandError(e)
    {
      var cur, _, i := Find(c, ErrorFinder());
      failed := cur != NIL;
      assert failed ==> Queues()[c.id][i] in Queues()[c.id];
    }

    /** Unlink the event that ends a wait, consuming the error flag with an error. */
    method TakeEnd(c: Component, cur: nat, prev: int, ghost i: nat) returns (ret: int)
      requires Valid() && Has(c) && i < |held[c.id]| && cur == held[c.id][i] && cur < events.Length
      requires prev == if i == 0 then NIL else held[c.id][i - 1]
      modifies this`eventList, this`home, this`spare, this`held, c`list, c`flags, next, events
      ensures Valid()
      ensures Queues() == old(Queues())[c.id := RemoveAt(old(Queues())[c.id], i)]
      ensures var e := old(Queues())[c.id][i];
        ret == Verdict(e) && c.flags == old(c.flags) - (if e.Failure? then {EventError} else {})
    {
      assert events[cur] == Queues()[c.id][i];
      ret := Verdict(events[cur]);
      if events[cur].Failure? {
        c.flags := c.flags - {EventError};
      }
      Unlink(c, i, prev, true);
    }

    /**
     The locked part of a command wait: unlink the first event that ends it and give the verdict;
     or, when there is none, report an error of the other component without touching its list.
     */
    method ScanForCommand(c: Component, command: Command, data2: U32, other: Component?) returns (done: bool, ret: int)
      requires Valid() && Has(c) && (other != null ==> Has(other))
      modifies this`eventList, this`home, this`spare, this`held, c`list, c`flags, next, events
      ensures Valid()
      ensures ScanOutcome(old(Queues()), old(c.flags), c.id, command, data2, if other == null then None else Some(other.id),
                          done, ret, Queues(), c.flags)
    {
      var cur, prev, i := Find(c, Ender(command, data2));
      if cur != NIL {
        ret := TakeEnd(c, cur, prev, i);
        return true, ret;
      }
      if other != null {
        done := HasFailed(other);
        return done, -2;
      }
      return false, 0;
    }
  }

  /** The error codes that a component can be told to ignore, when it has been. */
  predicate Masked(e: Event, mask: ErrorMask) {
    e.Failure? && e.code in mask && (e.code == PortUnpopulated || e.code == SameState || e.code == BadParameter)
  }

  /** The flag that goes up on the component for an event that is not an error. */
  predicate Announces(e: Event, f: Flag) {
    match e
    case CmdComplete(command, _) =>
      f == (match command
            case StateSet => StateChanged
            case PortDisable => PortDisabled
            case PortEnable => PortEnabled
            case Flush => PortFlush
            case MarkBuffer => MarkedBuffer)
    case BufferFlag(_, _) => f == BufferFlagEos
    case PortSettingsChanged(_, _) => f == ParameterChanged
    case BufferMark(_, _) => f == BufferMarkFlag
    case ParamOrConfigChanged(_, _) => f == ConfigChanged
    case _ => false
  }

  /** The flags an event raises on component `d`, flag by flag. */
  lemma FlagsWritten(c: Component, e: Event, d: Component, f: Flag)
    requires Accepted(e)
    ensures f in FlagsFor(c, e, d) <==>
      || (d == c && Announces(e, f))
      || (d == c && f == EventError && e.Failure? && e.code != DiskFull && e.code != MaxFileSize && !Masked(e, c.errorMask))
      || (d == c.related && f == EventError && e.Failure? && e.data2 == 1)
  {
  }

  /**
   The callback, event by event. On its own component exactly the flag that stands for the event goes up: for an
   error the error flag, unless the code is disk full, maximal file size, or masked. On the related component the
   error flag goes up for an error with datum 1. No other flag changes. The event goes to the front of the
   de-duplicated queue, unless it is masked.
   */
  method HandleByKind(h: Client, c: Component, e: Event) returns (ok: bool)
    requires h.Valid() && h.Has(c) && Accepted(e) && (c.related != null ==> h.Has(c.related))
    modifies h`eventList, h`home, h`spare, h`held, c`list, h.next, h.events, h.comps`flags
    ensures h.Valid()
    ensures ok ==> forall d, f :: d in h.comps ==>
      (f in d.flags <==>
        || f in old(d.flags)
        || (d == c && Announces(e, f))
        || (d == c && f == EventError && e.Failure? && e.code != DiskFull && e.code != MaxFileSize && !Masked(e, c.errorMask))
        || (d == c.related && f == EventError && e.Failure? && e.data2 == 1))
    ensures ok ==> h.Queues() == old(h.Queues())[c.id :=
      (if Masked(e, c.errorMask) then [] else if e.BufferFlag? then [BufferFlag(e.port, 1)] else [e])
      + Dedup(old(h.Queues())[c.id])]
  {
    ghost var q := h.Queues()[c.id];
    EnqueuedWritten(q, e, c.errorMask);
    ok := h.HandleEvent(c, e);
    forall d, f | d in h.comps ensures f in FlagsFor(c, e, d) <==>
      || (d == c && Announces(e, f))
      || (d == c && f == EventError && e.Failure? && e.code != DiskFull && e.code != MaxFileSize && !Masked(e, c.errorMask))
      || (d == c.related && f == EventError && e.Failure? && e.data2 == 1)
    {
      FlagsWritten(c, e, d, f);
    }
  }

  lemma EnqueuedWritten(q: seq<Event>, e: Event, mask: ErrorMask)
    ensures IlEvents.Enqueued(q, e, mask) ==
      (if Masked(e, mask) then [] else if e.BufferFlag? then [BufferFlag(e.port, 1)] else [e]) + Dedup(q)
  {
    assert [] + Dedup(q) == Dedup(q);
  }
}
