/**
 The heap of `EventPool` and the step machine of `CommandWait` are two views of the same code: a callback
 on the heap is the handler's steps in a row, and the locked part of a wait is one scan step.
 */
module EventSteps {
  import opened Bytes
  import opened Sequences
  import opened IlEvents
  import opened EventPool
  import CW = CommandWait

  // ---- the machine's state, from a list of components ----

  function MapOf(ks: seq<CW.Component>): (m: map<nat, CW.Component>)
    ensures forall d: nat :: d in m <==> d < |ks|
    ensures forall d :: 0 <= d < |ks| ==> m[d] == ks[d]
  {
    map d: nat | d < |ks| :: ks[d]
  }

  function StateOf(ks: seq<CW.Component>, lock: CW.Lock): CW.State {
    CW.State(MapOf(ks), lock)
  }

  lemma MapIs(m: map<nat, CW.Component>, ks: seq<CW.Component>)
    requires forall d: nat :: d in m <==> d < |ks|
    requires forall d: nat :: d < |ks| ==> m[d] == ks[d]
    ensures m == MapOf(ks)
  {
  }

  lemma HandledOf(ks: seq<CW.Component>, ks': seq<CW.Component>, c: nat, e: Event)
    requires c < |ks| == |ks'| && Accepted(e)
    requires forall d: nat :: d < |ks| ==> ks'[d] == CW.AfterHandling(ks[d], d, c, ks[c].related, e)
    ensures CW.Run(StateOf(ks, CW.Unheld), CW.Handling(c, e))
    ensures CW.Final(StateOf(ks, CW.Unheld), CW.Handling(c, e)) == StateOf(ks', CW.Unheld)
  {
    var s := StateOf(ks, CW.Unheld);
    CW.HandledIs(s, c, e);
    MapIs(CW.Final(s, CW.Handling(c, e)).comps, ks');
  }

  /** What a scan leaves of the scanning component. */
  function AfterScanning(k: CW.Component, req: CW.Request, otherFailed: bool): CW.Component {
    var i := FirstIndex(k.list, Ender(req.command, req.data2));
    if i < |k.list| then
      k.(list := RemoveAt(k.list, i), flags := if k.list[i].Failure? then k.flags - {EventError} else k.flags,
         waiter := CW.Leaving(req, Verdict(k.list[i])))
    else if otherFailed then k.(waiter := CW.Leaving(req, -2))
    else k.(waiter := CW.Missed(req))
  }

  lemma ScannedOf(ks: seq<CW.Component>, ks': seq<CW.Component>, c: nat, otherFailed: bool)
    requires c < |ks| && ks[c].waiter.Holding? && ks' == ks[c := AfterScanning(ks[c], ks[c].waiter.req, otherFailed)]
    requires otherFailed <==> ks[c].waiter.req.other.Some? && ks[c].waiter.req.other.value < |ks|
                              && exists e :: e in ks[ks[c].waiter.req.other.value].list && CommandError(e)
    ensures StateOf(ks', if ks'[c].waiter.Leaving? then CW.Unheld else CW.ByWaiter(c)) ==
            CW.AfterScan(StateOf(ks, CW.ByWaiter(c)), c)
  {
    MapIs(CW.AfterScan(StateOf(ks, CW.ByWaiter(c)), c).comps, ks');
  }

  // ---- the heap as such a list ----

  /** Queues, flags, related components and error masks, each by component. */
  datatype Fields = Fields(queues: seq<seq<Event>>, flags: seq<set<Flag>>, related: seq<Option<nat>>, masks: seq<ErrorMask>)

  predicate Even(f: Fields, n: nat) {
    |f.queues| == |f.flags| == |f.related| == |f.masks| == n
  }

  /** The components; `ws` says where the waiters stand. */
  function Zip(f: Fields, ws: seq<CW.Waiter>): (ks: seq<CW.Component>)
    requires Even(f, |ws|)
    ensures |ks| == |ws|
    ensures forall d :: 0 <= d < |ks| ==> ks[d] == CW.Component(f.queues[d], f.flags[d], f.related[d], f.masks[d], ws[d])
  {
    seq(|ws|, d requires 0 <= d < |ws| => CW.Component(f.queues[d], f.flags[d], f.related[d], f.masks[d], ws[d]))
  }

  /** The flags that event `e` on component `c` raises on component `d`. */
  function RaisedOn(related: Option<nat>, mask: ErrorMask, c: nat, e: Event, d: nat): set<Flag> {
    (if related == Some(d) && CommandError(e) then {EventError} else {}) + (if d == c then Raised(e, mask) else {})
  }

  predicate AllRaised(before: seq<set<Flag>>, after: seq<set<Flag>>, related: Option<nat>, mask: ErrorMask, c: nat, e: Event) {
    |before| == |after| && forall d :: 0 <= d < |before| ==> after[d] == before[d] + RaisedOn(related, mask, c, e, d)
  }

  lemma HandledFields(f: Fields, f': Fields, ws: seq<CW.Waiter>, c: nat, e: Event)
    requires Even(f, |ws|) && c < |ws| && Accepted(e)
    requires f'.related == f.related && f'.masks == f.masks && AllRaised(f.flags, f'.flags, f.related[c], f.masks[c], c, e)
    requires f'.queues == f.queues[c := Enqueued(f.queues[c], e, f.masks[c])]
    ensures CW.Run(StateOf(Zip(f, ws), CW.Unheld), CW.Handling(c, e))
    ensures CW.Final(StateOf(Zip(f, ws), CW.Unheld), CW.Handling(c, e)) == StateOf(Zip(f', ws), CW.Unheld)
  {
    var ks, ks' := Zip(f, ws), Zip(f', ws);
    forall d: nat | d < |ks| ensures ks'[d] == CW.AfterHandling(ks[d], d, c, ks[c].related, e) {
      assert f'.flags[d] == f.flags[d] + RaisedOn(f.related[c], f.masks[c], c, e, d);
    }
    HandledOf(ks, ks', c, e);
  }

  ghost function RelatedId(c: Component): Option<nat>
    reads c`related
  {
    if c.related == null then None else Some(c.related.id)
  }

  ghost function Flags(cs: seq<Component>): (fs: seq<set<Flag>>)
    reads cs
    ensures |fs| == |cs| && forall d :: 0 <= d < |fs| ==> fs[d] == cs[d].flags
  {
    seq(|cs|, d requires 0 <= d < |cs| reads cs => cs[d].flags)
  }

  ghost function Links(cs: seq<Component>): (rs: seq<Option<nat>>)
    reads cs
    ensures |rs| == |cs| && forall d :: 0 <= d < |rs| ==> rs[d] == RelatedId(cs[d])
  {
    seq(|cs|, d requires 0 <= d < |cs| reads cs => RelatedId(cs[d]))
  }

  twostate lemma AllKeepLinks(cs: seq<Component>)
    requires forall d :: 0 <= d < |cs| ==> cs[d].related == old(cs[d].related) && cs[d].errorMask == old(cs[d].errorMask)
    ensures Links(cs) == old(Links(cs)) && Masks(cs) == old(Masks(cs))
  {
  }

  ghost function FieldsOf(h: Client): (f: Fields)
    requires h.Valid()
    reads h, h.comps, h.next, h.events
    ensures Even(f, |h.comps|)
  {
    Fields(h.Queues(), Flags(h.comps), Links(h.comps), Masks(h.comps))
  }

  /** Components by their places in a client's list. */
  ghost predicate Placed(cs: seq<Component>, c: Component) {
    (forall d :: 0 <= d < |cs| ==> cs[d].id == d) && c.id < |cs| && cs[c.id] == c
  }

  lemma FlagsAgree(cs: seq<Component>, c: Component, e: Event, d: nat)
    requires Placed(cs, c) && (c.related != null ==> Placed(cs, c.related)) && d < |cs|
    ensures FlagsFor(c, e, cs[d]) == RaisedOn(RelatedId(c), c.errorMask, c.id, e, d) && cs[d] in cs
  {
  }

  lemma AllPlaced(h: Client, c: Component)
    requires h.Valid() && h.Has(c) && h.Related()
    ensures Placed(h.comps, c) && (c.related != null ==> Placed(h.comps, c.related))
  {
  }

  /** What the callback does to queues and flags. */
  method HandleOnly(h: Client, c: Component, e: Event) returns (ok: bool)
    requires h.Valid() && h.Has(c) && Accepted(e) && h.Related()
    modifies h`eventList, h`home, h`spare, h`held, c`list, h.next, h.events, h.comps`flags
    ensures h.Valid()
    ensures ok ==> forall d :: 0 <= d < |h.comps| ==>
      h.comps[d].flags == old(h.comps[d].flags) + RaisedOn(RelatedId(c), c.errorMask, c.id, e, d)
    ensures ok ==> h.Queues() == old(h.Queues())[c.id := Enqueued(old(h.Queues())[c.id], e, c.errorMask)]
  {
    ghost var cs := h.comps;
    AllPlaced(h, c);
    ok := h.HandleEvent(c, e);
    if ok {
      forall d: nat | d < |cs| ensures cs[d].flags == old(cs[d].flags) + RaisedOn(RelatedId(c), c.errorMask, c.id, e, d) {
        FlagsAgree(cs, c, e, d);
      }
    }
  }

  /** It does nothing to links and masks. */
  method HandleFields(h: Client, c: Component, e: Event) returns (ok: bool)
    requires h.Valid() && h.Has(c) && Accepted(e) && h.Related()
    modifies h`eventList, h`home, h`spare, h`held, c`list, h.next, h.events, h.comps`flags
    ensures h.Valid() && h.Related()
    ensures Links(h.comps) == old(Links(h.comps)) && Masks(h.comps) == old(Masks(h.comps))
    ensures ok ==> AllRaised(old(Flags(h.comps)), Flags(h.comps), Links(h.comps)[c.id], Masks(h.comps)[c.id], c.id, e)
    ensures ok ==> h.Queues() == old(h.Queues())[c.id := Enqueued(old(h.Queues())[c.id], e, Masks(h.comps)[c.id])]
  {
    ok := HandleOnly(h, c, e);
    AllKeepLinks(h.comps);
  }

  /** The callback is the handler's steps, one after the other. */
  method HandleIsSteps(h: Client, c: Component, e: Event, ghost ws: seq<CW.Waiter>) returns (ok: bool)
    requires h.Valid() && h.Has(c) && Accepted(e) && h.Related() && |ws| == |h.comps|
    modifies h`eventList, h`home, h`spare, h`held, c`list, h.next, h.events, h.comps`flags
    ensures h.Valid() && h.comps == old(h.comps) && h.Related()
    ensures ok ==> CW.Run(old(StateOf(Zip(FieldsOf(h), ws), CW.Unheld)), CW.Handling(c.id, e))
    ensures ok ==>
              CW.Final(old(StateOf(Zip(FieldsOf(h), ws), CW.Unheld)), CW.Handling(c.id, e)) ==
              StateOf(Zip(FieldsOf(h), ws), CW.Unheld)
  {
    ghost var f := FieldsOf(h);
    ok := HandleFields(h, c, e);
    if ok {
      HandledFields(f, FieldsOf(h), ws, c.id, e);
    }
  }

  /** Where the waiter stands after its scan. */
  function Stands(req: CW.Request, done: bool, ret: int): CW.Waiter {
    if done then CW.Leaving(req, ret) else CW.Missed(req)
  }

  /** What the locked part of a wait does, field by field. */
  ghost predicate Scanned(f: Fields, f': Fields, c: nat, req: CW.Request, done: bool, ret: int)
    requires Even(f, |f.queues|) && Even(f', |f.queues|) && c < |f.queues|
  {
    && f'.related == f.related && f'.masks == f.masks && f'.flags == f.flags[c := f'.flags[c]]
    && ScanOutcome(f.queues, f.flags[c], c, req.command, req.data2, req.other, done, ret, f'.queues, f'.flags[c])
  }

  lemma ScannedFields(f: Fields, f': Fields, ws: seq<CW.Waiter>, c: nat, done: bool, ret: int)
    requires Even(f, |ws|) && Even(f', |ws|) && c < |ws| && ws[c].Holding?
    requires Scanned(f, f', c, ws[c].req, done, ret)
    ensures StateOf(Zip(f', ws[c := Stands(ws[c].req, done, ret)]), if done then CW.Unheld else CW.ByWaiter(c))
         == CW.AfterScan(StateOf(Zip(f, ws), CW.ByWaiter(c)), c)
  {
    var ks, req := Zip(f, ws), ws[c].req;
    var failed := req.other.Some? && req.other.value < |ks| && exists e :: e in ks[req.other.value].list && CommandError(e);
    var ks' := Zip(f', ws[c := Stands(req, done, ret)]);
    forall d | 0 <= d < |ks| ensures ks'[d] == if d == c then AfterScanning(ks[c], req, failed) else ks[d] {
    }
    ScannedOf(ks, ks', c, failed);
  }

  /** The scan with what it leaves alone: all but the queues and its own component's flags. */
  method ScanOnly(h: Client, c: Component, command: Command, data2: U32, other: Component?) returns (done: bool, ret: int)
    requires h.Valid() && h.Has(c) && (other != null ==> h.Has(other))
    modifies h`eventList, h`home, h`spare, h`held, c`list, c`flags, h.next, h.events
    ensures h.Valid()
    ensures ScanOutcome(old(h.Queues()), old(c.flags), c.id, command, data2, if other == null then None else Some(other.id),
                        done, ret, h.Queues(), c.flags)
    ensures forall d :: 0 <= d < |h.comps| && d != c.id ==> h.comps[d].flags == old(h.comps[d].flags)
  {
    ghost var cs := h.comps;
    assert forall d :: 0 <= d < |cs| ==> cs[d].id == d;
    done, ret := h.ScanForCommand(c, command, data2, other);
  }

  /** The same, with the flags as a list. */
  method ScanFlags(h: Client, c: Component, command: Command, data2: U32, other: Component?) returns (done: bool, ret: int)
    requires h.Valid() && h.Has(c) && (other != null ==> h.Has(other))
    modifies h`eventList, h`home, h`spare, h`held, c`list, c`flags, h.next, h.events
    ensures h.Valid()
    ensures ScanOutcome(old(h.Queues()), old(c.flags), c.id, command, data2, if other == null then None else Some(other.id),
                        done, ret, h.Queues(), c.flags)
    ensures Flags(h.comps) == old(Flags(h.comps))[c.id := c.flags]
  {
    ghost var fs := Flags(h.comps);
    done, ret := ScanOnly(h, c, command, data2, other);
    assert Flags(h.comps) == fs[c.id := c.flags];
  }

  /** The locked part of a wait is the scan step of its waiter. */
  method ScanIsStep(h: Client, c: Component, command: Command, data2: U32, other: Component?,
                    ghost ws: seq<CW.Waiter>) returns (done: bool, ret: int)
    requires h.Valid() && h.Has(c) && (other != null ==> h.Has(other)) && |ws| == |h.comps|
    requires ws[c.id] == CW.Holding(CW.Request(command, data2, if other == null then None else Some(other.id)))
    modifies h`eventList, h`home, h`spare, h`held, c`list, c`flags, h.next, h.events
    ensures h.Valid() && h.comps == old(h.comps)
    ensures StateOf(Zip(FieldsOf(h), ws[c.id := Stands(ws[c.id].req, done, ret)]), if done then CW.Unheld else CW.ByWaiter(c.id))
         == CW.AfterScan(old(StateOf(Zip(FieldsOf(h), ws), CW.ByWaiter(c.id))), c.id)
  {
    ghost var f := FieldsOf(h);
    done, ret := ScanFlags(h, c, command, data2, other);
    AllKeepLinks(h.comps);
    ScannedFields(f, FieldsOf(h), ws, c.id, done, ret);
  }

  /** A removal as the machine has it, field by field. */
  lemma RemovedFields(f: Fields, f': Fields, ws: seq<CW.Waiter>, c: nat, at: nat)
    requires Even(f, |ws|) && Even(f', |ws|) && c < |ws| && at < |f.queues[c]|
    requires f'.related == f.related && f'.masks == f.masks
    requires f'.queues == f.queues[c := RemoveAt(f.queues[c], at)]
    requires f'.flags == f.flags[c := f.flags[c] - CW.ClearedBy(f.queues[c][at])]
    ensures CW.Enabled(StateOf(Zip(f, ws), CW.Unheld), CW.Remove(c, at))
    ensures CW.Next(StateOf(Zip(f, ws), CW.Unheld), CW.Remove(c, at)) == StateOf(Zip(f', ws), CW.Unheld)
  {
    var ks, ks' := Zip(f, ws), Zip(f', ws);
    forall d | 0 <= d < |ks| ensures ks'[d] == if d == c
      then ks[c].(list := RemoveAt(ks[c].list, at), flags := ks[c].flags - CW.ClearedBy(ks[c].list[at])) else ks[d] {
    }
    MapIs(CW.Next(StateOf(ks, CW.Unheld), CW.Remove(c, at)).comps, ks');
  }

  /** What a removal does to the queues and to its component's flags, and leaves alone. */
  method RemoveOnly(h: Client, c: Component, p: Pattern) returns (ret: int)
    requires h.Valid() && h.Has(c)
    modifies h`eventList, h`home, h`spare, h`held, c`list, c`flags, h.next, h.events
    ensures h.Valid() && (ret == 0 || ret == -1)
    ensures var q := old(h.Queues())[c.id]; var i := FirstIndex(q, Matcher(p));
      if i < |q| then ret == 0 && h.Queues() == old(h.Queues())[c.id := RemoveAt(q, i)] && c.flags == old(c.flags) - Cleared(p)
      else ret == -1 && h.Queues() == old(h.Queues()) && c.flags == old(c.flags)
    ensures Flags(h.comps) == old(Flags(h.comps))[c.id := c.flags]
  {
    ghost var fs, cs := Flags(h.comps), h.comps;
    assert forall d :: 0 <= d < |cs| ==> cs[d].id == d;
    ret := h.RemoveEvent(c, p);
    assert Flags(h.comps) == fs[c.id := c.flags];
  }

  lemma ClearsAsRemoved(e: Event, p: Pattern)
    requires Matches(e, p)
    ensures Cleared(p) == CW.ClearedBy(e)
  {
  }

  /** A removal on request is the machine's removal of the first event that matches. */
  method RemoveIsStep(h: Client, c: Component, p: Pattern, ghost ws: seq<CW.Waiter>) returns (ret: int)
    requires h.Valid() && h.Has(c) && |ws| == |h.comps|
    modifies h`eventList, h`home, h`spare, h`held, c`list, c`flags, h.next, h.events
    ensures h.Valid() && h.comps == old(h.comps)
    ensures ret == 0 ==>
      var at, s := FirstIndex(old(h.Queues())[c.id], Matcher(p)), old(StateOf(Zip(FieldsOf(h), ws), CW.Unheld));
      CW.Enabled(s, CW.Remove(c.id, at)) && CW.Next(s, CW.Remove(c.id, at)) == StateOf(Zip(FieldsOf(h), ws), CW.Unheld)
    ensures ret != 0 ==> StateOf(Zip(FieldsOf(h), ws), CW.Unheld) == old(StateOf(Zip(FieldsOf(h), ws), CW.Unheld))
  {
    ghost var f := FieldsOf(h);
    ret := RemoveOnly(h, c, p);
    AllKeepLinks(h.comps);
    if ret == 0 {
      ghost var at := FirstIndex(f.queues[c.id], Matcher(p));
      ClearsAsRemoved(f.queues[c.id][at], p);
      RemovedFields(f, FieldsOf(h), ws, c.id, at);
    } else {
      assert FieldsOf(h) == f;
    }
  }

  lemma ReturnedFields(f: Fields, f': Fields, ws: seq<CW.Waiter>, c: nat)
    requires Even(f, |ws|) && Even(f', |ws|) && c < |ws|
    requires f'.related == f.related && f'.masks == f.masks && f'.flags == f.flags && f'.queues == f.queues[c := []]
    ensures CW.Next(StateOf(Zip(f, ws), CW.Unheld), CW.ReturnAll(c)) == StateOf(Zip(f', ws), CW.Unheld)
  {
    MapIs(CW.Next(StateOf(Zip(f, ws), CW.Unheld), CW.ReturnAll(c)).comps, Zip(f', ws));
  }

  twostate lemma AllKeepFlags(cs: seq<Component>)
    requires forall d :: 0 <= d < |cs| ==> cs[d].flags == old(cs[d].flags)
    ensures Flags(cs) == old(Flags(cs))
  {
  }

  /** Giving all events back is the machine's step of that name. */
  method ReturnIsStep(h: Client, c: Component, ghost ws: seq<CW.Waiter>)
    requires h.Valid() && h.Has(c) && |ws| == |h.comps|
    modifies h`eventList, h`home, h`spare, h`held, c`list, h.next, h.events
    ensures h.Valid() && h.comps == old(h.comps)
    ensures CW.Next(old(StateOf(Zip(FieldsOf(h), ws), CW.Unheld)), CW.ReturnAll(c.id)) == StateOf(Zip(FieldsOf(h), ws), CW.Unheld)
  {
    ghost var f := FieldsOf(h);
    h.ReturnEvents(c);
    AllKeepLinks(h.comps);
    AllKeepFlags(h.comps);
    ReturnedFields(f, FieldsOf(h), ws, c.id);
  }
}
