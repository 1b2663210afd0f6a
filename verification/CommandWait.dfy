/**
 The waiting protocol as interleaved steps. Handlers run under the event lock: de-duplicate, test for
 a related component, notify it, raise the component's own flag, queue the event, unlock. A waiter
 announces and withdraws itself without the lock, scans under it, unlocks, and only then blocks on the
 flags.
 */
module CommandWait {
  import opened Bytes
  import opened Sequences
  import opened IlEvents

  type Id = nat

  datatype Request = Request(command: Command, data2: U32, other: Option<Id>)

  /** Where a component's waiter stands. */
  datatype Waiter =
    | Idle
    | Starting(req: Request)          // announced; about to take the lock
    | Holding(req: Request)           // has the lock; about to scan
    | Missed(req: Request)            // scanned in vain; about to unlock
    | Blocked(req: Request)           // waiting for a flag, without the lock
    | Leaving(req: Request, ret: int) // has its answer; about to withdraw the announcement

  /** `found` says that there was a related component to notify when the handler looked. */
  datatype Stage = Entered | Tested(found: bool) | Notified | Flagged(queue: bool)

  datatype Lock = Unheld | ByWaiter(id: Id) | ByHandler(id: Id, event: Event, stage: Stage)

  datatype Component = Component(
    list: seq<Event>, flags: set<Flag>, related: Option<Id>, mask: ErrorMask, waiter: Waiter)

  datatype State = State(comps: map<Id, Component>, lock: Lock)

  datatype Step =
    | Announce(c: Id, req: Request)
    | Acquire(c: Id)
    | Scan(c: Id)
    | Release(c: Id)
    | Wake(c: Id)
    | Withdraw(c: Id)
    | Enter(c: Id, event: Event)
    | Test(c: Id)
    | Notify(c: Id)
    | RaiseFlag(c: Id)
    | Queue(c: Id)
    | Remove(c: Id, at: nat)
    | Consume(c: Id, flags: set<Flag>)
    | ReturnAll(c: Id)
    | SetMask(c: Id, mask: ErrorMask)

  predicate Active(w: Waiter) {
    !w.Idle?
  }

  // ---- updates of one component ----

  function Put(s: State, c: Id, k: Component): State
    requires c in s.comps
  {
    s.(comps := s.comps[c := k])
  }

  function WithRelated(s: State, o: Option<Id>, r: Option<Id>): State {
    if o.Some? && o.value in s.comps then Put(s, o.value, s.comps[o.value].(related := r)) else s
  }

  function WithFlags(s: State, o: Option<Id>, fs: set<Flag>): State {
    if o.Some? && o.value in s.comps
    then Put(s, o.value, s.comps[o.value].(flags := s.comps[o.value].flags + fs)) else s
  }

  function WithWaiter(s: State, c: Id, w: Waiter): State
    requires c in s.comps
  {
    Put(s, c, s.comps[c].(waiter := w))
  }

  // ---- when a step may be taken ----

  /** No two waiters watch the same second component. */
  predicate Unwatched(s: State, req: Request) {
    req.other.Some? ==>
      && req.other.value in s.comps
      && forall d :: d in s.comps && Active(s.comps[d].waiter) ==> s.comps[d].waiter.req.other != req.other
  }

  predicate Enabled(s: State, step: Step) {
    step.c in s.comps &&
    var k := s.comps[step.c];
    match step
    case Announce(c, req) => k.waiter.Idle? && Waitable(req.command) && Unwatched(s, req)
    case Acquire(c) => k.waiter.Starting? && s.lock.Unheld?
    case Scan(c) => k.waiter.Holding?
    case Release(c) => k.waiter.Missed?
    case Wake(c) => k.waiter.Blocked? && Waitable(k.waiter.req.command) && k.flags * WaitMask(k.waiter.req.command) != {}
    case Withdraw(c) => k.waiter.Leaving?
    case Enter(c, event) => s.lock.Unheld? && Accepted(event)
    case Test(c) => s.lock.ByHandler? && s.lock.id == c && s.lock.stage.Entered?
    case Notify(c) => s.lock.ByHandler? && s.lock.id == c && s.lock.stage.Tested? && (s.lock.stage.found ==> k.related.Some?)
    case RaiseFlag(c) => s.lock.ByHandler? && s.lock.id == c && s.lock.stage.Notified?
    case Queue(c) => s.lock.ByHandler? && s.lock.id == c && s.lock.stage.Flagged?
    case Remove(c, at) => s.lock.Unheld? && at < |k.list|
    case Consume(c, flags) => true
    case ReturnAll(c) => s.lock.Unheld?
    case SetMask(c, mask) => true
  }

  // ---- what a step does ----

  /** The locked part of the wait: scan, and unlink on a hit. */
  function AfterScan(s: State, c: Id): State
    requires c in s.comps && s.comps[c].waiter.Holding?
  {
    var k := s.comps[c];
    var req := k.waiter.req;
    var i := FirstIndex(k.list, Ender(req.command, req.data2));
    if i < |k.list| then
      var flags := if k.list[i].Failure? then k.flags - {EventError} else k.flags;
      Put(s, c, k.(list := RemoveAt(k.list, i), flags := flags, waiter := Leaving(req, Verdict(k.list[i])))).(lock := Unheld)
    else if req.other.Some? && req.other.value in s.comps
            && exists e :: e in s.comps[req.other.value].list && CommandError(e) then
      WithWaiter(s, c, Leaving(req, -2)).(lock := Unheld)
    else
      WithWaiter(s, c, Missed(req))
  }

  /** The flags that go when an event is removed on request. */
  function ClearedBy(e: Event): set<Flag> {
    if e.Failure? then {EventError} else if e.ParamOrConfigChanged? then {ConfigChanged} else {}
  }

  function Next(s: State, step: Step): State
    requires Enabled(s, step)
  {
    var c := step.c;
    var k := s.comps[c];
    match step
    case Announce(_, req) => WithRelated(WithWaiter(s, c, Starting(req)), req.other, Some(c))
    case Acquire(_) => WithWaiter(s, c, Holding(k.waiter.req)).(lock := ByWaiter(c))
    case Scan(_) => AfterScan(s, c)
    case Release(_) => WithWaiter(s, c, Blocked(k.waiter.req)).(lock := Unheld)
    case Wake(_) => Put(s, c, k.(flags := k.flags - WaitMask(k.waiter.req.command), waiter := Starting(k.waiter.req)))
    case Withdraw(_) => WithRelated(WithWaiter(s, c, Idle), k.waiter.req.other, None)
    case Enter(_, event) => Put(s, c, k.(list := Dedup(k.list))).(lock := ByHandler(c, event, Entered))
    case Test(_) => s.(lock := ByHandler(c, s.lock.event, Tested(CommandError(s.lock.event) && k.related.Some?)))
    case Notify(_) =>
      (if s.lock.stage.found then WithFlags(s, k.related, {EventError}) else s)
      .(lock := ByHandler(c, s.lock.event, Notified))
    case RaiseFlag(_) =>
      WithFlags(s, Some(c), Raised(s.lock.event, k.mask))
      .(lock := ByHandler(c, s.lock.event, Flagged(!Ignored(s.lock.event, k.mask))))
    case Queue(_) =>
      (if s.lock.stage.queue then Put(s, c, k.(list := [Stored(s.lock.event)] + k.list)) else s).(lock := Unheld)
    case Remove(_, at) =>
      Put(s, c, k.(list := RemoveAt(k.list, at), flags := k.flags - ClearedBy(k.list[at])))
    case Consume(_, flags) => Put(s, c, k.(flags := k.flags - flags))
    case ReturnAll(_) => Put(s, c, k.(list := []))
    case SetMask(_, mask) => Put(s, c, k.(mask := mask))
  }

  // ---- runs ----

  predicate Init(s: State) {
    s.lock.Unheld? && forall c :: c in s.comps ==> s.comps[c].waiter.Idle?
  }

  /** `steps` is a run from `s`: every step is enabled when it is taken. */
  predicate Run(s: State, steps: seq<Step>)
    decreases |steps|
  {
    steps == [] || (Enabled(s, steps[0]) && Run(Next(s, steps[0]), steps[1..]))
  }

  function Final(s: State, steps: seq<Step>): State
    requires Run(s, steps)
    decreases |steps|
  {
    if steps == [] then s else Final(Next(s, steps[0]), steps[1..])
  }


  // ---- what a blocked waiter relies on ----

  /** The second component's list holds a command error. */
  ghost predicate OtherFailed(s: State, req: Request) {
    && req.other.Some? && req.other.value in s.comps
    && exists e :: e in s.comps[req.other.value].list && e.Failure? && e.data2 == 1
  }

  /** The component's list holds an event that ends the wait; `loud` leaves out the silent errors. */
  ghost predicate HasEnd(s: State, c: Id, req: Request, loud: bool)
    requires c in s.comps
  {
    exists e :: e in s.comps[c].list && Ends(e, req.command, req.data2) && !(loud && Silent(e))
  }

  /** The flags are such that the blocked call returns. */
  predicate WillWake(s: State, c: Id, req: Request) {
    && c in s.comps && Waitable(req.command)
    && s.comps[c].flags * WaitMask(req.command) != {}
  }

  ghost predicate Announced(s: State, c: Id, req: Request) {
    && Waitable(req.command)
    && (req.other.Some? ==> req.other.value in s.comps && s.comps[req.other.value].related == Some(c))
  }

  /**
   The handler at work can still give the waiter what ends its wait, and raises no flag for that any more: it
   is past its own flag, or past the notification and about to raise a flag on another component or none.
   */
  predicate Owes(s: State, c: Id, req: Request) {
    && s.lock.ByHandler?
    && var e := s.lock.event;
    || (s.lock.id == c && s.lock.stage == Flagged(true) && Ends(e, req.command, req.data2) && !Silent(e))
    || (req.other == Some(s.lock.id) && CommandError(e)
        && (s.lock.stage == Flagged(true) || (s.lock.stage.Notified? && (s.lock.id != c || Silent(e)))))
  }

  /** A handler that has looked for someone to notify has found the waiter. */
  predicate Found(s: State, req: Request) {
    s.lock.ByHandler? && s.lock.stage.Tested? && req.other == Some(s.lock.id) && CommandError(s.lock.event) ==>
      s.lock.stage.found
  }

  ghost predicate WaiterOk(s: State, c: Id)
    requires c in s.comps
  {
    match s.comps[c].waiter
    case Idle => true
    case Starting(req) => Announced(s, c, req)
    case Leaving(req, _) => Announced(s, c, req)
    case Holding(req) => Announced(s, c, req) && s.lock == ByWaiter(c)
    case Missed(req) =>
      && Announced(s, c, req) && s.lock == ByWaiter(c)
      && !HasEnd(s, c, req, false) && !OtherFailed(s, req)
    case Blocked(req) =>
      && Announced(s, c, req)
      && (HasEnd(s, c, req, true) || OtherFailed(s, req) || Owes(s, c, req) ==> WillWake(s, c, req))
      && Found(s, req)
  }

  ghost predicate Inv(s: State) {
    forall c :: c in s.comps ==> WaiterOk(s, c)
  }

  /**
   The component's waiter is blocked, and when these flags are cleared, with this list, none is left that it
   waits for, although its wait is over or about to be.
   */
  ghost predicate Strands(s: State, c: Id, list: seq<Event>, flags: set<Flag>)
    requires c in s.comps
  {
    && s.comps[c].waiter.Blocked?
    && var req, left := s.comps[c].waiter.req, Put(s, c, s.comps[c].(list := list));
    && Waitable(req.command) && (s.comps[c].flags - flags) * WaitMask(req.command) == {}
    && (HasEnd(left, c, req, true) || OtherFailed(left, req) || Owes(s, c, req))
  }

  /** The step removes an event or consumes flags, and with that strands the component's waiter. */
  ghost predicate Steals(s: State, step: Step)
    requires Enabled(s, step)
  {
    match step
    case Remove(c, at) => Strands(s, c, RemoveAt(s.comps[c].list, at), ClearedBy(s.comps[c].list[at]))
    case Consume(c, flags) => Strands(s, c, s.comps[c].list, flags)
    case _ => false
  }

  lemma AnnounceKeepsAt(s: State, c: Id, req: Request, d: Id)
    requires Enabled(s, Announce(c, req)) && WaiterOk(s, c) && d in s.comps && WaiterOk(s, d)
    ensures d in Next(s, Announce(c, req)).comps && WaiterOk(Next(s, Announce(c, req)), d)
  {
  }

  lemma AnnounceKeeps(s: State, c: Id, req: Request)
    requires Inv(s) && Enabled(s, Announce(c, req))
    ensures Inv(Next(s, Announce(c, req)))
  {
    var s' := Next(s, Announce(c, req));
    forall d | d in s'.comps ensures WaiterOk(s', d) {
      AnnounceKeepsAt(s, c, req, d);
    }
  }

  lemma WithdrawKeepsAt(s: State, c: Id, d: Id)
    requires Enabled(s, Withdraw(c)) && WaiterOk(s, c) && d in s.comps && WaiterOk(s, d)
    ensures d in Next(s, Withdraw(c)).comps && WaiterOk(Next(s, Withdraw(c)), d)
  {
  }

  lemma WithdrawKeeps(s: State, c: Id)
    requires Inv(s) && Enabled(s, Withdraw(c))
    ensures Inv(Next(s, Withdraw(c)))
  {
    var s' := Next(s, Withdraw(c));
    forall d | d in s'.comps ensures WaiterOk(s', d) {
      WithdrawKeepsAt(s, c, d);
    }
  }

  lemma AcquireKeeps(s: State, c: Id)
    requires Inv(s) && Enabled(s, Acquire(c))
    ensures Inv(Next(s, Acquire(c)))
  {
    var s' := Next(s, Acquire(c));
    forall d | d in s'.comps ensures WaiterOk(s', d) {
      assert WaiterOk(s, d);
    }
  }

  lemma ReleaseKeeps(s: State, c: Id)
    requires Inv(s) && Enabled(s, Release(c))
    ensures Inv(Next(s, Release(c)))
  {
    var s' := Next(s, Release(c));
    forall d | d in s'.comps ensures WaiterOk(s', d) {
      assert WaiterOk(s, d);
    }
  }

  lemma WakeKeeps(s: State, c: Id)
    requires Inv(s) && Enabled(s, Wake(c))
    ensures Inv(Next(s, Wake(c)))
  {
    var s' := Next(s, Wake(c));
    forall d | d in s'.comps ensures WaiterOk(s', d) {
      assert WaiterOk(s, d);
    }
  }

  lemma ScanKeepsAt(s: State, c: Id, d: Id)
    requires Enabled(s, Scan(c)) && WaiterOk(s, c) && d in s.comps && WaiterOk(s, d)
    ensures d in Next(s, Scan(c)).comps && WaiterOk(Next(s, Scan(c)), d)
  {
  }

  lemma ScanKeeps(s: State, c: Id)
    requires Inv(s) && Enabled(s, Scan(c))
    ensures Inv(Next(s, Scan(c)))
  {
    var s' := Next(s, Scan(c));
    forall d | d in s'.comps ensures WaiterOk(s', d) {
      ScanKeepsAt(s, c, d);
    }
  }

  lemma EnterKeeps(s: State, c: Id, event: Event)
    requires Inv(s) && Enabled(s, Enter(c, event))
    ensures Inv(Next(s, Enter(c, event)))
  {
    var s' := Next(s, Enter(c, event));
    forall d | d in s'.comps ensures WaiterOk(s', d) {
      assert WaiterOk(s, d);
    }
  }

  lemma TestKeeps(s: State, c: Id)
    requires Inv(s) && Enabled(s, Test(c))
    ensures Inv(Next(s, Test(c)))
  {
    var s' := Next(s, Test(c));
    forall d | d in s'.comps ensures WaiterOk(s', d) {
      assert WaiterOk(s, d);
    }
  }

  lemma FlagWakes(s: State, c: Id, req: Request)
    requires c in s.comps && Waitable(req.command)
    ensures EventError in s.comps[c].flags || WaitFlag(req.command) in s.comps[c].flags ==> WillWake(s, c, req)
  {
    if EventError in s.comps[c].flags {
      assert EventError in s.comps[c].flags * WaitMask(req.command);
    } else if WaitFlag(req.command) in s.comps[c].flags {
      assert WaitFlag(req.command) in s.comps[c].flags * WaitMask(req.command);
    }
  }

  lemma NotifyKeeps(s: State, c: Id)
    requires Inv(s) && Enabled(s, Notify(c))
    ensures Inv(Next(s, Notify(c)))
  {
    var s' := Next(s, Notify(c));
    forall d | d in s'.comps ensures WaiterOk(s', d) {
      assert WaiterOk(s, d);
      if s'.comps[d].waiter.Blocked? {
        FlagWakes(s', d, s'.comps[d].waiter.req);
      }
    }
  }

  lemma RaiseFlagKeeps(s: State, c: Id)
    requires Inv(s) && Enabled(s, RaiseFlag(c))
    ensures Inv(Next(s, RaiseFlag(c)))
  {
    var s' := Next(s, RaiseFlag(c));
    forall d | d in s'.comps ensures WaiterOk(s', d) {
      assert WaiterOk(s, d);
      if s'.comps[d].waiter.Blocked? {
        FlagWakes(s', d, s'.comps[d].waiter.req);
      }
    }
  }

  lemma QueueKeeps(s: State, c: Id)
    requires Inv(s) && Enabled(s, Queue(c))
    ensures Inv(Next(s, Queue(c)))
  {
    var s' := Next(s, Queue(c));
    forall d | d in s'.comps ensures WaiterOk(s', d) {
      assert WaiterOk(s, d);
    }
  }

  lemma RemoveKeeps(s: State, c: Id, at: nat)
    requires Inv(s) && Enabled(s, Remove(c, at))
    ensures Inv(Next(s, Remove(c, at))) <==> !Steals(s, Remove(c, at))
  {
    var k, s' := s.comps[c], Next(s, Remove(c, at));
    assert WaiterOk(s, c);
    forall d | d in s'.comps && d != c ensures WaiterOk(s', d) {
      assert WaiterOk(s, d);
    }
    ClearedAt(s, c, RemoveAt(k.list, at), ClearedBy(k.list[at]));
  }

  lemma ConsumeKeeps(s: State, c: Id, flags: set<Flag>)
    requires Inv(s) && Enabled(s, Consume(c, flags))
    ensures Inv(Next(s, Consume(c, flags))) <==> !Steals(s, Consume(c, flags))
  {
    var s' := Next(s, Consume(c, flags));
    assert WaiterOk(s, c);
    forall d | d in s'.comps && d != c ensures WaiterOk(s', d) {
      assert WaiterOk(s, d);
    }
    ClearedAt(s, c, s.comps[c].list, flags);
  }

  /** What clearing flags does to the component's own waiter. */
  lemma ClearedAt(s: State, c: Id, list: seq<Event>, flags: set<Flag>)
    requires c in s.comps && WaiterOk(s, c) && forall e :: e in list ==> e in s.comps[c].list
    ensures var s' := Put(s, c, s.comps[c].(list := list, flags := s.comps[c].flags - flags));
      WaiterOk(s', c) <==> !Strands(s, c, list, flags)
  {
  }

  lemma ReturnAllKeeps(s: State, c: Id)
    requires Inv(s) && Enabled(s, ReturnAll(c))
    ensures Inv(Next(s, ReturnAll(c)))
  {
    var s' := Next(s, ReturnAll(c));
    forall d | d in s'.comps ensures WaiterOk(s', d) {
      assert WaiterOk(s, d);
    }
  }

  lemma SetMaskKeeps(s: State, c: Id, mask: ErrorMask)
    requires Inv(s) && Enabled(s, SetMask(c, mask))
    ensures Inv(Next(s, SetMask(c, mask)))
  {
    var s' := Next(s, SetMask(c, mask));
    forall d | d in s'.comps ensures WaiterOk(s', d) {
      assert WaiterOk(s, d);
    }
  }

  /** The invariant is lost exactly by a step that steals a wakeup. */
  lemma StepKeeps(s: State, step: Step)
    requires Inv(s) && Enabled(s, step)
    ensures Inv(Next(s, step)) <==> !Steals(s, step)
  {
    match step
    case Announce(c, req) => AnnounceKeeps(s, c, req);
    case Acquire(c) => AcquireKeeps(s, c);
    case Scan(c) => ScanKeeps(s, c);
    case Release(c) => ReleaseKeeps(s, c);
    case Wake(c) => WakeKeeps(s, c);
    case Withdraw(c) => WithdrawKeeps(s, c);
    case Enter(c, event) => EnterKeeps(s, c, event);
    case Test(c) => TestKeeps(s, c);
    case Notify(c) => NotifyKeeps(s, c);
    case RaiseFlag(c) => RaiseFlagKeeps(s, c);
    case Queue(c) => QueueKeeps(s, c);
    case Remove(c, at) => RemoveKeeps(s, c, at);
    case Consume(c, flags) => ConsumeKeeps(s, c, flags);
    case ReturnAll(c) => ReturnAllKeeps(s, c);
    case SetMask(c, mask) => SetMaskKeeps(s, c, mask);
  }

  /** No step of the run steals a wakeup. */
  ghost predicate NeverSteals(s: State, steps: seq<Step>)
    requires Run(s, steps)
    decreases |steps|
  {
    steps != [] ==> !Steals(s, steps[0]) && NeverSteals(Next(s, steps[0]), steps[1..])
  }

  /** Reached by a run on which no wakeup is stolen. */
  ghost predicate Reachable(s: State) {
    exists s0, steps :: Init(s0) && Run(s0, steps) && NeverSteals(s0, steps) && Final(s0, steps) == s
  }

  lemma {:induction false} RunKeeps(s: State, steps: seq<Step>)
    requires Inv(s) && Run(s, steps) && NeverSteals(s, steps)
    ensures Inv(Final(s, steps))
    decreases |steps|
  {
    if steps != [] {
      StepKeeps(s, steps[0]);
      RunKeeps(Next(s, steps[0]), steps[1..]);
    }
  }

  lemma ReachableInv(s: State)
    requires Reachable(s)
    ensures Inv(s)
  {
    var s0, steps :| Init(s0) && Run(s0, steps) && NeverSteals(s0, steps) && Final(s0, steps) == s;
    RunKeeps(s0, steps);
  }

  /** The waiter is blocked, its wait is over, and nothing wakes it. */
  ghost predicate SleepsOn(s: State, c: Id) {
    && c in s.comps && s.comps[c].waiter.Blocked?
    && var req := s.comps[c].waiter.req;
    && (HasEnd(s, c, req, true) || OtherFailed(s, req)) && !WillWake(s, c, req)
  }

  /**
   No lost wakeup. In every state that any interleaving without a stolen wakeup can reach, a blocked waiter
   whose wait is over is going to be woken: its flags meet the mask it blocks on.
   */
  lemma NoLostWakeup(s: State, c: Id)
    requires Reachable(s) && c in s.comps && s.comps[c].waiter.Blocked?
    ensures var req := s.comps[c].waiter.req;
      HasEnd(s, c, req, true) || OtherFailed(s, req) ==> WillWake(s, c, req)
  {
    ReachableInv(s);
    assert WaiterOk(s, c);
  }

  // ---- stolen wakeups ----

  /** Nothing in these steps clears a flag on request. */
  predicate Quiet(steps: seq<Step>) {
    forall i :: 0 <= i < |steps| ==> !steps[i].Remove? && !steps[i].Consume?
  }

  lemma {:induction false} QuietNeverSteals(s: State, steps: seq<Step>)
    requires Run(s, steps) && Quiet(steps)
    ensures NeverSteals(s, steps)
    decreases |steps|
  {
    if steps != [] {
      QuietNeverSteals(Next(s, steps[0]), steps[1..]);
    }
  }

  /** After the step a waiter can come to sleep on, though nobody clears another flag. */
  ghost predicate LosesAWakeup(s: State, step: Step)
    requires Enabled(s, step)
  {
    exists more, c :: Run(Next(s, step), more) && Quiet(more) && SleepsOn(Final(Next(s, step), more), c)
  }

  /** What is left for the handler at work to do. */
  function Rest(l: Lock): seq<Step>
    requires l.ByHandler? ==> l.stage.Notified? || l.stage.Flagged?
  {
    if !l.ByHandler? then []
    else if l.stage.Flagged? then [Queue(l.id)]
    else [SetMask(l.id, {}), RaiseFlag(l.id), Queue(l.id)]
  }

  /** A blocked waiter that the handler's event is going to leave asleep. */
  ghost predicate Stranded(s: State, c: Id) {
    && c in s.comps && s.comps[c].waiter.Blocked?
    && var req := s.comps[c].waiter.req;
    && Announced(s, c, req) && Owes(s, c, req) && !WillWake(s, c, req)
  }

  lemma QueueStrands(s: State, c: Id)
    requires Stranded(s, c) && s.lock.stage.Flagged?
    ensures Enabled(s, Queue(s.lock.id)) && SleepsOn(Next(s, Queue(s.lock.id)), c)
  {
    var s', req, e := Next(s, Queue(s.lock.id)), s.comps[c].waiter.req, s.lock.event;
    assert e in s'.comps[s.lock.id].list;
  }

  lemma FlagStrands(s: State, c: Id)
    requires Stranded(s, c) && s.lock.stage.Notified? && s.comps[s.lock.id].mask == {}
    ensures Enabled(s, RaiseFlag(s.lock.id)) && Stranded(Next(s, RaiseFlag(s.lock.id)), c)
    ensures Next(s, RaiseFlag(s.lock.id)).lock == ByHandler(s.lock.id, s.lock.event, Flagged(true))
  {
  }

  lemma MaskStrands(s: State, c: Id)
    requires Stranded(s, c) && s.lock.stage.Notified?
    ensures Enabled(s, SetMask(s.lock.id, {}))
    ensures var s' := Next(s, SetMask(s.lock.id, {}));
      Stranded(s', c) && s'.lock == s.lock && s'.comps[s.lock.id].mask == {}
  {
  }

  lemma TwoSteps(s: State, a: Step, more: seq<Step>)
    requires Enabled(s, a) && Run(Next(s, a), more)
    ensures Run(s, [a] + more) && Final(s, [a] + more) == Final(Next(s, a), more)
  {
    assert ([a] + more)[1..] == more;
  }

  /** The handler's own steps, and at most a change of its mask, leave a stranded waiter asleep. */
  lemma RestLoses(s: State, c: Id)
    requires Stranded(s, c)
    ensures Run(s, Rest(s.lock)) && SleepsOn(Final(s, Rest(s.lock)), c)
  {
    var id := s.lock.id;
    if s.lock.stage.Flagged? {
      QueueStrands(s, c);
      TwoSteps(s, Queue(id), []);
    } else {
      MaskStrands(s, c);
      var s1 := Next(s, SetMask(id, {}));
      FlagStrands(s1, c);
      var s2 := Next(s1, RaiseFlag(id));
      QueueStrands(s2, c);
      TwoSteps(s2, Queue(id), []);
      TwoSteps(s1, RaiseFlag(id), [Queue(id)]);
      TwoSteps(s, SetMask(id, {}), [RaiseFlag(id), Queue(id)]);
      assert [SetMask(id, {})] + [RaiseFlag(id), Queue(id)] == Rest(s.lock);
      assert [RaiseFlag(id)] + [Queue(id)] == [RaiseFlag(id), Queue(id)];
    }
  }

  /** A steal loses a wakeup at once, or when the handler at work has queued its event. */
  lemma StealLoses(s: State, step: Step)
    requires Inv(s) && Enabled(s, step) && Steals(s, step)
    ensures LosesAWakeup(s, step)
  {
    var s', c := Next(s, step), step.c;
    var req := s.comps[c].waiter.req;
    if HasEnd(s', c, req, true) || OtherFailed(s', req) {
      assert Run(s', []) && SleepsOn(Final(s', []), c);
    } else {
      RestLoses(s', c);
      assert Run(s', Rest(s'.lock)) && Quiet(Rest(s'.lock)) && SleepsOn(Final(s', Rest(s'.lock)), c);
    }
  }

  /** Wakeups are lost exactly by the steps that steal them. */
  lemma LosesExactlyWhenStolen(s: State, step: Step)
    requires Inv(s) && Enabled(s, step)
    ensures LosesAWakeup(s, step) <==> Steals(s, step)
  {
    StepKeeps(s, step);
    if Steals(s, step) {
      StealLoses(s, step);
    } else {
      forall more, c | Run(Next(s, step), more) && Quiet(more) ensures !SleepsOn(Final(Next(s, step), more), c) {
        QuietNeverSteals(Next(s, step), more);
        RunKeeps(Next(s, step), more);
      }
    }
  }

  /** Some step of the run loses a wakeup. */
  ghost predicate EverLoses(s: State, steps: seq<Step>)
    requires Run(s, steps)
    decreases |steps|
  {
    steps != [] && (LosesAWakeup(s, steps[0]) || EverLoses(Next(s, steps[0]), steps[1..]))
  }

  /** Over whole runs: no wakeup is lost if and only if none is stolen. */
  lemma {:induction false} RunLosesExactly(s: State, steps: seq<Step>)
    requires Inv(s) && Run(s, steps)
    ensures EverLoses(s, steps) <==> !NeverSteals(s, steps)
    decreases |steps|
  {
    if steps != [] {
      LosesExactlyWhenStolen(s, steps[0]);
      StepKeeps(s, steps[0]);
      if !Steals(s, steps[0]) {
        RunLosesExactly(Next(s, steps[0]), steps[1..]);
      }
    }
  }

  /** The woken waiter takes the lock and is about to scan. */
  function Retaken(s: State, c: Id): State
    requires Enabled(s, Wake(c)) && s.lock.Unheld?
  {
    Next(Next(s, Wake(c)), Acquire(c))
  }

  lemma RetakenScans(s: State, c: Id)
    requires Enabled(s, Wake(c)) && s.lock.Unheld?
    ensures var s', req := Retaken(s, c), s.comps[c].waiter.req;
      && Enabled(s', Scan(c)) && s'.comps[c].waiter == Holding(req)
      && s'.comps.Keys == s.comps.Keys
      && forall d :: d in s.comps ==> s'.comps[d].list == s.comps[d].list
  {
  }

  /** Once woken with the lock free, such a waiter returns, with -2 exactly when only the other failed. */
  lemma WokenWaiterReturns(s: State, c: Id)
    requires Reachable(s) && c in s.comps && s.comps[c].waiter.Blocked? && s.lock.Unheld?
    requires var req := s.comps[c].waiter.req; HasEnd(s, c, req, true) || OtherFailed(s, req)
    ensures Enabled(s, Wake(c)) && Enabled(Retaken(s, c), Scan(c))
    ensures var w := Next(Retaken(s, c), Scan(c)).comps[c].waiter;
      w.Leaving? && (w.ret == -2 <==> !HasEnd(s, c, s.comps[c].waiter.req, false))
  {
    NoLostWakeup(s, c);
    RetakenScans(s, c);
    var s', req := Retaken(s, c), s.comps[c].waiter.req;
    assert OtherFailed(s, req) <==> OtherFailed(s', req);
    assert HasEnd(s, c, req, false) <==> HasEnd(s', c, req, false);
    ScanAnswers(s', c);
  }

  lemma ScanAnswers(s: State, c: Id)
    requires Enabled(s, Scan(c))
    ensures var w, req := Next(s, Scan(c)).comps[c].waiter, s.comps[c].waiter.req;
      && (HasEnd(s, c, req, false) ==> w.Leaving? && w.ret != -2)
      && (!HasEnd(s, c, req, false) && OtherFailed(s, req) ==> w.Leaving? && w.ret == -2)
  {
    var list, req := s.comps[c].list, s.comps[c].waiter.req;
    var i := FirstIndex(list, Ender(req.command, req.data2));
    assert i < |list| ==> list[i] in list && HasEnd(s, c, req, false);
    assert i == |list| ==> !HasEnd(s, c, req, false);
  }

  /**
   What an answer means: 0 or -1 comes with exactly the first ending event unlinked, -2 with both
   lists as they were and a command error on the other one only.
   */
  lemma ScanVerdict(s: State, c: Id)
    requires Enabled(s, Scan(c)) && Next(s, Scan(c)).comps[c].waiter.Leaving?
    ensures var s', req := Next(s, Scan(c)), s.comps[c].waiter.req;
      if s'.comps[c].waiter.ret == -2 then
        && OtherFailed(s, req) && !HasEnd(s, c, req, false)
        && forall d :: d in s.comps ==> s'.comps[d].list == s.comps[d].list && s'.comps[d].flags == s.comps[d].flags
      else
        && (forall d :: d in s.comps && d != c ==> s'.comps[d] == s.comps[d])
        && exists i :: UnlinksFirstEnd(s.comps[c], s'.comps[c], req, i)
  {
    var k, req := s.comps[c], s.comps[c].waiter.req;
    var i := FirstIndex(k.list, Ender(req.command, req.data2));
    if i < |k.list| {
      assert UnlinksFirstEnd(k, Next(s, Scan(c)).comps[c], req, i);
    } else {
      NoEnd(k.list, req);
    }
  }

  /** The list has lost its first ending event, an error has taken the error flag with it, and the answer says how the wait ended. */
  ghost predicate UnlinksFirstEnd(k: Component, k': Component, req: Request, i: nat) {
    && i < |k.list|
    && var e := k.list[i];
    && (e == CmdComplete(req.command, req.data2) || (e.Failure? && e.data2 == 1))
    && (forall j :: 0 <= j < i ==> k.list[j] != CmdComplete(req.command, req.data2) && !(k.list[j].Failure? && k.list[j].data2 == 1))
    && k'.list == k.list[..i] + k.list[i + 1..]
    && k'.flags == (if e.Failure? then k.flags - {EventError} else k.flags)
    && k'.waiter == Leaving(req, if e.Failure? && e.code != SameState then -1 else 0)
  }

  lemma NoEnd(list: seq<Event>, req: Request)
    requires FirstIndex(list, Ender(req.command, req.data2)) == |list|
    ensures forall e :: e in list ==> !Ends(e, req.command, req.data2)
  {
  }

  lemma {:induction false} RunSnoc(s: State, steps: seq<Step>, step: Step)
    requires Run(s, steps) && Enabled(Final(s, steps), step)
    ensures Run(s, steps + [step]) && Final(s, steps + [step]) == Next(Final(s, steps), step)
    ensures NeverSteals(s, steps + [step]) <==> NeverSteals(s, steps) && !Steals(Final(s, steps), step)
    decreases |steps|
  {
    var all := steps + [step];
    if steps == [] {
      assert all[1..] == [];
    } else {
      RunSnoc(Next(s, steps[0]), steps[1..], step);
      assert all[1..] == steps[1..] + [step];
    }
  }

  /** Reachable states, one step further. */
  lemma ReachableNext(s: State, step: Step)
    requires Reachable(s) && Enabled(s, step) && !Steals(s, step)
    ensures Reachable(Next(s, step))
  {
    var s0, steps :| Init(s0) && Run(s0, steps) && NeverSteals(s0, steps) && Final(s0, steps) == s;
    RunSnoc(s0, steps, step);
  }

  /** A waiter announces itself and takes the lock. */
  lemma Approach(req: Request) returns (s: State)
    requires Waitable(req.command) && req.other.None?
    ensures s == State(map[0 := Component([], {}, None, {}, Holding(req))], ByWaiter(0))
    ensures Reachable(s)
  {
    s := State(map[0 := Component([], {}, None, {}, Idle)], Unheld);
    assert Init(s) && Run(s, []) && Final(s, []) == s;
    ReachableNext(s, Announce(0, req));
    s := Next(s, Announce(0, req));
    ReachableNext(s, Acquire(0));
    s := Next(s, Acquire(0));
  }

  /** It finds nothing and goes to sleep. */
  lemma Sleep(req: Request) returns (s: State)
    requires Waitable(req.command) && req.other.None?
    ensures s == State(map[0 := Component([], {}, None, {}, Blocked(req))], Unheld)
    ensures Reachable(s)
  {
    s := Approach(req);
    ReachableNext(s, Scan(0));
    s := Next(s, Scan(0));
    ReachableNext(s, Release(0));
    s := Next(s, Release(0));
  }

  /** A handler whose component is related to no other notifies nobody. */
  lemma UnrelatedHandling(s: State, k: Component, e: Event) returns (s': State)
    requires s == State(map[0 := k], Unheld) && k.list == [] && k.related.None?
    requires Reachable(s) && CommandError(e)
    ensures Reachable(s') && s' == State(map[0 := k], ByHandler(0, e, Notified))
  {
    ReachableNext(s, Enter(0, e));
    s' := Next(s, Enter(0, e));
    assert s' == State(map[0 := k], ByHandler(0, e, Entered));
    ReachableNext(s', Test(0));
    s' := Next(s', Test(0));
    ReachableNext(s', Notify(0));
    s' := Next(s', Notify(0));
  }

  /** It raises no flag for a silent error. */
  lemma SilentHandling(s: State, k: Component, e: Event) returns (s': State)
    requires s == State(map[0 := k], Unheld) && k.list == [] && k.related.None? && k.flags == {}
    requires Reachable(s) && CommandError(e) && Silent(e)
    ensures Reachable(s') && s' == State(map[0 := k], ByHandler(0, e, Flagged(true)))
  {
    s' := UnrelatedHandling(s, k, e);
    ReachableNext(s', RaiseFlag(0));
    s' := Next(s', RaiseFlag(0));
    assert k.flags + Raised(e, k.mask) == {};
  }

  /** A silent error arrives while the waiter sleeps. */
  lemma SilentArrival(s: State, req: Request, e: Event) returns (s': State)
    requires s == State(map[0 := Component([], {}, None, {}, Blocked(req))], Unheld)
    requires Reachable(s) && CommandError(e) && Silent(e)
    ensures Reachable(s') && s'.comps == map[0 := Component([e], {}, None, {}, Blocked(req))]
  {
    var k := s.comps[0];
    s' := SilentHandling(s, k, e);
    ReachableNext(s', Queue(0));
    s' := Next(s', Queue(0));
    assert [e] + [] == [e];
  }

  /** Some run leaves `c` asleep with the command error `e` on its list and no flag to wake it. */
  ghost predicate Lost(s: State, c: Id, e: Event) {
    && Reachable(s) && c in s.comps && s.comps[c].waiter.Blocked?
    && e in s.comps[c].list && !WillWake(s, c, s.comps[c].waiter.req)
  }

  /**
   The exception, exactly: a command error can be lost if and only if it is one of the two codes
   that are queued without raising a flag.
   */
  lemma LostExactlyWhenSilent(e: Event)
    requires CommandError(e)
    ensures (exists s, c :: Lost(s, c, e)) <==> e.code == DiskFull || e.code == MaxFileSize
  {
    if Silent(e) {
      var req := Request(StateSet, 0, None);
      var s := Sleep(req);
      var s' := SilentArrival(s, req, e);
      assert Lost(s', 0, e);
    } else {
      forall s, c | Lost(s, c, e) ensures false {
        NoLostWakeup(s, c);
        assert Ends(e, s.comps[c].waiter.req.command, s.comps[c].waiter.req.data2);
      }
    }
  }

  /** A loud error arrives for a component that is related to no other. */
  lemma LoudArrival(s: State, k: Component, e: Event) returns (s': State)
    requires s == State(map[0 := k], Unheld) && Reachable(s) && CommandError(e) && !Silent(e)
    requires k.related.None? && k.mask == {} && Dedup(k.list) == k.list
    ensures Reachable(s') && s' == State(map[0 := k.(list := [e] + k.list, flags := k.flags + {EventError})], Unheld)
  {
    ReachableNext(s, Enter(0, e));
    s' := Next(s, Enter(0, e));
    assert s' == State(map[0 := k], ByHandler(0, e, Entered));
    ReachableNext(s', Test(0));
    s' := Next(s', Test(0));
    ReachableNext(s', Notify(0));
    s' := Next(s', Notify(0));
    assert s' == State(map[0 := k], ByHandler(0, e, Notified));
    LoudRest(s', k, e);
    s' := Next(Next(s', RaiseFlag(0)), Queue(0));
  }

  lemma LoudRest(s: State, k: Component, e: Event)
    requires s == State(map[0 := k], ByHandler(0, e, Notified)) && Reachable(s) && CommandError(e) && !Silent(e) && k.mask == {}
    ensures Enabled(s, RaiseFlag(0)) && Enabled(Next(s, RaiseFlag(0)), Queue(0))
    ensures var s' := Next(Next(s, RaiseFlag(0)), Queue(0));
      Reachable(s') && s' == State(map[0 := k.(list := [e] + k.list, flags := k.flags + {EventError})], Unheld)
  {
    ReachableNext(s, RaiseFlag(0));
    ReachableNext(Next(s, RaiseFlag(0)), Queue(0));
  }

  /** Two command errors have arrived while the waiter sleeps; there is one flag for both. */
  lemma TwoErrors(req: Request, e1: Event, e2: Event) returns (s: State)
    requires Waitable(req.command) && req.other.None?
    requires e1 != e2 && CommandError(e1) && CommandError(e2) && !Silent(e1) && !Silent(e2)
    ensures Reachable(s) && s == State(map[0 := Component([e2, e1], {EventError}, None, {}, Blocked(req))], Unheld)
  {
    s := Sleep(req);
    s := LoudArrival(s, Component([], {}, None, {}, Blocked(req)), e1);
    assert [e1] + [] == [e1] && {} + {EventError} == {EventError};
    assert Without([], e1) == [];
    s := LoudArrival(s, Component([e1], {EventError}, None, {}, Blocked(req)), e2);
    assert [e2] + [e1] == [e2, e1] && {EventError} + {EventError} == {EventError};
  }

  /**
   Wakeups are stolen on reachable states: of two command errors the client removes one, and the flag goes for
   both; or it clears the flag before a command of its own. The waiter sleeps on.
   */
  lemma StealsAreReachable(req: Request, e1: Event, e2: Event) returns (s: State)
    requires Waitable(req.command) && req.other.None?
    requires e1 != e2 && CommandError(e1) && CommandError(e2) && !Silent(e1) && !Silent(e2)
    ensures Reachable(s) && Enabled(s, Wake(0))
    ensures Enabled(s, Remove(0, 1)) && Steals(s, Remove(0, 1)) && SleepsOn(Next(s, Remove(0, 1)), 0)
    ensures Enabled(s, Consume(0, {EventError})) && Steals(s, Consume(0, {EventError}))
    ensures SleepsOn(Next(s, Consume(0, {EventError})), 0)
  {
    s := TwoErrors(req, e1, e2);
    var k := s.comps[0];
    assert EventError in k.flags * WaitMask(req.command);
    assert RemoveAt(k.list, 1) == [e2] && [e2][0] == e2 && k.list[0] == e2;
    assert k.flags - {EventError} == {};
  }

  // ---- how often a waiter is woken ----

  /** The flags that a wait for a command blocks on. */
  predicate Awaited(command: Command, f: Flag) {
    || f == EventError
    || (command.StateSet? && f == StateChanged)
    || (command.PortDisable? && f == PortDisabled)
    || (command.PortEnable? && f == PortEnabled)
  }

  /** Waking consumes every flag that the waiter blocked on, and leaves every other; nothing else changes but the waiter. */
  lemma WakeConsumes(s: State, c: Id)
    requires Enabled(s, Wake(c))
    ensures var s', req := Next(s, Wake(c)), s.comps[c].waiter.req;
      && (exists f :: f in s.comps[c].flags && Awaited(req.command, f))
      && (forall f :: f in s'.comps[c].flags <==> f in s.comps[c].flags && !Awaited(req.command, f))
      && s'.lock == s.lock && s'.comps.Keys == s.comps.Keys
      && s'.comps[c].waiter == Starting(req) && s'.comps[c].list == s.comps[c].list
      && forall d :: d in s.comps && d != c ==> s'.comps[d] == s.comps[d]
  {
    var f :| f in s.comps[c].flags * WaitMask(s.comps[c].waiter.req.command);
    assert Awaited(s.comps[c].waiter.req.command, f);
  }

  /** Some flag that waits for the command block on is up on the component. */
  ghost predicate Up(s: State, c: Id, command: Command) {
    c in s.comps && exists f :: f in s.comps[c].flags && Awaited(command, f)
  }

  /** A handler puts up the first such flag. */
  ghost predicate PutsUp(s: State, step: Step, c: Id, command: Command)
    requires Enabled(s, step)
  {
    (step.Notify? || step.RaiseFlag?) && !Up(s, c, command) && Up(Next(s, step), c, command)
  }

  function Wakes(steps: seq<Step>, c: Id): nat {
    if steps == [] then 0 else (if steps[0] == Wake(c) then 1 else 0) + Wakes(steps[1..], c)
  }

  ghost function PutUps(s: State, steps: seq<Step>, c: Id, command: Command): nat
    requires Run(s, steps)
    decreases |steps|
  {
    if steps == [] then 0
    else (if PutsUp(s, steps[0], c, command) then 1 else 0) + PutUps(Next(s, steps[0]), steps[1..], c, command)
  }

  /** The component's waiter, if there is one, waits for this command. */
  predicate WaitsFor(s: State, c: Id, command: Command) {
    c in s.comps && (Active(s.comps[c].waiter) ==> s.comps[c].waiter.req.command == command)
  }

  predicate OnlyFor(steps: seq<Step>, c: Id, command: Command) {
    forall i :: 0 <= i < |steps| && steps[i].Announce? && steps[i].c == c ==> steps[i].req.command == command
  }

  lemma StepWaitsFor(s: State, step: Step, c: Id, command: Command)
    requires Enabled(s, step) && WaitsFor(s, c, command) && (step.Announce? && step.c == c ==> step.req.command == command)
    ensures WaitsFor(Next(s, step), c, command)
  {
  }

  lemma StepPutsUp(s: State, step: Step, c: Id, command: Command)
    requires Enabled(s, step) && WaitsFor(s, c, command)
    ensures step == Wake(c) ==> Up(s, c, command) && !Up(Next(s, step), c, command) && !PutsUp(s, step, c, command)
    ensures !Up(s, c, command) && Up(Next(s, step), c, command) ==> PutsUp(s, step, c, command)
  {
    if step == Wake(c) {
      WakeConsumes(s, c);
    }
    if !step.Notify? && !step.RaiseFlag? {
      assert c in Next(s, step).comps && Next(s, step).comps[c].flags <= s.comps[c].flags;
    }
  }

  /**
   Over any run in which a component waits for one command: its waiter is woken at most once more than handlers have
   put up a flag that it waits for. Waking uses the flags up: it does not spin.
   */
  lemma {:induction false} WakesArePutUp(s: State, steps: seq<Step>, c: Id, command: Command)
    requires Run(s, steps) && WaitsFor(s, c, command) && OnlyFor(steps, c, command)
    ensures Wakes(steps, c) <= PutUps(s, steps, c, command) + if Up(s, c, command) then 1 else 0
    decreases |steps|
  {
    if steps != [] {
      StepWaitsFor(s, steps[0], c, command);
      StepPutsUp(s, steps[0], c, command);
      WakesArePutUp(Next(s, steps[0]), steps[1..], c, command);
    }
  }

  /** Between two wakes of a waiter some handler has put up a flag that it waits for. */
  lemma BetweenTwoWakes(s: State, steps: seq<Step>, c: Id)
    requires Enabled(s, Wake(c)) && Run(Next(s, Wake(c)), steps) && Wakes(steps, c) > 0
    requires OnlyFor(steps, c, s.comps[c].waiter.req.command)
    ensures PutUps(Next(s, Wake(c)), steps, c, s.comps[c].waiter.req.command) > 0
  {
    WakeConsumes(s, c);
    WakesArePutUp(Next(s, Wake(c)), steps, c, s.comps[c].waiter.req.command);
  }

  // ---- the unguarded dereference ----

  /** A handler has found a related component to notify, and it is gone: the next thing it does is use a null pointer. */
  ghost predicate Faults(s: State) {
    && s.lock.ByHandler? && s.lock.stage == Tested(true)
    && s.lock.id in s.comps && s.comps[s.lock.id].related.None?
  }

  ghost predicate LockPlaced(s: State) {
    s.lock.ByHandler? ==> s.lock.id in s.comps
  }

  /** A waiter withdraws between the handler's test of the component that it watches and the notification. */
  predicate WithdrawsUnderTest(s: State, step: Step)
    requires Enabled(s, step)
  {
    && step.Withdraw?
    && s.lock.ByHandler? && s.lock.stage == Tested(true)
    && s.comps[step.c].waiter.req.other == Some(s.lock.id)
  }

  lemma FaultsExactly(s: State, step: Step)
    requires LockPlaced(s) && Enabled(s, step) && !Faults(s)
    ensures LockPlaced(Next(s, step))
    ensures Faults(Next(s, step)) <==> WithdrawsUnderTest(s, step)
  {
  }

  ghost predicate EverFaults(s: State, steps: seq<Step>)
    requires Run(s, steps)
    decreases |steps|
  {
    Faults(s) || (steps != [] && EverFaults(Next(s, steps[0]), steps[1..]))
  }

  predicate EverWithdrawsUnderTest(s: State, steps: seq<Step>)
    requires Run(s, steps)
    decreases |steps|
  {
    steps != [] && (WithdrawsUnderTest(s, steps[0]) || EverWithdrawsUnderTest(Next(s, steps[0]), steps[1..]))
  }

  /** The interleavings that reach the null pointer are exactly those with such a withdrawal. */
  lemma {:induction false} RunFaultsExactly(s: State, steps: seq<Step>)
    requires LockPlaced(s) && Run(s, steps) && !Faults(s)
    ensures EverFaults(s, steps) <==> EverWithdrawsUnderTest(s, steps)
    decreases |steps|
  {
    if steps != [] {
      var s' := Next(s, steps[0]);
      FaultsExactly(s, steps[0]);
      if Faults(s') {
        assert EverFaults(s', steps[1..]);
      } else {
        RunFaultsExactly(s', steps[1..]);
      }
    }
  }

  /** Component 0 is about to look for what is already on its list, and watches component 1. */
  lemma Looker(req: Request, done: Event) returns (s: State)
    requires req == Request(StateSet, 0, Some(1))
    ensures s == State(map[0 := Component([done], {}, None, {}, Holding(req)), 1 := Component([], {}, Some(0), {}, Idle)],
                       ByWaiter(0))
    ensures Reachable(s)
  {
    s := State(map[0 := Component([done], {}, None, {}, Idle), 1 := Component([], {}, None, {}, Idle)], Unheld);
    assert Init(s) && Run(s, []) && Final(s, []) == s;
    ReachableNext(s, Announce(0, req));
    s := Next(s, Announce(0, req));
    ReachableNext(s, Acquire(0));
    s := Next(s, Acquire(0));
  }

  /** It finds it and is about to leave. */
  lemma Watcher() returns (s: State)
    ensures s == State(map[0 := Component([], {}, None, {}, Leaving(Request(StateSet, 0, Some(1)), 0)),
                           1 := Component([], {}, Some(0), {}, Idle)], Unheld)
    ensures Reachable(s)
  {
    var req, done := Request(StateSet, 0, Some(1)), CmdComplete(StateSet, 0);
    s := Looker(req, done);
    assert FirstIndex([done], Ender(StateSet, 0)) == 0;
    assert RemoveAt([done], 0) == [];
    ReachableNext(s, Scan(0));
    s := Next(s, Scan(0));
  }

  /** Such a withdrawal does occur: the watched component fails a command just as the waiter leaves. */
  lemma FaultIsReachable(e: Event) returns (s: State)
    requires CommandError(e)
    ensures Reachable(s) && Faults(s)
  {
    s := Watcher();
    ReachableNext(s, Enter(1, e));
    s := Next(s, Enter(1, e));
    ReachableNext(s, Test(1));
    s := Next(s, Test(1));
    ReachableNext(s, Withdraw(0));
    s := Next(s, Withdraw(0));
  }

  // ---- handling without interruption ----

  /** The five steps of a handler, one after the other. */
  function Handling(c: Id, e: Event): seq<Step> {
    [Enter(c, e), Test(c), Notify(c), RaiseFlag(c), Queue(c)]
  }

  /** What they do to component `d`, when `target` is related to the component `c` that the event is for. */
  function AfterHandling(k: Component, d: Id, c: Id, target: Option<Id>, e: Event): Component {
    k.(list := if d == c then Enqueued(k.list, e, k.mask) else k.list,
       flags := k.flags + (if target == Some(d) && CommandError(e) then {EventError} else {})
                        + (if d == c then Raised(e, k.mask) else {}))
  }

  lemma HandlingTail(c: Id, e: Event)
    ensures Handling(c, e)[1..] == [Test(c), Notify(c), RaiseFlag(c), Queue(c)]
    ensures Handling(c, e)[1..][1..] == [Notify(c), RaiseFlag(c), Queue(c)]
    ensures Handling(c, e)[1..][1..][1..] == [RaiseFlag(c), Queue(c)]
  {
  }

  /** Up to the notification: the list is de-duplicated and the related component has its flag. */
  lemma HandledHalf(s: State, c: Id, e: Event)
    requires Enabled(s, Enter(c, e))
    ensures var s1 := Next(s, Enter(c, e));
      && Enabled(s1, Test(c)) && Enabled(Next(s1, Test(c)), Notify(c))
      && var s3 := Next(Next(s1, Test(c)), Notify(c));
         && s3.lock == ByHandler(c, e, Notified) && s3.comps.Keys == s.comps.Keys
         && forall d :: d in s.comps ==> s3.comps[d] == HalfHandled(s.comps[d], d, c, s.comps[c].related, e)
  {
  }

  function HalfHandled(k: Component, d: Id, c: Id, target: Option<Id>, e: Event): Component {
    k.(list := if d == c then Dedup(k.list) else k.list,
       flags := if target == Some(d) && CommandError(e) then k.flags + {EventError} else k.flags)
  }

  /** The second half: the component's own flag is raised and the event queued. */
  lemma HandledRest(s: State, c: Id, e: Event)
    requires c in s.comps && s.lock == ByHandler(c, e, Notified)
    ensures Run(s, [RaiseFlag(c), Queue(c)])
    ensures var end := Final(s, [RaiseFlag(c), Queue(c)]);
      && end.lock == Unheld && end.comps.Keys == s.comps.Keys
      && forall d :: d in s.comps ==> end.comps[d] == RestHandled(s.comps[d], d, c, e)
  {
    var steps := [RaiseFlag(c), Queue(c)];
    assert steps[1..] == [Queue(c)] && [Queue(c)][1..] == [];
    var s1 := Next(s, RaiseFlag(c));
    assert Run(Next(s1, Queue(c)), []);
    assert Final(s1, [Queue(c)]) == Next(s1, Queue(c));
  }

  function RestHandled(k: Component, d: Id, c: Id, e: Event): Component {
    if d != c then k else k.(list := IlEvents.Put(k.list, e, k.mask), flags := k.flags + Raised(e, k.mask))
  }

  lemma TwoHalves(k: Component, d: Id, c: Id, target: Option<Id>, e: Event)
    ensures RestHandled(HalfHandled(k, d, c, target, e), d, c, e) == AfterHandling(k, d, c, target, e)
  {
    assert RestHandled(HalfHandled(k, d, c, target, e), d, c, e).flags == AfterHandling(k, d, c, target, e).flags;
  }

  lemma HandledIs(s: State, c: Id, e: Event)
    requires Enabled(s, Enter(c, e))
    ensures Run(s, Handling(c, e))
    ensures var end := Final(s, Handling(c, e));
      && end.lock == Unheld && end.comps.Keys == s.comps.Keys
      && forall d :: d in s.comps ==> end.comps[d] == AfterHandling(s.comps[d], d, c, s.comps[c].related, e)
  {
    HandledHalf(s, c, e);
    HandlingTail(c, e);
    var s1 := Next(s, Enter(c, e));
    var s2 := Next(s1, Test(c));
    var s3 := Next(s2, Notify(c));
    HandledRest(s3, c, e);
    assert Run(s2, Handling(c, e)[1..][1..]) && Final(s2, Handling(c, e)[1..][1..]) == Final(s3, [RaiseFlag(c), Queue(c)]);
    assert Run(s1, Handling(c, e)[1..]) && Final(s1, Handling(c, e)[1..]) == Final(s3, [RaiseFlag(c), Queue(c)]);
    forall d | d in s.comps ensures Final(s, Handling(c, e)).comps[d] == AfterHandling(s.comps[d], d, c, s.comps[c].related, e) {
      TwoHalves(s.comps[d], d, c, s.comps[c].related, e);
    }
  }

  // ---- the lock ----

  /** Whoever holds the lock: a call announces itself and withdraws, a waiter wakes, flags are consumed and masks set. */
  lemma NoLockNeeded(s: State, c: Id, flags: set<Flag>, mask: ErrorMask)
    requires c in s.comps
    ensures Enabled(s, Consume(c, flags)) && Enabled(s, SetMask(c, mask))
    ensures s.comps[c].waiter.Leaving? ==> Enabled(s, Withdraw(c))
    ensures s.comps[c].waiter.Idle? ==>
      forall req :: Unwatched(s, req) && (req.command.StateSet? || req.command.PortDisable? || req.command.PortEnable?) ==>
        Enabled(s, Announce(c, req))
    ensures s.comps[c].waiter.Blocked? && Waitable(s.comps[c].waiter.req.command) ==>
      (Enabled(s, Wake(c)) <==> exists f :: f in s.comps[c].flags && Awaited(s.comps[c].waiter.req.command, f))
  {
    var w := s.comps[c].waiter;
    if w.Blocked? && Waitable(w.req.command) {
      forall f | f in s.comps[c].flags && Awaited(w.req.command, f) ensures Enabled(s, Wake(c)) {
        assert f in s.comps[c].flags * WaitMask(w.req.command);
      }
      if Enabled(s, Wake(c)) {
        WakeConsumes(s, c);
      }
    }
  }

  /** Only with the lock free: a waiter takes it to scan, a handler enters, events are removed and returned. */
  lemma LockNeeded(s: State, c: Id, event: Event, at: nat)
    requires c in s.comps
    ensures s.comps[c].waiter.Starting? ==> (Enabled(s, Acquire(c)) <==> s.lock.Unheld?)
    ensures Accepted(event) ==> (Enabled(s, Enter(c, event)) <==> s.lock.Unheld?)
    ensures at < |s.comps[c].list| ==> (Enabled(s, Remove(c, at)) <==> s.lock.Unheld?)
    ensures Enabled(s, ReturnAll(c)) <==> s.lock.Unheld?
  {
  }

  // ---- what a handler has decided ----

  /** Only the holder of the lock is between its scan and its unlocking. */
  ghost predicate OneHolder(s: State) {
    forall d :: d in s.comps && (s.comps[d].waiter.Holding? || s.comps[d].waiter.Missed?) ==> s.lock == ByWaiter(d)
  }

  lemma StepOneHolder(s: State, step: Step)
    requires OneHolder(s) && Enabled(s, step)
    ensures OneHolder(Next(s, step))
    ensures s.lock.ByHandler? && !OwnStep(step, s.lock.id) ==> Next(s, step).lock == s.lock
  {
  }

  predicate OwnStep(step: Step, c: Id) {
    step == Test(c) || step == Notify(c) || step == RaiseFlag(c) || step == Queue(c)
  }

  /** While others go on, the handler stays where it is. */
  lemma {:induction false} HandlerStands(s: State, steps: seq<Step>)
    requires OneHolder(s) && s.lock.ByHandler? && Run(s, steps)
    requires forall i :: 0 <= i < |steps| ==> !OwnStep(steps[i], s.lock.id)
    ensures OneHolder(Final(s, steps)) && Final(s, steps).lock == s.lock
    decreases |steps|
  {
    if steps != [] {
      StepOneHolder(s, steps[0]);
      HandlerStands(Next(s, steps[0]), steps[1..]);
    }
  }

  /**
   Whatever others do between a handler's test and its notification: it puts the error flag up on the component
   that is related then if and only if there was a related component, and a command error, when it tested.
   */
  lemma NotifiesAsTested(s: State, c: Id, between: seq<Step>)
    requires OneHolder(s) && Enabled(s, Test(c)) && Run(Next(s, Test(c)), between)
    requires forall i :: 0 <= i < |between| ==> !OwnStep(between[i], c)
    requires Enabled(Final(Next(s, Test(c)), between), Notify(c))
    ensures var e, t := s.lock.event, Final(Next(s, Test(c)), between);
      var tell, after := e.Failure? && e.data2 == 1 && s.comps[c].related.Some?, Next(t, Notify(c));
      && after.comps.Keys == t.comps.Keys
      && forall d :: d in t.comps ==>
           after.comps[d] == if tell && t.comps[c].related == Some(d) then t.comps[d].(flags := t.comps[d].flags + {EventError})
                             else t.comps[d]
  {
    StepOneHolder(s, Test(c));
    HandlerStands(Next(s, Test(c)), between);
  }

  /**
   Whatever others do between a handler's flag and its queueing, the mask included: it queues its event if and only
   if the mask did not tell to ignore it when it raised the flag.
   */
  lemma QueuesAsFlagged(s: State, c: Id, between: seq<Step>)
    requires OneHolder(s) && Enabled(s, RaiseFlag(c)) && Run(Next(s, RaiseFlag(c)), between)
    requires forall i :: 0 <= i < |between| ==> !OwnStep(between[i], c)
    requires Enabled(Final(Next(s, RaiseFlag(c)), between), Queue(c))
    ensures var e, mask, t := s.lock.event, s.comps[c].mask, Final(Next(s, RaiseFlag(c)), between);
      var after := Next(t, Queue(c));
      var ignore := e.Failure? && e.code in mask && (e.code == PortUnpopulated || e.code == SameState || e.code == BadParameter);
      && after.lock.Unheld? && after.comps.Keys == t.comps.Keys
      && (forall d :: d in t.comps && d != c ==> after.comps[d] == t.comps[d])
      && after.comps[c].flags == t.comps[c].flags
      && after.comps[c].list ==
         if ignore then t.comps[c].list else [if e.BufferFlag? then BufferFlag(e.port, 1) else e] + t.comps[c].list
  {
    StepOneHolder(s, RaiseFlag(c));
    FlagDecides(s, c);
    HandlerStands(Next(s, RaiseFlag(c)), between);
    QueueDoes(Final(Next(s, RaiseFlag(c)), between), c);
  }

  lemma FlagDecides(s: State, c: Id)
    requires Enabled(s, RaiseFlag(c))
    ensures var e, mask := s.lock.event, s.comps[c].mask;
      Next(s, RaiseFlag(c)).lock == ByHandler(c, e, Flagged(
        !(e.Failure? && e.code in mask && (e.code == PortUnpopulated || e.code == SameState || e.code == BadParameter))))
  {
  }

  lemma QueueDoes(s: State, c: Id)
    requires Enabled(s, Queue(c))
    ensures var e, after := s.lock.event, Next(s, Queue(c));
      && after.lock.Unheld? && after.comps.Keys == s.comps.Keys
      && (forall d :: d in s.comps && d != c ==> after.comps[d] == s.comps[d])
      && after.comps[c].flags == s.comps[c].flags
      && after.comps[c].list ==
         if !s.lock.stage.queue then s.comps[c].list else [if e.BufferFlag? then BufferFlag(e.port, 1) else e] + s.comps[c].list
  {
  }

  // ---- a whole wait ----

  /** Component `d` with the link that waiter `c` has set on the component it watches, or has taken back. */
  function Linked(k: Component, d: Id, req: Request, link: Option<Id>): Component {
    if req.other == Some(d) then k.(related := link) else k
  }

  /** Nothing on the component's list ends the wait, and the other component has not failed. */
  ghost predicate NothingYet(s: State, c: Id, req: Request)
    requires c in s.comps
  {
    && (forall e :: e in s.comps[c].list ==> e != CmdComplete(req.command, req.data2) && !(e.Failure? && e.data2 == 1))
    && !OtherFailed(s, req)
  }

  lemma Announces(s: State, c: Id, req: Request)
    requires Enabled(s, Announce(c, req)) && s.lock.Unheld?
    ensures var s1 := Next(s, Announce(c, req));
      && s1.lock.Unheld? && s1.comps.Keys == s.comps.Keys
      && (forall d :: d in s.comps && d != c ==> s1.comps[d] == Linked(s.comps[d], d, req, Some(c)))
      && s1.comps[c] == Linked(s.comps[c], c, req, Some(c)).(waiter := Starting(req))
  {
  }

  lemma ScansInVain(s: State, c: Id, req: Request)
    requires c in s.comps && s.comps[c].waiter == Starting(req) && s.lock.Unheld? && NothingYet(s, c, req)
    ensures Run(s, [Acquire(c), Scan(c), Release(c)])
    ensures Final(s, [Acquire(c), Scan(c), Release(c)]) == Put(s, c, s.comps[c].(waiter := Blocked(req)))
  {
    var s1 := Next(s, Acquire(c));
    assert FirstIndex(s1.comps[c].list, Ender(req.command, req.data2)) == |s1.comps[c].list|;
    var s2 := Next(s1, Scan(c));
    assert s2 == WithWaiter(s1, c, Missed(req));
    TwoSteps(s2, Release(c), []);
    TwoSteps(s1, Scan(c), [Release(c)]);
    TwoSteps(s, Acquire(c), [Scan(c), Release(c)]);
    assert [Scan(c)] + [Release(c)] == [Scan(c), Release(c)];
    assert [Acquire(c)] + [Scan(c), Release(c)] == [Acquire(c), Scan(c), Release(c)];
    assert Next(s2, Release(c)).comps == s.comps[c := s.comps[c].(waiter := Blocked(req))];
  }

  /** A call that finds nothing goes to sleep, its link set and all else as it was. */
  lemma CallSleeps(s: State, c: Id, req: Request)
    requires Enabled(s, Announce(c, req)) && s.lock.Unheld? && req.other != Some(c) && NothingYet(s, c, req)
    ensures var steps := [Announce(c, req), Acquire(c), Scan(c), Release(c)];
      && Run(s, steps)
      && var end := Final(s, steps);
         && end.lock.Unheld? && end.comps.Keys == s.comps.Keys
         && end.comps[c] == s.comps[c].(waiter := Blocked(req))
         && forall d :: d in s.comps && d != c ==> end.comps[d] == Linked(s.comps[d], d, req, Some(c))
  {
    Announces(s, c, req);
    var s1 := Next(s, Announce(c, req));
    ScansInVain(s1, c, req);
    TwoSteps(s, Announce(c, req), [Acquire(c), Scan(c), Release(c)]);
    assert [Announce(c, req)] + [Acquire(c), Scan(c), Release(c)] == [Announce(c, req), Acquire(c), Scan(c), Release(c)];
  }

  /** A woken call that finds its completion first on the list takes it, and withdraws. */
  lemma CallReturns(s: State, c: Id, req: Request, rest: seq<Event>)
    requires c in s.comps && s.comps[c].waiter == Blocked(req) && s.lock.Unheld? && req.other != Some(c) && WillWake(s, c, req)
    requires s.comps[c].list == [CmdComplete(req.command, req.data2)] + rest
    ensures var steps := [Wake(c), Acquire(c), Scan(c), Withdraw(c)];
      && Run(s, steps)
      && var end := Final(s, steps);
         && end.lock.Unheld? && end.comps.Keys == s.comps.Keys
         && end.comps[c] == s.comps[c].(list := rest, flags := s.comps[c].flags - WaitMask(req.command), waiter := Idle)
         && forall d :: d in s.comps && d != c ==> end.comps[d] == Linked(s.comps[d], d, req, None)
  {
    var s1 := Next(s, Wake(c));
    var s2 := Next(s1, Acquire(c));
    ReturnsFrom(s2, c, req, rest);
    var s3 := Next(s2, Scan(c));
    TwoSteps(s3, Withdraw(c), []);
    TwoSteps(s2, Scan(c), [Withdraw(c)]);
    TwoSteps(s1, Acquire(c), [Scan(c), Withdraw(c)]);
    TwoSteps(s, Wake(c), [Acquire(c), Scan(c), Withdraw(c)]);
    assert [Scan(c)] + [Withdraw(c)] == [Scan(c), Withdraw(c)];
    assert [Acquire(c)] + [Scan(c), Withdraw(c)] == [Acquire(c), Scan(c), Withdraw(c)];
    assert [Wake(c)] + [Acquire(c), Scan(c), Withdraw(c)] == [Wake(c), Acquire(c), Scan(c), Withdraw(c)];
  }

  lemma ReturnsFrom(s: State, c: Id, req: Request, rest: seq<Event>)
    requires c in s.comps && s.comps[c].waiter == Holding(req) && req.other != Some(c)
    requires s.comps[c].list == [CmdComplete(req.command, req.data2)] + rest
    ensures Enabled(s, Scan(c)) && Enabled(Next(s, Scan(c)), Withdraw(c))
    ensures var end := Next(Next(s, Scan(c)), Withdraw(c));
      && end.lock.Unheld? && end.comps.Keys == s.comps.Keys
      && end.comps[c] == s.comps[c].(list := rest, waiter := Idle)
      && forall d :: d in s.comps && d != c ==> end.comps[d] == Linked(s.comps[d], d, req, None)
  {
    var list := s.comps[c].list;
    assert FirstIndex(list, Ender(req.command, req.data2)) == 0;
    assert RemoveAt(list, 0) == rest;
  }

  /**
   A whole wait: the call announces itself, finds nothing and sleeps; the completion is handled; the call wakes,
   takes it and returns. Afterwards everything is as before, but for the de-duplicated list, the flags used up, and
   no link on the component watched.
   */
  lemma WholeWait(s: State, c: Id, req: Request)
    requires Enabled(s, Announce(c, req)) && s.lock.Unheld? && req.other != Some(c) && NothingYet(s, c, req)
    ensures var call, e := [Announce(c, req), Acquire(c), Scan(c), Release(c)], CmdComplete(req.command, req.data2);
      && Run(s, call) && Run(Final(s, call), Handling(c, e))
      && var back, woken := [Wake(c), Acquire(c), Scan(c), Withdraw(c)], Final(Final(s, call), Handling(c, e));
         && Run(woken, back)
         && var end := Final(woken, back);
            && end.lock.Unheld? && end.comps.Keys == s.comps.Keys
            && end.comps[c].list == Dedup(s.comps[c].list) && end.comps[c].waiter.Idle?
            && (forall f :: f in end.comps[c].flags <==> f in s.comps[c].flags && !Awaited(req.command, f))
            && (forall d :: d in s.comps && d != c ==> end.comps[d] == Linked(s.comps[d], d, req, None))
  {
    CallSleeps(s, c, req);
    var asleep := Final(s, [Announce(c, req), Acquire(c), Scan(c), Release(c)]);
    CallWoken(asleep, c, req);
    var woken := Final(asleep, Handling(c, CmdComplete(req.command, req.data2)));
    CallReturns(woken, c, req, Dedup(s.comps[c].list));
    CompletionFlags(s.comps[c].flags, req.command, req.data2, s.comps[c].mask);
  }

  /** The completion is handled while the call sleeps: it is first on the list, and its flag is up. */
  lemma CallWoken(s: State, c: Id, req: Request)
    requires c in s.comps && s.comps[c].waiter == Blocked(req) && s.lock.Unheld? && Waitable(req.command)
    ensures var e := CmdComplete(req.command, req.data2);
      && Run(s, Handling(c, e))
      && var end := Final(s, Handling(c, e));
         && end.lock.Unheld? && end.comps.Keys == s.comps.Keys && WillWake(end, c, req)
         && end.comps[c] == s.comps[c].(list := [e] + Dedup(s.comps[c].list), flags := s.comps[c].flags + Raised(e, s.comps[c].mask))
         && forall d :: d in s.comps && d != c ==> end.comps[d] == s.comps[d]
  {
    var e := CmdComplete(req.command, req.data2);
    HandledIs(s, c, e);
    var end := Final(s, Handling(c, e));
    CompletionFlags(s.comps[c].flags, req.command, req.data2, s.comps[c].mask);
    forall d | d in s.comps ensures end.comps[d] == AfterHandling(s.comps[d], d, c, s.comps[c].related, e) {
    }
    HandledCompletion(s.comps[c], c, s.comps[c].related, req);
    FlagWakes(end, c, req);
    forall d | d in s.comps && d != c ensures end.comps[d] == s.comps[d] {
      assert s.comps[d].flags + {} + {} == s.comps[d].flags;
    }
  }

  lemma HandledCompletion(k: Component, c: Id, target: Option<Id>, req: Request)
    ensures var e := CmdComplete(req.command, req.data2);
      AfterHandling(k, c, c, target, e) == k.(list := [e] + Dedup(k.list), flags := k.flags + Raised(e, k.mask))
  {
    var e := CmdComplete(req.command, req.data2);
    assert k.flags + {} + Raised(e, k.mask) == k.flags + Raised(e, k.mask);
  }

  lemma CompletionFlags(flags: set<Flag>, command: Command, data2: U32, mask: ErrorMask)
    requires Waitable(command)
    ensures var up := flags + Raised(CmdComplete(command, data2), mask);
      && WaitFlag(command) in up
      && forall f :: f in up - WaitMask(command) <==> f in flags && !Awaited(command, f)
  {
  }
}
