/**
 Waiting for a buffer: completions append to a component's list and only then raise its flag; a get that
 finds nothing for its port waits for the flag and consumes it. All ports of a direction share one list
 and one flag.
 */
module BufferWait {
  import opened Sequences
  import opened BufferQueue

  /** Where a consumer's get call stands; `carried` says that it holds a predecessor from an earlier round. */
  datatype Stage =
    | Idle
    | Looking(port: nat, block: bool, carried: bool)  // about to scan, under the lock
    | Missed(port: nat, carried: bool)                // scanned in vain; about to wait for the flag
    | Asleep(port: nat, carried: bool)                // waiting for the flag

  /** `pending` counts the completions that have appended their buffer and not yet raised the flag. */
  datatype State = State(list: seq<Buffer>, flag: bool, pending: nat, consumers: seq<Stage>)

  /** Whether a flag that is raised lets one of the sleeping calls return, or all of them; it is consumed either way. */
  datatype Policy = WakeOne | WakeAll

  datatype Step =
    | Start(c: nat, port: nat, block: bool)
    | Scan(c: nat)
    | Enter(c: nat)
    | Wake(c: nat)
    | Append(b: Buffer)
    | SetFlag

  predicate Enabled(policy: Policy, s: State, step: Step) {
    match step
    case Start(c, _, _) => c < |s.consumers| && s.consumers[c].Idle?
    case Scan(c) => c < |s.consumers| && s.consumers[c].Looking?
    case Enter(c) => c < |s.consumers| && s.consumers[c].Missed?
    case Wake(c) => policy.WakeOne? && c < |s.consumers| && s.consumers[c].Asleep? && s.flag
    case Append(b) => b !in s.list
    case SetFlag => s.pending > 0
  }

  predicate SomeAsleep(s: State) {
    exists d :: 0 <= d < |s.consumers| && s.consumers[d].Asleep?
  }

  function Awoken(k: Stage): Stage {
    if k.Asleep? then Looking(k.port, true, k.carried) else k
  }

  function AllAwoken(ks: seq<Stage>): (r: seq<Stage>)
    ensures |r| == |ks| && forall d :: 0 <= d < |r| ==> r[d] == Awoken(ks[d])
  {
    seq(|ks|, d requires 0 <= d < |ks| => Awoken(ks[d]))
  }

  function At(s: State, c: nat, k: Stage): State
    requires c < |s.consumers|
  {
    s.(consumers := s.consumers[c := k])
  }

  function AfterScan(s: State, c: nat): State
    requires c < |s.consumers| && s.consumers[c].Looking?
  {
    var k := s.consumers[c];
    if FirstOf(s.list, k.port) < |s.list| then At(s, c, Idle).(list := Left(s.list, k.port, k.carried))
    else if k.block then At(s, c, Missed(k.port, k.carried || s.list != []))
    else At(s, c, Idle)
  }

  function Next(policy: Policy, s: State, step: Step): State
    requires Enabled(policy, s, step)
  {
    match step
    case Start(c, port, block) => At(s, c, Looking(port, block, false))
    case Scan(c) => AfterScan(s, c)
    case Enter(c) =>
      var k := s.consumers[c];
      if s.flag then At(s, c, Looking(k.port, true, k.carried)).(flag := false) else At(s, c, Asleep(k.port, k.carried))
    case Wake(c) => At(s, c, Awoken(s.consumers[c])).(flag := false)
    case Append(b) => s.(list := s.list + [b], pending := s.pending + 1)
    case SetFlag =>
      if policy.WakeAll? && SomeAsleep(s) then State(s.list, false, s.pending - 1, AllAwoken(s.consumers))
      else s.(flag := true, pending := s.pending - 1)
  }

  // ---- what can go wrong ----

  predicate HasBuffer(list: seq<Buffer>, port: nat) {
    FirstOf(list, port) < |list|
  }

  /** The consumer waits, or is about to. */
  predicate Waits(s: State, d: nat) {
    d < |s.consumers| && (s.consumers[d].Missed? || s.consumers[d].Asleep?)
  }

  predicate WaitsBeside(s: State, d: nat) {
    Waits(s, d) && HasBuffer(s.list, s.consumers[d].port)
  }

  /** It waits although there is a buffer for it, and no flag is raised or about to be. */
  predicate SleepsOn(s: State, d: nat) {
    WaitsBeside(s, d) && !s.flag && s.pending == 0
  }

  ghost predicate NoneSleepsOn(s: State) {
    forall d: nat :: !SleepsOn(s, d)
  }

  /** A flag that wakes all is never left over while a call sleeps. */
  ghost predicate Sound(policy: Policy, s: State) {
    policy.WakeAll? && s.flag ==> !SomeAsleep(s)
  }

  /** Another consumer than `c` waits beside a buffer of its own. */
  ghost predicate AnotherWaits(s: State, c: nat) {
    exists d: nat :: d != c && WaitsBeside(s, d)
  }

  /**
   The step consumes the last flag there is, or will be, while a consumer that it does not wake waits beside a
   buffer of its own.
   */
  ghost predicate Steals(policy: Policy, s: State, step: Step) {
    match step
    case Enter(c) => s.flag && s.pending == 0 && AnotherWaits(s, c)
    case Wake(c) => s.pending == 0 && AnotherWaits(s, c)
    case SetFlag =>
      policy.WakeAll? && s.pending == 1 && SomeAsleep(s) && exists d: nat :: WaitsBeside(s, d) && s.consumers[d].Missed?
    case _ => false
  }

  lemma StepSound(policy: Policy, s: State, step: Step)
    requires Sound(policy, s) && Enabled(policy, s, step)
    ensures Sound(policy, Next(policy, s, step))
  {
  }

  /** A buffer for a port on what a round leaves was there before. */
  lemma LeftHas(list: seq<Buffer>, port: nat, carried: bool, other: nat)
    ensures HasBuffer(Left(list, port, carried), other) ==> HasBuffer(list, other)
  {
    LeftFrom(list, port, carried);
    var left := Left(list, port, carried);
    if HasBuffer(left, other) {
      assert left[FirstOf(left, other)] in list;
    }
  }

  lemma ScanKeeps(s: State, c: nat, d: nat)
    requires c < |s.consumers| && s.consumers[c].Looking? && !SleepsOn(s, d)
    ensures !SleepsOn(AfterScan(s, c), d)
  {
    var k := s.consumers[c];
    if d < |s.consumers| && d != c && Waits(s, d) {
      LeftHas(s.list, k.port, k.carried, s.consumers[d].port);
    }
  }

  /** The exception, step by step: a consumer comes to sleep on exactly by such a step. */
  lemma StepKeeps(policy: Policy, s: State, step: Step)
    requires NoneSleepsOn(s) && Enabled(policy, s, step)
    ensures NoneSleepsOn(Next(policy, s, step)) <==> !Steals(policy, s, step)
  {
    var s' := Next(policy, s, step);
    match step
    case Start(c, port, block) =>
      forall d: nat ensures !SleepsOn(s', d) {
        assert !SleepsOn(s, d);
      }
    case Scan(c) =>
      forall d: nat ensures !SleepsOn(s', d) {
        ScanKeeps(s, c, d);
      }
    case Enter(c) =>
      EnterKeeps(policy, s, c);
    case Wake(c) =>
      assert forall d: nat :: SleepsOn(s', d) <==> d != c && WaitsBeside(s, d) && s.pending == 0;
    case Append(b) =>
    case SetFlag =>
      SetFlagKeeps(policy, s);
  }

  lemma EnterKeeps(policy: Policy, s: State, c: nat)
    requires NoneSleepsOn(s) && Enabled(policy, s, Enter(c))
    ensures NoneSleepsOn(Next(policy, s, Enter(c))) <==> !Steals(policy, s, Enter(c))
  {
    var s' := Next(policy, s, Enter(c));
    if s.flag {
      assert forall d: nat :: SleepsOn(s', d) <==> d != c && WaitsBeside(s, d) && s.pending == 0;
    } else {
      assert forall d: nat :: SleepsOn(s', d) <==> SleepsOn(s, d);
    }
  }

  lemma SetFlagKeeps(policy: Policy, s: State)
    requires Enabled(policy, s, SetFlag)
    ensures NoneSleepsOn(Next(policy, s, SetFlag)) <==> !Steals(policy, s, SetFlag)
  {
    var s' := Next(policy, s, SetFlag);
    if policy.WakeAll? && SomeAsleep(s) {
      assert forall d: nat :: SleepsOn(s', d) <==> WaitsBeside(s, d) && s.consumers[d].Missed? && s.pending == 1;
    }
  }

  // ---- runs ----

  predicate Run(policy: Policy, s: State, steps: seq<Step>)
    decreases |steps|
  {
    steps == [] || (Enabled(policy, s, steps[0]) && Run(policy, Next(policy, s, steps[0]), steps[1..]))
  }

  function Final(policy: Policy, s: State, steps: seq<Step>): State
    requires Run(policy, s, steps)
    decreases |steps|
  {
    if steps == [] then s else Final(policy, Next(policy, s, steps[0]), steps[1..])
  }

  /** At some point of the run a consumer sleeps on. */
  ghost predicate EverSleepsOn(policy: Policy, s: State, steps: seq<Step>)
    requires Run(policy, s, steps)
    decreases |steps|
  {
    !NoneSleepsOn(s) || (steps != [] && EverSleepsOn(policy, Next(policy, s, steps[0]), steps[1..]))
  }

  ghost predicate EverSteals(policy: Policy, s: State, steps: seq<Step>)
    requires Run(policy, s, steps)
    decreases |steps|
  {
    steps != [] && (Steals(policy, s, steps[0]) || EverSteals(policy, Next(policy, s, steps[0]), steps[1..]))
  }

  /** Over whole runs: a consumer sleeps beside its buffer if and only if a flag has been stolen. */
  lemma {:induction false} SleepsExactlyWhenStolen(policy: Policy, s: State, steps: seq<Step>)
    requires NoneSleepsOn(s) && Run(policy, s, steps)
    ensures EverSleepsOn(policy, s, steps) <==> EverSteals(policy, s, steps)
    decreases |steps|
  {
    if steps != [] {
      var s' := Next(policy, s, steps[0]);
      StepKeeps(policy, s, steps[0]);
      if Steals(policy, s, steps[0]) {
        assert EverSleepsOn(policy, s', steps[1..]);
      } else {
        SleepsExactlyWhenStolen(policy, s', steps[1..]);
      }
    }
  }

  /** One consumer has nobody to steal from. */
  lemma {:induction false} OneConsumerSteals(policy: Policy, s: State, steps: seq<Step>)
    requires |s.consumers| == 1 && Run(policy, s, steps)
    ensures !EverSteals(policy, s, steps)
    decreases |steps|
  {
    if steps != [] {
      OneConsumerSteals(policy, Next(policy, s, steps[0]), steps[1..]);
    }
  }

  /** So with one consumer, whatever ports it asks for, no buffer is ever slept through. */
  lemma OneConsumerNeverSleepsOn(policy: Policy, s: State, steps: seq<Step>)
    requires |s.consumers| == 1 && NoneSleepsOn(s) && Run(policy, s, steps)
    ensures !EverSleepsOn(policy, s, steps) && NoneSleepsOn(Final(policy, s, steps))
  {
    OneConsumerSteals(policy, s, steps);
    SleepsExactlyWhenStolen(policy, s, steps);
    EndsAwake(policy, s, steps);
  }

  lemma {:induction false} EndsAwake(policy: Policy, s: State, steps: seq<Step>)
    requires Run(policy, s, steps)
    ensures !EverSleepsOn(policy, s, steps) ==> NoneSleepsOn(Final(policy, s, steps))
    decreases |steps|
  {
    if steps != [] {
      EndsAwake(policy, Next(policy, s, steps[0]), steps[1..]);
    }
  }

  /** A waiting consumer whose flag is raised returns to the list, and takes a buffer of its port if there is one. */
  lemma FlaggedConsumerTakes(policy: Policy, s: State, d: nat)
    requires Sound(policy, s) && WaitsBeside(s, d) && s.flag
    ensures var step := if s.consumers[d].Missed? then Enter(d) else Wake(d);
      && Enabled(policy, s, step) && Enabled(policy, Next(policy, s, step), Scan(d))
      && var s' := Next(policy, Next(policy, s, step), Scan(d));
         s'.consumers[d].Idle? && s'.list == Left(s.list, s.consumers[d].port, s.consumers[d].carried)
  {
    assert s.consumers[d].Asleep? ==> SomeAsleep(s);
  }

  /**
   A completion may come at any time, with others on their way. It appends its buffer and then raises the flag: that
   wakes all sleepers and is used up, where it wakes all and somebody sleeps; else it stays up.
   */
  lemma CompletionArrives(policy: Policy, s: State, b: Buffer)
    requires b !in s.list
    ensures Enabled(policy, s, Append(b)) && Enabled(policy, Next(policy, s, Append(b)), SetFlag)
    ensures var appended := Next(policy, s, Append(b));
      var s' := Next(policy, appended, SetFlag);
      && appended == State(s.list + [b], s.flag, s.pending + 1, s.consumers)
      && s'.list == s.list + [b] && s'.pending == s.pending && |s'.consumers| == |s.consumers|
      && if policy.WakeAll? && exists d :: 0 <= d < |s.consumers| && s.consumers[d].Asleep? then
           && !s'.flag
           && forall d :: 0 <= d < |s.consumers| ==>
                s'.consumers[d] == var k := s.consumers[d]; if k.Asleep? then Looking(k.port, true, k.carried) else k
         else s'.flag && s'.consumers == s.consumers
  {
    var appended := Next(policy, s, Append(b));
    assert appended.consumers == s.consumers;
    assert SomeAsleep(appended) <==> exists d :: 0 <= d < |s.consumers| && s.consumers[d].Asleep?;
  }

  function Appended(steps: seq<Step>): nat {
    if steps == [] then 0 else (if steps[0].Append? then 1 else 0) + Appended(steps[1..])
  }

  function FlagsRaised(steps: seq<Step>): nat {
    if steps == [] then 0 else (if steps[0].SetFlag? then 1 else 0) + FlagsRaised(steps[1..])
  }

  /** Every completion raises the flag once. */
  lemma {:induction false} EachRaisesOnce(policy: Policy, s: State, steps: seq<Step>)
    requires Run(policy, s, steps)
    ensures Final(policy, s, steps).pending + FlagsRaised(steps) == s.pending + Appended(steps)
    decreases |steps|
  {
    if steps != [] {
      EachRaisesOnce(policy, Next(policy, s, steps[0]), steps[1..]);
    }
  }

  /**
   A new call looks once, with no predecessor from before: it takes the first buffer of its port off the list and
   returns; without one it returns empty-handed, or goes on to wait if it is to block.
   */
  lemma NewCallLooks(policy: Policy, s: State, c: nat, port: nat, block: bool)
    requires Enabled(policy, s, Start(c, port, block))
    ensures var s1 := Next(policy, s, Start(c, port, block));
      && Enabled(policy, s1, Scan(c))
      && var s' := Next(policy, s1, Scan(c));
         && s'.flag == s.flag && s'.pending == s.pending
         && if forall b :: b in s.list ==> b.port != port then
              s'.list == s.list && s'.consumers == s.consumers[c := if block then Missed(port, s.list != []) else Idle]
            else
              && s'.consumers == s.consumers
              && exists i :: 0 <= i < |s.list| && s.list[i].port == port && (forall j :: 0 <= j < i ==> s.list[j].port != port)
                             && s'.list == s.list[..i] + s.list[i + 1..]
  {
    var i := FirstOf(s.list, port);
    assert i < |s.list| ==> s.list[i] in s.list;
    assert s.consumers[c := Idle] == s.consumers;
  }

  /**
   A call that finds the flag up, before it sleeps or in its sleep, uses it up and looks for its port again, with the
   predecessor it carried; without the flag it sleeps with it. Nothing else changes.
   */
  lemma WaitingCarriesOn(policy: Policy, s: State, d: nat)
    requires Waits(s, d)
    ensures var k, step := s.consumers[d], if s.consumers[d].Missed? then Enter(d) else Wake(d);
      Enabled(policy, s, step) ==>
        var s' := Next(policy, s, step);
        && s'.list == s.list && !s'.flag && s'.pending == s.pending
        && s'.consumers == s.consumers[d := if s.flag then Looking(k.port, true, k.carried) else Asleep(k.port, k.carried)]
  {
  }

  /** A round on the linked list is the scan step: same list afterwards, and the predecessor carried exactly when the step says. */
  method RoundIsScan(policy: Policy, k: Component, port: nat, block: bool, stale: Buffer?, ghost s: State, ghost c: nat)
      returns (ret: Buffer?, prev: Buffer?)
    requires k.Valid() && s.list == k.queue && c < |s.consumers| && s.consumers[c] == Looking(port, block, stale != null)
    modifies k, k.queue, stale
    ensures k.Valid() && Enabled(policy, s, Scan(c))
    ensures var s' := Next(policy, s, Scan(c));
      && s'.list == k.queue && s'.flag == s.flag && s'.pending == s.pending
      && s'.consumers == s.consumers[c := if ret == null && block then Missed(port, prev != null) else Idle]
      && (ret != null <==> exists b :: b in s.list && b.port == port)
  {
    ghost var q, i := k.queue, FirstOf(k.queue, port);
    assert i < |q| ==> q[i] in q;
    ret, prev := k.Round(port, stale);
  }

  predicate NoArrival(steps: seq<Step>) {
    forall i :: 0 <= i < |steps| ==> !steps[i].Append?
  }

  /** A consumer that sleeps on does so, whatever the others do, until another completion arrives. */
  lemma {:induction false} StaysAsleep(policy: Policy, s: State, d: nat, steps: seq<Step>)
    requires Waits(s, d) && !s.flag && s.pending == 0 && Run(policy, s, steps) && NoArrival(steps)
    ensures var s' := Final(policy, s, steps); Waits(s', d) && !s'.flag && s'.pending == 0
    decreases |steps|
  {
    if steps != [] {
      StaysAsleep(policy, Next(policy, s, steps[0]), d, steps[1..]);
    }
  }

  // ---- one consumer for each port ----

  /** Two consumers, nothing on the list, no flag, and no call. */
  const QUIET := State([], false, 0, [Idle, Idle])

  predicate Leads(policy: Policy, steps: seq<Step>, s: State) {
    Run(policy, QUIET, steps) && Final(policy, QUIET, steps) == s
  }

  lemma {:induction false} RunSnoc(policy: Policy, s: State, steps: seq<Step>, step: Step)
    requires Run(policy, s, steps) && Enabled(policy, Final(policy, s, steps), step)
    ensures Run(policy, s, steps + [step])
    ensures Final(policy, s, steps + [step]) == Next(policy, Final(policy, s, steps), step)
    decreases |steps|
  {
    var all := steps + [step];
    if steps == [] {
      assert all[1..] == [];
    } else {
      RunSnoc(policy, Next(policy, s, steps[0]), steps[1..], step);
      assert all[1..] == steps[1..] + [step];
    }
  }

  lemma Onward(policy: Policy, steps: seq<Step>, s: State, step: Step) returns (steps': seq<Step>)
    requires Leads(policy, steps, s) && Enabled(policy, s, step)
    ensures Leads(policy, steps', Next(policy, s, step))
  {
    RunSnoc(policy, QUIET, steps, step);
    steps' := steps + [step];
  }

  /** Consumer 1 sleeps for a buffer of port 2, and consumer 0 has looked in vain for one of port 1. */
  lemma BothFindNothing(policy: Policy) returns (steps: seq<Step>)
    ensures Leads(policy, steps, State([], false, 0, [Missed(1, false), Asleep(2, false)]))
  {
    steps := Onward(policy, [], QUIET, Start(1, 2, true));
    steps := Onward(policy, steps, State([], false, 0, [Idle, Looking(2, true, false)]), Scan(1));
    steps := Onward(policy, steps, State([], false, 0, [Idle, Missed(2, false)]), Enter(1));
    steps := Onward(policy, steps, State([], false, 0, [Idle, Asleep(2, false)]), Start(0, 1, true));
    steps := Onward(policy, steps, State([], false, 0, [Looking(1, true, false), Asleep(2, false)]), Scan(0));
  }

  /** A buffer of port 1 arrives before consumer 0 waits, and the sleeper for port 2 consumes the flag. */
  lemma OtherTakesFlag(policy: Policy, b: Buffer) returns (steps: seq<Step>)
    requires b.port == 1
    ensures Leads(policy, steps, State([b], false, 0, [Missed(1, false), Looking(2, true, false)]))
  {
    steps := BothFindNothing(policy);
    steps := Onward(policy, steps, State([], false, 0, [Missed(1, false), Asleep(2, false)]), Append(b));
    assert [] + [b] == [b];
    var s := State([b], false, 1, [Missed(1, false), Asleep(2, false)]);
    assert s.consumers[1].Asleep?;
    steps := Onward(policy, steps, s, SetFlag);
    if policy.WakeOne? {
      steps := Onward(policy, steps, State([b], true, 0, [Missed(1, false), Asleep(2, false)]), Wake(1));
    } else {
      assert AllAwoken(s.consumers) == [Missed(1, false), Looking(2, true, false)];
    }
  }

  /** Then consumer 0 goes to sleep beside its buffer, whatever the policy. */
  lemma FlagTakenByTheOther(policy: Policy, b: Buffer) returns (steps: seq<Step>)
    requires b.port == 1
    ensures NoneSleepsOn(QUIET) && Run(policy, QUIET, steps)
    ensures var s := Final(policy, QUIET, steps);
      s == State([b], false, 0, [Asleep(1, false), Looking(2, true, false)]) && SleepsOn(s, 0)
  {
    steps := OtherTakesFlag(policy, b);
    steps := Onward(policy, steps, State([b], false, 0, [Missed(1, false), Looking(2, true, false)]), Enter(0));
  }
}
