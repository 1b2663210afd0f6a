/**
 The events of the OpenMAX IL client, what the handler does with each of them, and the list
 operations its callers perform. Nothing here knows about nodes, locks or threads.
 */
module IlEvents {
  import opened Bytes
  import opened Sequences

  datatype Command = StateSet | PortDisable | PortEnable | Flush | MarkBuffer

  datatype ErrorCode =
    | PortUnpopulated | SameState | BadParameter
    | IncorrectStateTransition | BadPortIndex | StreamCorrupt | InsufficientResources
    | UnsupportedSetting | Overflow | DiskFull | MaxFileSize
    | DrmUnauthorised | DrmExpired | DrmGeneral

  /** `Unused` is the mark on a spare node. */
  datatype Event =
    | CmdComplete(command: Command, data2: U32)
    | Failure(code: ErrorCode, data2: U32)
    | BufferFlag(port: U32, data2: U32)
    | PortSettingsChanged(data1: U32, data2: U32)
    | BufferMark(data1: U32, data2: U32)
    | ParamOrConfigChanged(data1: U32, data2: U32)
    | Unused

  datatype Flag =
    | StateChanged | PortDisabled | PortEnabled | PortFlush | MarkedBuffer | EventError
    | BufferFlagEos | ParameterChanged | BufferMarkFlag | ConfigChanged

  /** The errors a component can be told to ignore: its error mask. */
  type ErrorMask = set<ErrorCode>

  const MASKABLE: set<ErrorCode> := {PortUnpopulated, SameState, BadParameter}
  const EOS: U32 := 1

  /** The events the handler accepts; it asserts on every other. */
  predicate Accepted(e: Event) {
    !e.Unused? && (e.BufferFlag? ==> e.data2 % 2 == 1)
  }

  /** Of the buffer flags those that end a stream: the lowest bit is set. */
  lemma AcceptedFlags(port: U32, half: nat, bit: nat)
    requires bit < 2 && 2 * half + bit < TWO_32
    ensures Accepted(BufferFlag(port, 2 * half + bit)) <==> bit == 1
    ensures forall e: Event :: !e.BufferFlag? && !e.Unused? ==> Accepted(e)
    ensures !Accepted(Unused)
  {
  }

  /** The handler keeps only the end-of-stream bit of a buffer flag. */
  function Stored(e: Event): Event {
    if e.BufferFlag? then BufferFlag(e.port, EOS) else e
  }

  predicate Ignored(e: Event, mask: ErrorMask) {
    e.Failure? && e.code in MASKABLE && e.code in mask
  }

  /** The errors that are queued without any flag being raised. */
  predicate Silent(e: Event) {
    e.Failure? && (e.code == DiskFull || e.code == MaxFileSize)
  }

  /** An error that says a command failed. */
  predicate CommandError(e: Event) {
    e.Failure? && e.data2 == 1
  }

  /** The flags the handler raises on the component itself. */
  function Raised(e: Event, mask: ErrorMask): set<Flag> {
    match e
    case CmdComplete(StateSet, _) => {StateChanged}
    case CmdComplete(PortDisable, _) => {PortDisabled}
    case CmdComplete(PortEnable, _) => {PortEnabled}
    case CmdComplete(Flush, _) => {PortFlush}
    case CmdComplete(MarkBuffer, _) => {MarkedBuffer}
    case Failure(_, _) => if Ignored(e, mask) || Silent(e) then {} else {EventError}
    case BufferFlag(_, _) => {BufferFlagEos}
    case PortSettingsChanged(_, _) => {ParameterChanged}
    case BufferMark(_, _) => {BufferMarkFlag}
    case ParamOrConfigChanged(_, _) => {ConfigChanged}
    case Unused => {}
  }

  // ---- de-duplication ----

  function Without(s: seq<Event>, e: Event): (r: seq<Event>)
    ensures |r| <= |s|
    ensures e !in r
    ensures forall x :: x in r ==> x in s
    ensures forall x :: x in s && x != e ==> x in r
  {
    if s == [] then []
    else if s[0] == e then Without(s[1..], e)
    else [s[0]] + Without(s[1..], e)
  }

  /** Keep the first of every group of equal events. */
  function Dedup(s: seq<Event>): (r: seq<Event>)
    ensures |r| <= |s|
    ensures forall x :: x in r <==> x in s
    ensures Distinct(r)
    decreases |s|
  {
    if s == [] then [] else [s[0]] + Dedup(Without(s[1..], s[0]))
  }

  lemma {:induction false} WithoutSnoc(s: seq<Event>, x: Event, e: Event)
    ensures Without(s + [x], e) == Without(s, e) + (if x == e then [] else [x])
  {
    if s != [] {
      WithoutSnoc(s[1..], x, e);
      assert (s + [x])[1..] == s[1..] + [x];
    }
  }

  lemma DedupCons(h: Event, t: seq<Event>)
    ensures Dedup([h] + t) == [h] + Dedup(Without(t, h))
  {
    assert ([h] + t)[1..] == t;
  }

  /** Of equal events the first is kept, and all in order: a later event is added, at the end, only if it is new. */
  lemma {:induction false} DedupSnoc(s: seq<Event>, x: Event)
    ensures Dedup(s + [x]) == if x in s then Dedup(s) else Dedup(s) + [x]
    decreases |s|
  {
    if s == [] {
      DedupCons(x, []);
      assert [] + [x] == [x] + [];
    } else {
      var h, t := s[0], s[1..];
      var rest := Without(t, h);
      assert s == [h] + t && s + [x] == [h] + (t + [x]);
      DedupCons(h, t);
      DedupCons(h, t + [x]);
      WithoutSnoc(t, x, h);
      if x == h {
        assert rest + [] == rest;
      } else {
        DedupSnoc(rest, x);
        assert [h] + (Dedup(rest) + [x]) == [h] + Dedup(rest) + [x];
      }
    }
  }

  /** An event that is not to be ignored goes to the front. */
  function Put(s: seq<Event>, e: Event, mask: ErrorMask): seq<Event> {
    if Ignored(e, mask) then s else [Stored(e)] + s
  }

  /** What the handler leaves on the component's list. */
  function Enqueued(s: seq<Event>, e: Event, mask: ErrorMask): seq<Event> {
    Put(Dedup(s), e, mask)
  }

  // ---- searching ----

  /** The first position that satisfies `p`, or the length. */
  function FirstIndex(s: seq<Event>, p: Event -> bool): (i: nat)
    ensures i <= |s|
    ensures i < |s| ==> p(s[i])
    ensures forall j :: 0 <= j < i ==> !p(s[j])
  {
    if s == [] then 0 else if p(s[0]) then 0 else 1 + FirstIndex(s[1..], p)
  }

  // ---- what a command wait looks for ----

  predicate Completes(e: Event, command: Command, data2: U32) {
    e == CmdComplete(command, data2)
  }

  /** Scanning stops at a matching completion or at any command error. */
  predicate Ends(e: Event, command: Command, data2: U32) {
    Completes(e, command, data2) || CommandError(e)
  }

  function Ender(command: Command, data2: U32): Event -> bool {
    e => Ends(e, command, data2)
  }

  function ErrorFinder(): Event -> bool {
    e => CommandError(e)
  }

  /** The wait's answer for the event it stopped at. */
  function Verdict(e: Event): int {
    if e.CmdComplete? || (e.Failure? && e.code == SameState) then 0 else -1
  }

  /**
   What one locked scan makes of the queues and of the flags of component `c`: it takes the first event that
   ends the wait; without one it changes nothing, and is done only when the other component has failed.
   */
  ghost predicate ScanOutcome(qs: seq<seq<Event>>, flags: set<Flag>, c: nat, command: Command, data2: U32, other: Option<nat>,
                              done: bool, ret: int, qs': seq<seq<Event>>, flags': set<Flag>)
    requires c < |qs|
  {
    var q, i := qs[c], FirstIndex(qs[c], Ender(command, data2));
    if i < |q| then
      && done && ret == Verdict(q[i]) && qs' == qs[c := RemoveAt(q, i)]
      && flags' == flags - (if q[i].Failure? then {EventError} else {})
    else
      && qs' == qs && flags' == flags && (done ==> ret == -2)
      && (done <==> other.Some? && other.value < |qs| && exists e :: e in qs[other.value] && CommandError(e))
  }

  /** The commands that can be waited for. */
  predicate Waitable(command: Command) {
    command.StateSet? || command.PortDisable? || command.PortEnable?
  }

  function WaitMask(command: Command): set<Flag>
    requires Waitable(command)
  {
    {EventError, WaitFlag(command)}
  }

  function WaitFlag(command: Command): Flag
    requires Waitable(command)
  {
    if command.StateSet? then StateChanged else if command.PortDisable? then PortDisabled else PortEnabled
  }

  /** A completion raises a flag that a wait for its command is blocked on, and one that no other wait is. */
  lemma CompletionWakesItsWait(command: Command, data2: U32, waited: Command, mask: ErrorMask)
    requires Waitable(command) && Waitable(waited)
    ensures Raised(CmdComplete(command, data2), mask) * WaitMask(waited) != {} <==> waited == command
  {
    var raised := Raised(CmdComplete(command, data2), mask);
    if waited == command {
      assert WaitFlag(command) in raised * WaitMask(waited);
    } else {
      assert raised * WaitMask(waited) == {};
    }
  }

  // ---- what a caller may ask to be removed ----

  /** An event to look for; either datum can be left out of the comparison. */
  datatype Pattern = Pattern(sample: Event, ignore1: bool, ignore2: bool)

  predicate Matches(e: Event, p: Pattern) {
    match (e, p.sample)
    case (CmdComplete(a, x), CmdComplete(b, y)) => (p.ignore1 || a == b) && (p.ignore2 || x == y)
    case (Failure(a, x), Failure(b, y)) => (p.ignore1 || a == b) && (p.ignore2 || x == y)
    case (BufferFlag(a, x), BufferFlag(b, y)) => (p.ignore1 || a == b) && (p.ignore2 || x == y)
    case (PortSettingsChanged(a, x), PortSettingsChanged(b, y)) => (p.ignore1 || a == b) && (p.ignore2 || x == y)
    case (BufferMark(a, x), BufferMark(b, y)) => (p.ignore1 || a == b) && (p.ignore2 || x == y)
    case (ParamOrConfigChanged(a, x), ParamOrConfigChanged(b, y)) => (p.ignore1 || a == b) && (p.ignore2 || x == y)
    case _ => false
  }

  function Matcher(p: Pattern): Event -> bool {
    e => Matches(e, p)
  }

  /** The flags cleared when an event of this kind is removed on request. */
  function Cleared(p: Pattern): set<Flag> {
    if p.sample.Failure? then {EventError}
    else if p.sample.ParamOrConfigChanged? then {ConfigChanged}
    else {}
  }

  /** A removal matches events of its own kind only, and of those by each datum that it does not ignore. */
  lemma MatchesByData(a: U32, b: U32, x: U32, y: U32, i1: bool, i2: bool)
    ensures Matches(BufferFlag(a, x), Pattern(BufferFlag(b, y), i1, i2)) <==> (i1 || a == b) && (i2 || x == y)
    ensures Matches(PortSettingsChanged(a, x), Pattern(PortSettingsChanged(b, y), i1, i2)) <==> (i1 || a == b) && (i2 || x == y)
    ensures Matches(BufferMark(a, x), Pattern(BufferMark(b, y), i1, i2)) <==> (i1 || a == b) && (i2 || x == y)
    ensures Matches(ParamOrConfigChanged(a, x), Pattern(ParamOrConfigChanged(b, y), i1, i2)) <==> (i1 || a == b) && (i2 || x == y)
    ensures forall c, d :: Matches(CmdComplete(c, x), Pattern(CmdComplete(d, y), i1, i2)) <==> (i1 || c == d) && (i2 || x == y)
    ensures forall c, d :: Matches(Failure(c, x), Pattern(Failure(d, y), i1, i2)) <==> (i1 || c == d) && (i2 || x == y)
  {
  }

  predicate SameKind(e: Event, f: Event) {
    || (e.CmdComplete? && f.CmdComplete?) || (e.Failure? && f.Failure?) || (e.BufferFlag? && f.BufferFlag?)
    || (e.PortSettingsChanged? && f.PortSettingsChanged?) || (e.BufferMark? && f.BufferMark?)
    || (e.ParamOrConfigChanged? && f.ParamOrConfigChanged?)
  }

  lemma MatchesItsKind(e: Event, p: Pattern)
    ensures Matches(e, p) ==> SameKind(e, p.sample)
    ensures SameKind(e, p.sample) && p.ignore1 && p.ignore2 ==> Matches(e, p)
  {
  }

  /** Removing an event clears just the flag that its arrival raised, if that tells of an error or a changed configuration. */
  lemma RemovalClearsWhatArrivalRaised(e: Event, p: Pattern, mask: ErrorMask)
    requires Matches(e, p)
    ensures Cleared(p) == if e.Failure? then {EventError} else if e.ParamOrConfigChanged? then {ConfigChanged} else {}
    ensures e.ParamOrConfigChanged? ==> Raised(e, mask) == Cleared(p)
    ensures e.Failure? ==> Raised(e, mask) <= Cleared(p)
    ensures e.Failure? ==>
      (Raised(e, mask) == {} <==>
         e.code == DiskFull || e.code == MaxFileSize
         || (e.code in mask && (e.code == PortUnpopulated || e.code == SameState || e.code == BadParameter)))
  {
  }

  /** The removal that ignores the code and asks for 1 takes the first command error, whatever its code. */
  lemma {:induction false} RemovalOfAnyCommandError(s: seq<Event>, code: ErrorCode)
    ensures var i := FirstIndex(s, Matcher(Pattern(Failure(code, 1), true, false)));
      && (forall j :: 0 <= j < i ==> !(s[j].Failure? && s[j].data2 == 1))
      && (i < |s| ==> s[i].Failure? && s[i].data2 == 1)
  {
    var p := Pattern(Failure(code, 1), true, false);
    forall e: Event ensures Matches(e, p) <==> e.Failure? && e.data2 == 1 {
    }
  }

  /** What ends a wait: the completion of the command with that datum, or any error with datum 1. 0 is the good end. */
  lemma EndsAndVerdict(e: Event, command: Command, data2: U32)
    ensures Ends(e, command, data2) <==> e == CmdComplete(command, data2) || (e.Failure? && e.data2 == 1)
    ensures Ends(e, command, data2) ==> Verdict(e) == if e.Failure? && e.code != SameState then -1 else 0
  {
  }
}
