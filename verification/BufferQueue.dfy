/**
 The buffer lists of an IL component: completion callbacks append, the get functions take the first
 buffer of a port out of the middle. Several ports share one list linked through the buffers.
 The input and the output list work alike, so one class models both.
 */
module BufferQueue {
  import opened Sequences

  class Buffer {
    const port: nat
    var appPrivate: Buffer?

    constructor (port: nat)
      ensures this.port == port && appPrivate == null
    {
      this.port, appPrivate := port, null;
    }
  }

  function After(s: seq<Buffer>, i: nat): Buffer? {
    if i + 1 < |s| then s[i + 1] else null
  }

  /** The list from `head` is exactly `s`. */
  ghost predicate Chain(head: Buffer?, s: seq<Buffer>)
    reads s
  {
    && head == (if s == [] then null else s[0])
    && forall i :: 0 <= i < |s| ==> s[i].appPrivate == After(s, i)
  }

  // ---- the queues that the list stands for ----

  /** The buffers of one port, oldest first. */
  function PortQueue(s: seq<Buffer>, port: nat): seq<Buffer> {
    if s == [] then []
    else (if s[0].port == port then [s[0]] else []) + PortQueue(s[1..], port)
  }

  /** The position of the oldest buffer of a port, or the length. */
  function FirstOf(s: seq<Buffer>, port: nat): (i: nat)
    ensures i <= |s|
    ensures i < |s| ==> s[i].port == port
    ensures forall j :: 0 <= j < i ==> s[j].port != port
  {
    if s == [] then 0 else if s[0].port == port then 0 else 1 + FirstOf(s[1..], port)
  }

  /** A completion enqueues on its own port's queue and on no other. */
  lemma {:induction false} AppendEnqueues(s: seq<Buffer>, b: Buffer, port: nat)
    ensures PortQueue(s + [b], port) == PortQueue(s, port) + (if b.port == port then [b] else [])
  {
    if s == [] {
      assert [] + [b] == [b] && [b][1..] == [];
    } else {
      AppendEnqueues(s[1..], b, port);
      assert (s + [b])[1..] == s[1..] + [b];
    }
  }

  lemma SkipOther(s: seq<Buffer>, port: nat)
    requires s != [] && s[0].port != port
    ensures PortQueue(s, port) == PortQueue(s[1..], port)
  {
  }

  lemma RemoveFromTail(s: seq<Buffer>, i: nat)
    requires 0 < i < |s|
    ensures RemoveAt(s, i) != [] && RemoveAt(s, i)[0] == s[0]
    ensures RemoveAt(s, i)[1..] == RemoveAt(s[1..], i - 1)
  {
  }

  /** Taking the first buffer of a port dequeues from that port's queue. */
  lemma {:induction false} TakeDequeues(s: seq<Buffer>, port: nat)
    requires FirstOf(s, port) < |s|
    ensures PortQueue(s, port) == [s[FirstOf(s, port)]] + PortQueue(RemoveAt(s, FirstOf(s, port)), port)
  {
    var i := FirstOf(s, port);
    if i == 0 {
      assert RemoveAt(s, 0) == s[1..];
    } else {
      TakeDequeues(s[1..], port);
      RemoveFromTail(s, i);
      SkipOther(s, port);
      SkipOther(RemoveAt(s, i), port);
    }
  }

  /** It touches no other port's queue. */
  lemma {:induction false} TakeKeepsOthers(s: seq<Buffer>, i: nat, other: nat)
    requires i < |s| && s[i].port != other
    ensures PortQueue(RemoveAt(s, i), other) == PortQueue(s, other)
  {
    if i == 0 {
      assert RemoveAt(s, 0) == s[1..];
    } else {
      TakeKeepsOthers(s[1..], i - 1, other);
      RemoveFromTail(s, i);
    }
  }

  lemma {:induction false} EmptyQueue(s: seq<Buffer>, port: nat)
    ensures PortQueue(s, port) == [] <==> FirstOf(s, port) == |s|
  {
    if s != [] {
      EmptyQueue(s[1..], port);
    }
  }

  class Component {
    var list: Buffer?
    ghost var queue: seq<Buffer>

    ghost predicate Valid()
      reads this, queue
    {
      Chain(list, queue) && Distinct(queue)
    }

    constructor ()
      ensures Valid() && queue == []
    {
      list, queue := null, [];
    }

    /** The completion callback: walk to the end and append. */
    method Done(b: Buffer)
      requires Valid() && b !in queue
      modifies this, b, queue
      ensures Valid() && queue == old(queue) + [b]
    {
      ghost var i := 0;
      var last := list;
      while last != null && last.appPrivate != null
        invariant i <= |queue| && (last == if i < |queue| then queue[i] else null)
        invariant i < |queue| || queue == []
        decreases |queue| - i
      {
        last, i := last.appPrivate, i + 1;
      }
      if last == null {
        list := b;
      } else {
        last.appPrivate := b;
      }
      b.appPrivate := null;
      queue := queue + [b];
    }

    /** The scan of one round, from the head; `prev` is only replaced when something is stepped over. */
    method Scan(port: nat, stale: Buffer?) returns (ret: Buffer?, prev: Buffer?)
      requires Valid()
      ensures var i := FirstOf(queue, port);
        && ret == (if i < |queue| then queue[i] else null)
        && prev == (if i == 0 then stale else queue[i - 1])
    {
      ghost var i := 0;
      ret, prev := list, stale;
      while ret != null && ret.port != port
        invariant i <= |queue| && (ret == if i < |queue| then queue[i] else null)
        invariant prev == if i == 0 then stale else queue[i - 1]
        invariant forall j :: 0 <= j < i ==> queue[j].port != port
        decreases |queue| - i
      {
        prev, ret, i := ret, ret.appPrivate, i + 1;
      }
      FirstOfIs(queue, port, i);
    }

    /**
     One round of a get, with the predecessor left over from the round before. It dequeues the port's
     oldest buffer unless that is at the head while a predecessor is carried: then the buffer it returns
     stays on the list and all the others fall off it.
     */
    method Round(port: nat, stale: Buffer?) returns (ret: Buffer?, prev: Buffer?)
      requires Valid()
      modifies this, queue, stale
      ensures Valid() && queue == Left(old(queue), port, stale != null)
      ensures var q, i := old(queue), FirstOf(old(queue), port);
        if i == |q| then ret == null && list == old(list) && prev == (if q == [] then stale else q[i - 1])
        else ret == q[i] && ret.appPrivate == null
    {
      ret, prev := Scan(port, stale);
      if ret != null {
        Detach(port, stale, prev, ret);
      }
    }

    method Detach(port: nat, ghost stale: Buffer?, prev: Buffer?, ret: Buffer)
      requires Valid() && FirstOf(queue, port) < |queue| && ret == queue[FirstOf(queue, port)]
      requires prev == if FirstOf(queue, port) == 0 then stale else queue[FirstOf(queue, port) - 1]
      modifies this, queue, prev
      ensures Valid() && ret.appPrivate == null && queue == Left(old(queue), port, stale != null)
    {
      ghost var i, q := FirstOf(queue, port), queue;
      if prev == null {
        list := ret.appPrivate;
      } else {
        prev.appPrivate := ret.appPrivate;
      }
      ret.appPrivate := null;
      queue := Left(q, port, stale != null);
      if stale == null || i > 0 {
        forall k | 0 <= k < |queue| ensures queue[k].appPrivate == After(queue, k) {
          AfterRemoved(q, i, k);
          assert old(q[i].appPrivate) == After(q, i);
        }
        RemoveKeepsDistinct(q, i);
      }
    }

    /** What happens to the list while a caller is blocked. */
    method Disturb(acts: seq<Act>, port: nat, ghost buffers: set<Buffer>)
      requires Valid() && ActsOk(queue, acts, port)
      requires Known(acts, buffers) && forall b :: b in queue ==> b in buffers
      modifies this, buffers
      ensures Valid() && queue == AppliedAll(old(queue), acts) && forall b :: b in queue ==> b in buffers
    {
      ghost var end := AppliedAll(queue, acts);
      for i := 0 to |acts|
        invariant Valid() && ActsOk(queue, acts[i..], port) && AppliedAll(queue, acts[i..]) == end
        invariant forall b :: b in queue ==> b in buffers
      {
        Shift(acts, i);
        match acts[i] {
          case Arrive(b) => Done(b);
          case Take(p, carried) => var _, _ := Round(p, carried);
        }
      }
    }

    /**
     The get functions. A blocking call goes round until a buffer of its port is there; `env` says what
     happens to the list while it is blocked for the first, second, ... time: buffers arrive, and other
     consumers take buffers of other ports.
     */
    method Get(port: nat, block: bool, env: seq<seq<Act>>, ghost buffers: set<Buffer>) returns (ret: Buffer?)
      requires Valid() && EnvOk(queue, port, env)
      requires (forall k :: 0 <= k < |env| ==> Known(env[k], buffers)) && forall b :: b in queue ==> b in buffers
      modifies this, buffers
      ensures Valid() && ret == GetFrom(old(queue), port, block, env, false).ret
      ensures queue == GetFrom(old(queue), port, block, env, false).left
      ensures ret != null ==> ret.appPrivate == null
    {
      ghost var goal := GetFrom(queue, port, block, env, false);
      var prev: Buffer? := null;
      var round := 0;
      while true
        invariant round <= |env| && Valid() && (prev != null ==> prev in buffers)
        invariant (forall b :: b in queue ==> b in buffers) && EnvOk(queue, port, env[round..])
        invariant SameEnd(GetFrom(queue, port, block, env[round..], prev != null), goal)
        decreases |env| - round
      {
        GetTurn(queue, port, block, env, round, prev != null);
        ret, prev := RoundAmong(port, prev, buffers);
        if ret != null || !block || round == |env| {
          return;
        }
        Disturb(env[round], port, buffers);
        round := round + 1;
      }
    }

    /** A round, with all the buffers that may be on the list or carried known. */
    method RoundAmong(port: nat, stale: Buffer?, ghost buffers: set<Buffer>) returns (ret: Buffer?, prev: Buffer?)
      requires Valid() && (stale != null ==> stale in buffers) && forall b :: b in queue ==> b in buffers
      modifies this, buffers
      ensures Valid() && queue == Left(old(queue), port, stale != null) && forall b :: b in queue ==> b in buffers
      ensures ret == null && prev != null ==> prev in buffers
      ensures var i := FirstOf(old(queue), port);
        if i == |old(queue)| then ret == null && (prev != null <==> stale != null || old(queue) != [])
        else ret == old(queue)[i] && ret.appPrivate == null
    {
      ghost var q := queue;
      LeftFrom(q, port, stale != null);
      ret, prev := Round(port, stale);
      assert forall k :: 0 <= k < |q| ==> q[k] in q;
    }
  }

  // ---- a get among other consumers ----

  /** Something that happens to the list: a completion, or a round of the consumer of another port. */
  datatype Act = Arrive(b: Buffer) | Take(port: nat, carried: Buffer?)

  /** What a round leaves on the list; `carried` says whether a predecessor came with it from an earlier round. */
  function Left(q: seq<Buffer>, port: nat, carried: bool): seq<Buffer> {
    var i := FirstOf(q, port);
    if i == |q| then q else if !carried || i > 0 then RemoveAt(q, i) else [q[i]]
  }

  function Applied(q: seq<Buffer>, a: Act): seq<Buffer> {
    match a
    case Arrive(b) => q + [b]
    case Take(port, carried) => Left(q, port, carried != null)
  }

  function AppliedAll(q: seq<Buffer>, acts: seq<Act>): seq<Buffer>
    decreases |acts|
  {
    if acts == [] then q else AppliedAll(Applied(q, acts[0]), acts[1..])
  }

  /** Only buffers that are not on the list arrive, and this port's buffers are taken by no one else. */
  predicate ActsOk(q: seq<Buffer>, acts: seq<Act>, port: nat)
    decreases |acts|
  {
    acts != [] ==>
      && (acts[0].Arrive? ==> acts[0].b !in q)
      && (acts[0].Take? ==> acts[0].port != port)
      && ActsOk(Applied(q, acts[0]), acts[1..], port)
  }

  /** The same for as long as a call stays blocked. */
  predicate EnvOk(q: seq<Buffer>, port: nat, env: seq<seq<Act>>)
    decreases |env|
  {
    env == [] || FirstOf(q, port) < |q| ||
    (ActsOk(q, env[0], port) && EnvOk(AppliedAll(q, env[0]), port, env[1..]))
  }

  ghost predicate Known(acts: seq<Act>, buffers: set<Buffer>) {
    forall i :: 0 <= i < |acts| ==>
      if acts[i].Arrive? then acts[i].b in buffers else acts[i].carried == null || acts[i].carried in buffers
  }

  /**
   What a get returns and leaves on the list; `at` is the list when its last round begins, `carried` whether
   an earlier round had stepped over something, `used` how often it was blocked.
   */
  datatype Outcome = Outcome(ret: Buffer?, left: seq<Buffer>, at: seq<Buffer>, carried: bool, used: nat)

  function GetFrom(q: seq<Buffer>, port: nat, block: bool, env: seq<seq<Act>>, carried: bool): Outcome
    decreases |env|
  {
    if FirstOf(q, port) < |q| then Outcome(q[FirstOf(q, port)], Left(q, port, carried), q, carried, 0)
    else if !block || env == [] then Outcome(null, q, q, carried, 0)
    else
      var o := GetFrom(AppliedAll(q, env[0]), port, block, env[1..], carried || q != []);
      o.(used := o.used + 1)
  }

  lemma LeftFrom(q: seq<Buffer>, port: nat, carried: bool)
    ensures forall b :: b in Left(q, port, carried) ==> b in q
  {
  }

  /** What the next round of a get does to its outcome. */
  lemma GetTurn(q: seq<Buffer>, port: nat, block: bool, env: seq<seq<Act>>, round: nat, carried: bool)
    requires round <= |env| && EnvOk(q, port, env[round..])
    ensures var o := GetFrom(q, port, block, env[round..], carried);
      if FirstOf(q, port) < |q| then o.ret == q[FirstOf(q, port)] && o.left == Left(q, port, carried)
      else if !block || round == |env| then o.ret == null && o.left == q
      else
        && env[round..][0] == env[round] && ActsOk(q, env[round], port)
        && EnvOk(AppliedAll(q, env[round]), port, env[round + 1..])
        && SameEnd(GetFrom(AppliedAll(q, env[round]), port, block, env[round + 1..], carried || q != []), o)
  {
    if round < |env| {
      Shift(env, round);
    }
  }

  predicate SameEnd(o: Outcome, p: Outcome) {
    o.ret == p.ret && o.left == p.left
  }

  lemma AppendKeepsDistinct(q: seq<Buffer>, b: Buffer)
    requires Distinct(q) && b !in q
    ensures Distinct(q + [b])
  {
  }

  lemma LeftDistinct(q: seq<Buffer>, port: nat, carried: bool)
    requires Distinct(q)
    ensures Distinct(Left(q, port, carried))
  {
    if FirstOf(q, port) < |q| {
      RemoveKeepsDistinct(q, FirstOf(q, port));
    }
  }

  lemma {:induction false} AppliedDistinct(q: seq<Buffer>, acts: seq<Act>, port: nat)
    requires Distinct(q) && ActsOk(q, acts, port)
    ensures Distinct(AppliedAll(q, acts))
    decreases |acts|
  {
    if acts != [] {
      match acts[0] {
        case Arrive(b) => AppendKeepsDistinct(q, b);
        case Take(p, carried) => LeftDistinct(q, p, carried != null);
      }
      AppliedDistinct(Applied(q, acts[0]), acts[1..], port);
    }
  }

  /** The list as a blocked call finds it after being blocked `k` times, as long as it finds nothing there. */
  function ListAt(q: seq<Buffer>, env: seq<seq<Act>>, k: nat): seq<Buffer>
    requires k <= |env|
    decreases k
  {
    if k == 0 then q else ListAt(AppliedAll(q, env[0]), env[1..], k - 1)
  }

  /** No list that a call finds before its round `k` has a buffer of its port. */
  predicate NothingBefore(q: seq<Buffer>, port: nat, env: seq<seq<Act>>, k: nat)
    requires k <= |env|
  {
    forall j :: 0 <= j < k ==> FirstOf(ListAt(q, env, j), port) == |ListAt(q, env, j)|
  }

  predicate AllEmptyBefore(q: seq<Buffer>, env: seq<seq<Act>>, k: nat)
    requires k <= |env|
  {
    forall j :: 0 <= j < k ==> ListAt(q, env, j) == []
  }

  /** In round `k`, and no earlier one, there is a buffer of the port. */
  predicate FoundAt(q: seq<Buffer>, port: nat, env: seq<seq<Act>>, k: nat)
    requires k <= |env|
  {
    NothingBefore(q, port, env, k) && FirstOf(ListAt(q, env, k), port) < |ListAt(q, env, k)|
  }

  lemma BeforeLater(q: seq<Buffer>, port: nat, env: seq<seq<Act>>, k: nat)
    requires 0 < k <= |env|
    ensures ListAt(q, env, k) == ListAt(AppliedAll(q, env[0]), env[1..], k - 1)
    ensures NothingBefore(q, port, env, k) <==>
              FirstOf(q, port) == |q| && NothingBefore(AppliedAll(q, env[0]), port, env[1..], k - 1)
    ensures AllEmptyBefore(q, env, k) <==> q == [] && AllEmptyBefore(AppliedAll(q, env[0]), env[1..], k - 1)
  {
    var q', env' := AppliedAll(q, env[0]), env[1..];
    assert ListAt(q, env, 0) == q;
    assert forall j :: 0 < j < k ==> ListAt(q, env, j) == ListAt(q', env', j - 1);
    assert forall j :: 0 <= j < k - 1 ==> ListAt(q', env', j) == ListAt(q, env, j + 1);
  }

  /** The last round of a get is the first that finds a buffer; it carries a predecessor if a list before it was not empty. */
  lemma {:induction false} GetEnds(q: seq<Buffer>, port: nat, block: bool, env: seq<seq<Act>>, carried: bool)
    ensures var o := GetFrom(q, port, block, env, carried);
      && o.used <= |env| && o.at == ListAt(q, env, o.used)
      && NothingBefore(q, port, env, o.used)
      && (o.carried <==> carried || !AllEmptyBefore(q, env, o.used))
      && (FoundAt(q, port, env, o.used) ==> o.ret == o.at[FirstOf(o.at, port)] && o.left == Left(o.at, port, o.carried))
      && (!FoundAt(q, port, env, o.used) ==> o.ret == null && o.left == o.at && o.used == if block then |env| else 0)
    decreases |env|
  {
    if FirstOf(q, port) == |q| && block && env != [] {
      var q' := AppliedAll(q, env[0]);
      GetEnds(q', port, block, env[1..], carried || q != []);
      BeforeLater(q, port, env, GetFrom(q', port, block, env[1..], carried || q != []).used + 1);
    }
  }

  lemma OneRoundOk(q: seq<Buffer>, port: nat, env: seq<seq<Act>>)
    requires Distinct(q) && EnvOk(q, port, env) && FirstOf(q, port) == |q| && env != []
    ensures Distinct(AppliedAll(q, env[0])) && EnvOk(AppliedAll(q, env[0]), port, env[1..])
  {
    AppliedDistinct(q, env[0], port);
  }

  lemma {:induction false} ListDistinct(q: seq<Buffer>, port: nat, env: seq<seq<Act>>, k: nat)
    requires Distinct(q) && EnvOk(q, port, env) && k <= |env| && NothingBefore(q, port, env, k)
    ensures Distinct(ListAt(q, env, k))
    decreases k
  {
    if k > 0 {
      BeforeLater(q, port, env, k);
      OneRoundOk(q, port, env);
      ListDistinct(AppliedAll(q, env[0]), port, env[1..], k - 1);
    }
  }

  /** A get is over in the first round that finds a buffer of its port. */
  lemma GetFindsFirst(q: seq<Buffer>, port: nat, block: bool, env: seq<seq<Act>>, k: nat)
    requires k <= |env| && (k > 0 ==> block) && FoundAt(q, port, env, k)
    ensures GetFrom(q, port, block, env, false).used == k && FoundAt(q, port, env, GetFrom(q, port, block, env, false).used)
  {
    GetEnds(q, port, block, env, false);
    FoundOnce(q, port, env, k, GetFrom(q, port, block, env, false).used);
  }

  lemma FoundOnce(q: seq<Buffer>, port: nat, env: seq<seq<Act>>, k: nat, used: nat)
    requires k <= |env| && used <= |env| && FoundAt(q, port, env, k) && NothingBefore(q, port, env, used)
    ensures used <= k && (used < k ==> !FoundAt(q, port, env, used))
  {
  }

  /**
   A get returns the port's oldest buffer of the first round that there is one. It takes that buffer, and no
   other, off the list if and only if the buffer is not at the head or the list was empty in every round before.
   */
  lemma GetDequeuesExactly(q: seq<Buffer>, port: nat, block: bool, env: seq<seq<Act>>, k: nat)
    requires Distinct(q) && EnvOk(q, port, env)
    requires k <= |env| && (k > 0 ==> block) && FoundAt(q, port, env, k)
    ensures var o, list, i := GetFrom(q, port, block, env, false), ListAt(q, env, k), FirstOf(ListAt(q, env, k), port);
      && o.ret == list[i]
      && (o.left == RemoveAt(list, i) <==> i > 0 || AllEmptyBefore(q, env, k))
  {
    GetEnds(q, port, block, env, false);
    GetFindsFirst(q, port, block, env, k);
    ListDistinct(q, port, env, k);
    HeadStays(ListAt(q, env, k), port, GetFrom(q, port, block, env, false).carried);
  }

  lemma HeadStays(list: seq<Buffer>, port: nat, carried: bool)
    requires Distinct(list) && FirstOf(list, port) < |list|
    ensures Left(list, port, carried) == RemoveAt(list, FirstOf(list, port)) <==> FirstOf(list, port) > 0 || !carried
  {
    if FirstOf(list, port) == 0 {
      assert list[0] !in RemoveAt(list, 0);
      assert list[0] in [list[0]];
    }
  }

  // ---- one consumer alone ----

  predicate OnlyArrivals(env: seq<seq<Act>>) {
    forall k, i :: 0 <= k < |env| && 0 <= i < |env[k]| ==> env[k][i].Arrive?
  }

  predicate AllArrive(acts: seq<Act>) {
    forall i :: 0 <= i < |acts| ==> acts[i].Arrive?
  }

  /** The buffers that arrive. */
  function Arrivals(acts: seq<Act>): seq<Buffer>
    requires AllArrive(acts)
  {
    if acts == [] then [] else [acts[0].b] + Arrivals(acts[1..])
  }

  /** All that arrives while a call is blocked for the first `k` times. */
  function ArrivedBy(env: seq<seq<Act>>, k: nat): seq<Buffer>
    requires OnlyArrivals(env) && k <= |env|
    decreases |env|
  {
    if k == 0 then [] else assert AllArrive(env[0]); Arrivals(env[0]) + ArrivedBy(env[1..], k - 1)
  }

  lemma {:induction false} ArrivalsAppend(q: seq<Buffer>, acts: seq<Act>)
    requires AllArrive(acts)
    ensures AppliedAll(q, acts) == q + Arrivals(acts)
    decreases |acts|
  {
    if acts != [] {
      ArrivalsAppend(q + [acts[0].b], acts[1..]);
    } else {
      assert q + [] == q;
    }
  }

  lemma NoneInPrefix(q: seq<Buffer>, more: seq<Buffer>, port: nat)
    requires FirstOf(q, port) == |q|
    ensures q != [] ==> q[0].port != port
    ensures q != [] ==> q + more != [] && (q + more)[0] == q[0]
  {
  }

  /** First in, first out, among `q` and all that arrived; while the call was blocked there was nothing for it. */
  predicate Fifo(q: seq<Buffer>, port: nat, block: bool, env: seq<seq<Act>>, o: Outcome)
    requires OnlyArrivals(env)
  {
    && o.used <= |env|
    && o.at == q + ArrivedBy(env, o.used)
    && (o.used > 0 ==> PortQueue(q + ArrivedBy(env, o.used - 1), port) == [])
    && if o.ret == null then o.left == o.at && FirstOf(o.at, port) == |o.at| && (block ==> o.used == |env|)
       else
         && FirstOf(o.at, port) < |o.at| && o.ret == o.at[FirstOf(o.at, port)]
         && o.left == RemoveAt(o.at, FirstOf(o.at, port))
  }

  lemma ArrivedLater(q: seq<Buffer>, env: seq<seq<Act>>, k: nat)
    requires OnlyArrivals(env) && 0 < k <= |env|
    ensures AllArrive(env[0]) && OnlyArrivals(env[1..])
    ensures q + ArrivedBy(env, k) == q + Arrivals(env[0]) + ArrivedBy(env[1..], k - 1)
  {
    assert AllArrive(env[0]);
  }

  lemma FifoLater(q: seq<Buffer>, port: nat, block: bool, env: seq<seq<Act>>, o: Outcome)
    requires OnlyArrivals(env) && env != [] && AllArrive(env[0]) && PortQueue(q, port) == []
    requires Fifo(q + Arrivals(env[0]), port, block, env[1..], o)
    ensures Fifo(q, port, block, env, o.(used := o.used + 1))
  {
    ArrivedLater(q, env, o.used + 1);
    if o.used > 0 {
      ArrivedLater(q, env, o.used);
    } else {
      assert q + ArrivedBy(env, 0) == q;
    }
  }

  /** With one consumer the carried predecessor does no harm. */
  lemma {:induction false} AloneServes(q: seq<Buffer>, port: nat, block: bool, env: seq<seq<Act>>, carried: bool)
    requires OnlyArrivals(env) && (carried ==> q != [] && q[0].port != port)
    ensures Fifo(q, port, block, env, GetFrom(q, port, block, env, carried))
    decreases |env|
  {
    assert q + [] == q;
    EmptyQueue(q, port);
    if FirstOf(q, port) == |q| && block && env != [] {
      assert AllArrive(env[0]);
      ArrivalsAppend(q, env[0]);
      NoneInPrefix(q, Arrivals(env[0]), port);
      AloneServes(q + Arrivals(env[0]), port, block, env[1..], carried || q != []);
      FifoLater(q, port, block, env, GetFrom(q + Arrivals(env[0]), port, block, env[1..], carried || q != []));
    }
  }

  // ---- one consumer for each port ----

  /**
   One consumer for each port, and a buffer lost. A get on port 1 steps over a buffer of port 2 and blocks;
   the consumer of port 2 takes that buffer; two buffers of port 1 arrive. The get returns the first, which
   stays on the list, and the second is gone.
   */
  method TwoConsumersLoseABuffer(k: Component, b2: Buffer, b1: Buffer, c1: Buffer) returns (ret: Buffer?)
    requires k.Valid() && k.queue == [] && b2.port == 2 && b1.port == 1 && c1.port == 1 && b1 != c1
    modifies k, b2, b1, c1
    ensures k.Valid() && ret == b1 && k.queue == [b1]
  {
    k.Done(b2);
    LossyRun(b2, b1, c1);
    ret := k.Get(1, true, [[Take(2, null), Arrive(b1), Arrive(c1)]], {b2, b1, c1});
  }

  lemma LossyRun(b2: Buffer, b1: Buffer, c1: Buffer)
    requires b2.port == 2 && b1.port == 1 && c1.port == 1 && b1 != c1
    ensures var acts := [Take(2, null), Arrive(b1), Arrive(c1)];
      && EnvOk([b2], 1, [acts])
      && GetFrom([b2], 1, true, [acts], false).ret == b1 && GetFrom([b2], 1, true, [acts], false).left == [b1]
  {
    var acts: seq<Act> := [Take(2, null), Arrive(b1), Arrive(c1)];
    var none: seq<seq<Act>> := [];
    assert acts[1..] == [Arrive(b1), Arrive(c1)] && acts[1..][1..] == [Arrive(c1)] && acts[1..][1..][1..] == [];
    assert Applied([b2], acts[0]) == [] && [] + [b1] == [b1];
    ArrivalsAppend([], acts[1..]);
    assert Arrivals(acts[1..][1..]) == [c1];
    assert AppliedAll([b2], acts) == [b1, c1];
    assert ActsOk([b1], acts[1..][1..], 1) && ActsOk([], acts[1..], 1);
    assert [acts][1..] == none;
  }

  lemma AfterRemoved(q: seq<Buffer>, i: nat, k: nat)
    requires i < |q| && k < |q| - 1
    ensures RemoveAt(q, i)[k] == q[if k < i then k else k + 1]
    ensures After(RemoveAt(q, i), k) == After(q, if k + 1 < i then k else k + 1)
  {
  }

  lemma {:induction false} FirstOfIs(s: seq<Buffer>, port: nat, i: nat)
    requires i <= |s| && (i < |s| ==> s[i].port == port)
    requires forall j :: 0 <= j < i ==> s[j].port != port
    ensures FirstOf(s, port) == i
  {
    var k := FirstOf(s, port);
    assert k <= i && i <= k;
  }
}
