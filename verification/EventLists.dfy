/**
 Singly linked lists that share one table of nodes, as values: a table of links, the head of every
 list, and what the lists are. Node numbers are positions in the client's node array.
 */
module EventLists {
  import opened Sequences
  import opened IlEvents

  const NIL := -1

  /** `next`, `spareHead` and `heads` are the program's; the rest says what they mean. */
  datatype Lists = Lists(
    next: seq<int>, spareHead: int, heads: seq<int>,
    home: seq<int>, spare: seq<nat>, held: seq<seq<nat>>)

  function After(s: seq<nat>, i: nat): int {
    if i + 1 < |s| then s[i + 1] else NIL
  }

  /** The list from `head` runs through exactly `s` and ends. */
  ghost predicate Chain(next: seq<int>, head: int, s: seq<nat>) {
    && head == (if s == [] then NIL else s[0])
    && (forall i :: 0 <= i < |s| ==> s[i] < |next|)
    && forall i :: 0 <= i < |s| ==> next[s[i]] == After(s, i)
  }

  /** A list of distinct nodes that all live at `h`. */
  ghost predicate ListOk(next: seq<int>, home: seq<int>, head: int, s: seq<nat>, h: int) {
    && Chain(next, head, s)
    && Distinct(s)
    && |home| == |next|
    && forall i :: 0 <= i < |s| ==> home[s[i]] == h
  }

  ghost predicate HeldOk(p: Lists, k: nat)
    requires k < |p.held| == |p.heads|
  {
    ListOk(p.next, p.home, p.heads[k], p.held[k], k)
  }

  ghost predicate OnSomeList(p: Lists, n: nat)
    requires n < |p.home|
  {
    if p.home[n] == NIL then n in p.spare else 0 <= p.home[n] < |p.held| && n in p.held[p.home[n]]
  }

  /** Every node is on exactly one list, and the links are those of the lists. */
  ghost predicate Sound(p: Lists) {
    && |p.held| == |p.heads|
    && ListOk(p.next, p.home, p.spareHead, p.spare, NIL)
    && (forall k :: 0 <= k < |p.held| ==> HeldOk(p, k))
    && (forall n :: 0 <= n < |p.home| ==> OnSomeList(p, n))
  }

  // ---- moving one node ----

  /** Node `i` of list `k` goes to the front of the spare list. */
  function Unlinked(p: Lists, k: nat, i: nat): Lists
    requires k < |p.held| == |p.heads| && i < |p.held[k]|
    requires forall j :: 0 <= j < |p.held[k]| ==> p.held[k][j] < |p.next| == |p.home|
  {
    var s := p.held[k];
    var next := if i == 0 then p.next else p.next[s[i - 1] := p.next[s[i]]];
    Lists(
      next[s[i] := p.spareHead], s[i], if i == 0 then p.heads[k := p.next[s[i]]] else p.heads,
      p.home[s[i] := NIL], [s[i]] + p.spare, p.held[k := RemoveAt(s, i)])
  }

  /** The first spare node goes to the front of list `k`. */
  function Linked(p: Lists, k: nat): Lists
    requires k < |p.held| == |p.heads| && p.spare != [] && p.spare[0] < |p.next| == |p.home|
  {
    var n := p.spare[0];
    Lists(
      p.next[n := p.heads[k]], p.next[n], p.heads[k := n],
      p.home[n := k], p.spare[1..], p.held[k := [n] + p.held[k]])
  }

  /** A list keeps its meaning when links and homes change only elsewhere. */
  lemma ListFrame(next: seq<int>, home: seq<int>, next': seq<int>, home': seq<int>, head: int, s: seq<nat>, h: int)
    requires ListOk(next, home, head, s, h) && |next'| == |next| && |home'| == |home|
    requires forall n :: 0 <= n < |next| && home[n] == h ==> next'[n] == next[n] && home'[n] == h
    ensures ListOk(next', home', head, s, h)
  {
  }

  lemma ChainRemove(next: seq<int>, home: seq<int>, head: int, s: seq<nat>, h: int, i: nat, next': seq<int>, home': seq<int>, head': int)
    requires ListOk(next, home, head, s, h) && i < |s|
    requires |next'| == |next| && |home'| == |home|
    requires head' == if i == 0 then next[s[0]] else head
    requires i > 0 ==> next'[s[i - 1]] == next[s[i]]
    requires forall j :: 0 <= j < |s| && j != i && j + 1 != i ==> next'[s[j]] == next[s[j]]
    requires forall j :: 0 <= j < |s| && j != i ==> home'[s[j]] == h
    ensures ListOk(next', home', head', RemoveAt(s, i), h)
  {
    var r := RemoveAt(s, i);
    forall j | 0 <= j < |r|
      ensures r[j] < |next'| && home'[r[j]] == h
      ensures next'[r[j]] == After(r, j)
    {
      var j' := if j < i then j else j + 1;
      assert r[j] == s[j'];
      assert j' + 1 != i ==> next'[s[j']] == After(s, j');
      if j + 1 < |r| {
        assert r[j + 1] == s[if j + 1 < i then j + 1 else j + 2];
      }
    }
    if r != [] {
      assert r[0] == s[if i == 0 then 1 else 0];
    }
    RemoveKeepsDistinct(s, i);
  }

  lemma ChainCons(next: seq<int>, home: seq<int>, head: int, s: seq<nat>, h: int, n: nat, next': seq<int>, home': seq<int>)
    requires ListOk(next, home, head, s, h) && n < |next| && home[n] != h
    requires |next'| == |next| && |home'| == |home|
    requires next'[n] == head && home'[n] == h
    requires forall j :: 0 <= j < |s| ==> next'[s[j]] == next[s[j]] && home'[s[j]] == h
    ensures ListOk(next', home', n, [n] + s, h)
  {
    var r := [n] + s;
    forall a, b | 0 <= a < b < |r| ensures r[a] != r[b] {
      assert r[b] == s[b - 1];
    }
  }

  lemma UnlinkHeld(p: Lists, k: nat, i: nat, m: nat)
    requires Sound(p) && k < |p.held| && i < |p.held[k]| && m < |p.held|
    requires HeldOk(p, k) && HeldOk(p, m)
    ensures HeldOk(Unlinked(p, k, i), m)
  {
    if m == k {
      UnlinkOwn(p, k, i);
    } else {
      UnlinkOther(p, k, i, m);
    }
  }

  lemma UnlinkOwn(p: Lists, k: nat, i: nat)
    requires k < |p.held| == |p.heads| && i < |p.held[k]| && HeldOk(p, k)
    ensures HeldOk(Unlinked(p, k, i), k)
  {
    var q, s := Unlinked(p, k, i), p.held[k];
    ChainRemove(p.next, p.home, p.heads[k], s, k, i, q.next, q.home, q.heads[k]);
  }

  lemma UnlinkOther(p: Lists, k: nat, i: nat, m: nat)
    requires k < |p.held| == |p.heads| && i < |p.held[k]| && m < |p.held| && m != k
    requires HeldOk(p, k) && HeldOk(p, m)
    ensures HeldOk(Unlinked(p, k, i), m)
  {
    var q := Unlinked(p, k, i);
    ListFrame(p.next, p.home, q.next, q.home, p.heads[m], p.held[m], m);
  }

  lemma UnlinkPlace(p: Lists, k: nat, i: nat, n: nat)
    requires Sound(p) && k < |p.held| && i < |p.held[k]| && n < |p.home|
    requires HeldOk(p, k) && OnSomeList(p, n)
    ensures OnSomeList(Unlinked(p, k, i), n)
  {
    var q, s := Unlinked(p, k, i), p.held[k];
    if n == s[i] {
      assert q.spare[0] == n;
    } else if p.home[n] == NIL {
      var j :| 0 <= j < |p.spare| && p.spare[j] == n;
      assert q.spare[j + 1] == n;
    } else if p.home[n] == k {
      RemoveKeeps(s, i, n);
    }
  }

  /** The node to unlink is the one its predecessor, or the head, leads to. */
  lemma UnlinkHead(p: Lists, k: nat, i: nat)
    requires Sound(p) && k < |p.held| && i < |p.held[k]|
    ensures forall j :: 0 <= j < |p.held[k]| ==> p.held[k][j] < |p.next| == |p.home|
    ensures p.held[k][i] == if i == 0 then p.heads[k] else p.next[p.held[k][i - 1]]
  {
    assert HeldOk(p, k);
    assert i > 0 ==> p.next[p.held[k][i - 1]] == After(p.held[k], i - 1);
  }

  lemma UnlinkSound(p: Lists, k: nat, i: nat)
    requires Sound(p) && k < |p.held| && i < |p.held[k]|
    ensures HeldOk(p, k)
    ensures Sound(Unlinked(p, k, i))
  {
    assert HeldOk(p, k);
    var q, s := Unlinked(p, k, i), p.held[k];
    ChainCons(p.next, p.home, p.spareHead, p.spare, NIL, s[i], q.next, q.home);
    forall m | 0 <= m < |q.held| ensures HeldOk(q, m) {
      UnlinkHeld(p, k, i, m);
    }
    forall n | 0 <= n < |q.home| ensures OnSomeList(q, n) {
      UnlinkPlace(p, k, i, n);
    }
  }

  lemma LinkHeld(p: Lists, k: nat, m: nat)
    requires Sound(p) && k < |p.held| && p.spare != [] && m < |p.held|
    requires HeldOk(p, k) && HeldOk(p, m)
    ensures HeldOk(Linked(p, k), m)
  {
    var q, n := Linked(p, k), p.spare[0];
    if m == k {
      ChainCons(p.next, p.home, p.heads[k], p.held[k], k, n, q.next, q.home);
    } else {
      ListFrame(p.next, p.home, q.next, q.home, p.heads[m], p.held[m], m);
    }
  }

  lemma LinkPlace(p: Lists, k: nat, m: nat)
    requires Sound(p) && k < |p.held| && p.spare != [] && m < |p.home|
    requires OnSomeList(p, m)
    ensures OnSomeList(Linked(p, k), m)
  {
    var q, n := Linked(p, k), p.spare[0];
    if m == n {
      assert q.held[k][0] == n;
    } else if p.home[m] == NIL {
      var j :| 0 <= j < |p.spare| && p.spare[j] == m;
      assert q.spare[j - 1] == m;
    } else if p.home[m] == k {
      var j :| 0 <= j < |p.held[k]| && p.held[k][j] == m;
      assert q.held[k][j + 1] == m;
    }
  }

  lemma LinkSound(p: Lists, k: nat)
    requires Sound(p) && k < |p.held| && p.spare != []
    ensures p.spare[0] < |p.next| == |p.home|
    ensures Sound(Linked(p, k))
  {
    assert HeldOk(p, k);
    var q := Linked(p, k);
    ChainRemove(p.next, p.home, p.spareHead, p.spare, NIL, 0, q.next, q.home, q.spareHead);
    assert RemoveAt(p.spare, 0) == q.spare;
    forall m | 0 <= m < |q.held| ensures HeldOk(q, m) {
      LinkHeld(p, k, m);
    }
    forall m | 0 <= m < |q.home| ensures OnSomeList(q, m) {
      LinkPlace(p, k, m);
    }
  }

  // ---- the initial pool ----

  /** The nodes in the order in which the initialisation loop leaves them: last pushed first. */
  function Countdown(n: nat): (s: seq<nat>)
    ensures |s| == n && forall k :: 0 <= k < n ==> s[k] == n - 1 - k
  {
    seq(n, k requires 0 <= k < n => n - 1 - k)
  }

  function AllSpare(n: nat): (s: seq<int>)
    ensures |s| == n && forall k :: 0 <= k < n ==> s[k] == NIL
  {
    seq(n, _ => NIL)
  }

  /** Pushing the nodes one after the other puts all of them on the spare list. */
  lemma InitialSound(p: Lists)
    requires p.spareHead == |p.next| - 1 && forall k :: 0 <= k < |p.next| ==> p.next[k] == k - 1
    requires p.spare == Countdown(|p.next|) && p.home == AllSpare(|p.next|)
    requires p.heads == [] && p.held == []
    ensures Sound(p)
  {
    forall n | 0 <= n < |p.home| ensures OnSomeList(p, n) {
      assert p.spare[|p.next| - 1 - n] == n;
    }
  }

  // ---- counting ----

  /** The numbers below `n`. */
  function Numbers(n: nat): (s: seq<nat>)
    ensures |s| == n && forall i :: 0 <= i < n ==> s[i] == i
  {
    seq(n, i requires 0 <= i < n => i)
  }

  /** How many nodes the first `k` lists hold. */
  function TotalTo(held: seq<seq<nat>>, k: nat): nat
    requires k <= |held|
  {
    if k == 0 then 0 else TotalTo(held, k - 1) + |held[k - 1]|
  }

  /** The nodes that live on the spare list or on one of the first `k` lists. */
  ghost function LivingBelow(p: Lists, k: int): set<nat> {
    set n | n in Numbers(|p.home|) && p.home[n] < k
  }

  lemma InNumbers(n: nat)
    ensures forall i :: i in Numbers(n) <==> 0 <= i < n
  {
    forall i | 0 <= i < n ensures i in Numbers(n) {
      assert Numbers(n)[i] == i;
    }
  }

  /** The nodes of a list, as a set, are as many as its length. */
  lemma ListCard(s: seq<nat>, all: set<nat>)
    requires Distinct(s) && (forall n :: n in all <==> n in s)
    ensures |all| == |s|
  {
    DistinctCard(s);
    assert all == Elements(s);
  }

  lemma SpareCount(p: Lists)
    requires Sound(p)
    ensures |LivingBelow(p, 0)| == |p.spare|
  {
    InNumbers(|p.home|);
    forall n | n in LivingBelow(p, 0) ensures n in p.spare {
      assert OnSomeList(p, n);
    }
    ListCard(p.spare, LivingBelow(p, 0));
  }

  lemma HeldCount(p: Lists, k: nat)
    requires Sound(p) && k < |p.held|
    ensures |LivingBelow(p, k + 1)| == |LivingBelow(p, k)| + |p.held[k]|
  {
    InNumbers(|p.home|);
    assert HeldOk(p, k);
    var here := LivingBelow(p, k + 1) - LivingBelow(p, k);
    forall n | n in here ensures n in p.held[k] {
      assert OnSomeList(p, n);
    }
    ListCard(p.held[k], here);
    assert LivingBelow(p, k + 1) == LivingBelow(p, k) + here;
  }

  lemma {:induction false} CountBelow(p: Lists, k: nat)
    requires Sound(p) && k <= |p.held|
    ensures |LivingBelow(p, k)| == |p.spare| + TotalTo(p.held, k)
  {
    if k == 0 {
      SpareCount(p);
    } else {
      CountBelow(p, k - 1);
      HeldCount(p, k - 1);
    }
  }

  /** Conservation: the spare list and the component lists together hold every node once. */
  lemma Conservation(p: Lists)
    requires Sound(p)
    ensures |p.spare| + TotalTo(p.held, |p.held|) == |p.next|
  {
    CountBelow(p, |p.held|);
    InNumbers(|p.home|);
    forall n | n in Numbers(|p.home|) ensures p.home[n] < |p.held| {
      assert OnSomeList(p, n);
    }
    DistinctCard(Numbers(|p.home|));
    assert LivingBelow(p, |p.held|) == Elements(Numbers(|p.home|));
  }

  /** No node is on two lists, and none is on no list. */
  lemma OnlyOneList(p: Lists)
    requires Sound(p)
    ensures forall n :: 0 <= n < |p.next| ==> (n in p.spare) != (exists k :: 0 <= k < |p.held| && n in p.held[k])
    ensures forall k, m :: 0 <= k < m < |p.held| ==> forall n :: n in p.held[k] ==> n !in p.held[m]
  {
    forall n | 0 <= n < |p.next|
      ensures (n in p.spare) != (exists k :: 0 <= k < |p.held| && n in p.held[k])
    {
      assert OnSomeList(p, n);
      assert n in p.spare ==> p.home[n] == NIL;
      forall k | 0 <= k < |p.held| && n in p.held[k] ensures p.home[n] == k {
        assert HeldOk(p, k);
      }
    }
    forall k, m | 0 <= k < m < |p.held| ensures forall n :: n in p.held[k] ==> n !in p.held[m] {
      assert HeldOk(p, k) && HeldOk(p, m);
    }
  }

  // ---- the events on the lists ----

  function EventsOf(events: seq<Event>, s: seq<nat>): (es: seq<Event>)
    requires forall i :: 0 <= i < |s| ==> s[i] < |events|
    ensures |es| == |s| && forall i :: 0 <= i < |s| ==> es[i] == events[s[i]]
  {
    seq(|s|, i requires 0 <= i < |s| => events[s[i]])
  }

  /** Behind its head a list repeats nothing. */
  predicate TailDistinct(es: seq<Event>) {
    forall i, j :: 1 <= i < j < |es| ==> es[i] != es[j]
  }

  lemma DistinctBound(es: seq<Event>, kinds: set<Event>)
    requires Distinct(es) && Elements(es) <= kinds
    ensures |es| <= |kinds|
  {
    DistinctCard(es);
    SubsetCard(Elements(es), kinds);
  }

  lemma SubsetCard<T>(a: set<T>, b: set<T>)
    requires a <= b
    ensures |a| <= |b|
  {
    assert b == a + (b - a);
  }

  lemma TailBound(es: seq<Event>, d: nat)
    requires TailDistinct(es) && |Elements(es)| <= d
    ensures |es| <= d + 1
  {
    if es != [] {
      DistinctBound(es[1..], Elements(es));
    }
  }

  lemma {:induction false} TotalBound(held: seq<seq<nat>>, k: nat, c: nat, room: nat, most: nat)
    requires k <= |held| && forall m :: 0 <= m < |held| ==> |held[m]| <= most
    requires c < |held| && |held[c]| <= room
    ensures TotalTo(held, k) <= k * most + (if c < k then room - most else 0)
  {
    if k > 0 {
      TotalBound(held, k - 1, c, room, most);
      assert k * most == (k - 1) * most + most;
    }
  }

  /** What is known of list `k` when its component has seen at most `d` different events. */
  ghost predicate Modest(p: Lists, events: seq<Event>, k: nat, d: nat)
    requires k < |p.held| == |p.heads|
  {
    && (forall i :: 0 <= i < |p.held[k]| ==> p.held[k][i] < |events|)
    && TailDistinct(EventsOf(events, p.held[k]))
    && |Elements(EventsOf(events, p.held[k]))| <= d
  }

  /**
   The capacity bound: with `k` components that see at most `d` different events each, and
   `k * (d + 1)` no more than the pool, de-duplicating one list always leaves a spare node.
   */
  lemma CapacitySuffices(p: Lists, events: seq<Event>, c: nat, d: nat)
    requires Sound(p) && c < |p.held| && Modest(p, events, c, d)
    requires forall k :: 0 <= k < |p.held| ==> Modest(p, events, k, d)
    requires |p.held| * (d + 1) <= |p.next|
    ensures |p.spare| + |p.held[c]| - |Dedup(EventsOf(events, p.held[c]))| > 0
  {
    var es := EventsOf(events, p.held[c]);
    DistinctBound(Dedup(es), Elements(es));
    forall m | 0 <= m < |p.held| ensures |p.held[m]| <= d + 1 {
      assert Modest(p, events, m, d);
      TailBound(EventsOf(events, p.held[m]), d);
    }
    Conservation(p);
    TotalBound(p.held, |p.held|, c, |p.held[c]|, d + 1);
  }

  // ---- lists with their events ----

  ghost predicate InRange(p: Lists, n: nat) {
    forall k, i :: 0 <= k < |p.held| && 0 <= i < |p.held[k]| ==> p.held[k][i] < n
  }

  /** The events of every list. */
  ghost function Contents(p: Lists, events: seq<Event>): (qs: seq<seq<Event>>)
    requires InRange(p, |events|)
    ensures |qs| == |p.held| && forall k :: 0 <= k < |p.held| ==> qs[k] == EventsOf(events, p.held[k])
  {
    seq(|p.held|, k requires 0 <= k < |p.held| => EventsOf(events, p.held[k]))
  }

  /** The pool's invariant: sound lists that repeat nothing behind their heads. */
  ghost predicate PoolOk(p: Lists, events: seq<Event>) {
    && Sound(p)
    && |events| == |p.next|
    && InRange(p, |events|)
    && forall k :: 0 <= k < |p.held| ==> TailDistinct(Contents(p, events)[k])
  }

  lemma SoundInRange(p: Lists)
    requires Sound(p)
    ensures InRange(p, |p.next|)
  {
    forall k, i | 0 <= k < |p.held| && 0 <= i < |p.held[k]| ensures p.held[k][i] < |p.next| {
      assert HeldOk(p, k);
    }
  }

  lemma TailDistinctRemove(es: seq<Event>, i: nat)
    requires TailDistinct(es) && i < |es|
    ensures TailDistinct(RemoveAt(es, i))
  {
    var r := RemoveAt(es, i);
    forall a, b | 1 <= a < b < |r| ensures r[a] != r[b] {
      assert r[a] == es[if a < i then a else a + 1] && r[b] == es[if b < i then b else b + 1];
    }
  }

  /** Events of a list whose nodes keep their events. */
  lemma EventsFrame(events: seq<Event>, events': seq<Event>, s: seq<nat>)
    requires forall i :: 0 <= i < |s| ==> s[i] < |events| == |events'| && events'[s[i]] == events[s[i]]
    ensures EventsOf(events', s) == EventsOf(events, s)
  {
  }

  /** Unlinking removes one event from one list; whether the node is marked unused does not matter. */
  lemma UnlinkPool(p: Lists, events: seq<Event>, k: nat, i: nat, events': seq<Event>)
    requires PoolOk(p, events) && k < |p.held| && i < |p.held[k]|
    requires events' == events || events' == events[p.held[k][i] := Unused]
    ensures Sound(Unlinked(p, k, i)) && PoolOk(Unlinked(p, k, i), events')
    ensures Contents(Unlinked(p, k, i), events') == Contents(p, events)[k := RemoveAt(Contents(p, events)[k], i)]
  {
    UnlinkSound(p, k, i);
    var q, s := Unlinked(p, k, i), p.held[k];
    SoundInRange(q);
    forall m | 0 <= m < |q.held|
      ensures EventsOf(events', q.held[m]) == if m == k then RemoveAt(EventsOf(events, s), i) else EventsOf(events, p.held[m])
      ensures TailDistinct(EventsOf(events', q.held[m]))
    {
      UnlinkContents(p, events, k, i, events', m);
    }
  }

  lemma EventsRemove(events: seq<Event>, s: seq<nat>, i: nat, events': seq<Event>)
    requires Distinct(s) && i < |s| && forall j :: 0 <= j < |s| ==> s[j] < |events|
    requires events' == events || events' == events[s[i] := Unused]
    ensures forall j :: 0 <= j < |RemoveAt(s, i)| ==> RemoveAt(s, i)[j] < |events'|
    ensures EventsOf(events', RemoveAt(s, i)) == RemoveAt(EventsOf(events, s), i)
  {
    var r, es := RemoveAt(s, i), EventsOf(events, s);
    forall j | 0 <= j < |r| ensures r[j] < |events'| && events'[r[j]] == RemoveAt(es, i)[j] {
      assert r[j] == s[if j < i then j else j + 1];
    }
  }

  lemma UnlinkContents(p: Lists, events: seq<Event>, k: nat, i: nat, events': seq<Event>, m: nat)
    requires PoolOk(p, events) && k < |p.held| && i < |p.held[k]| && m < |p.held|
    requires events' == events || events' == events[p.held[k][i] := Unused]
    requires Sound(Unlinked(p, k, i)) && InRange(Unlinked(p, k, i), |events|)
    ensures EventsOf(events', Unlinked(p, k, i).held[m])
         == if m == k then RemoveAt(EventsOf(events, p.held[k]), i) else EventsOf(events, p.held[m])
    ensures TailDistinct(EventsOf(events', Unlinked(p, k, i).held[m]))
  {
    assert HeldOk(p, k) && HeldOk(p, m);
    assert TailDistinct(Contents(p, events)[m]);
    if m == k {
      EventsRemove(events, p.held[k], i, events');
      TailDistinctRemove(EventsOf(events, p.held[k]), i);
    } else {
      EventsFrame(events, events', p.held[m]);
    }
  }

  lemma LinkContents(p: Lists, events: seq<Event>, k: nat, e: Event, m: nat)
    requires PoolOk(p, events) && k < |p.held| && p.spare != [] && Distinct(Contents(p, events)[k])
    requires p.spare[0] < |p.next| == |p.home| && m < |p.held|
    requires Sound(Linked(p, k)) && InRange(Linked(p, k), |events|)
    ensures EventsOf(events[p.spare[0] := e], Linked(p, k).held[m])
         == if m == k then [e] + EventsOf(events, p.held[k]) else EventsOf(events, p.held[m])
    ensures TailDistinct(EventsOf(events[p.spare[0] := e], Linked(p, k).held[m]))
  {
    assert HeldOk(p, k) && HeldOk(p, m);
    assert TailDistinct(Contents(p, events)[m]);
    if m == k {
      EventsCons(events, p.spare[0], e, p.held[k]);
    } else {
      EventsFrame(events, events[p.spare[0] := e], p.held[m]);
    }
  }

  lemma EventsCons(events: seq<Event>, n: nat, e: Event, s: seq<nat>)
    requires n < |events| && n !in s && forall j :: 0 <= j < |s| ==> s[j] < |events|
    ensures forall j :: 0 <= j < |[n] + s| ==> ([n] + s)[j] < |events|
    ensures EventsOf(events[n := e], [n] + s) == [e] + EventsOf(events, s)
    ensures Distinct(EventsOf(events, s)) ==> TailDistinct(EventsOf(events[n := e], [n] + s))
  {
    var es := EventsOf(events[n := e], [n] + s);
    assert forall j :: 1 <= j < |es| ==> es[j] == EventsOf(events, s)[j - 1];
  }

  /** Linking the first spare node, filled with `e`, puts `e` in front of one list of distinct events. */
  lemma LinkPool(p: Lists, events: seq<Event>, k: nat, e: Event)
    requires PoolOk(p, events) && k < |p.held| && p.spare != [] && Distinct(Contents(p, events)[k])
    ensures p.spare[0] < |events|
    ensures Sound(Linked(p, k)) && PoolOk(Linked(p, k), events[p.spare[0] := e])
    ensures Contents(Linked(p, k), events[p.spare[0] := e]) == Contents(p, events)[k := [e] + Contents(p, events)[k]]
  {
    LinkSound(p, k);
    var q, events' := Linked(p, k), events[p.spare[0] := e];
    SoundInRange(q);
    forall m | 0 <= m < |q.held|
      ensures EventsOf(events', q.held[m]) == if m == k then [e] + EventsOf(events, p.held[k]) else EventsOf(events, p.held[m])
      ensures TailDistinct(EventsOf(events', q.held[m]))
    {
      LinkContents(p, events, k, e, m);
    }
  }

  // ---- the steps of the de-duplication loops ----

  /** Where a list's pointers lead. */
  lemma Leads(p: Lists, k: nat)
    requires Sound(p) && k < |p.held|
    ensures p.heads[k] == if p.held[k] == [] then NIL else p.held[k][0]
    ensures forall j :: 0 <= j < |p.held[k]| ==> p.held[k][j] < |p.next| && p.next[p.held[k][j]] == After(p.held[k], j)
  {
    assert HeldOk(p, k);
  }

  /** Behind position `k` of `was`, copies of `e` are gone up to position `j` of `now`. */
  ghost predicate Cleaned(was: seq<Event>, now: seq<Event>, k: nat, j: nat, e: Event) {
    && k <= j < |now| && k < |was|
    && now[..k + 1] == was[..k + 1]
    && now[k + 1..j + 1] + Without(now[j + 1..], e) == Without(was[k + 1..], e)
  }

  lemma CleanedKeep(was: seq<Event>, now: seq<Event>, k: nat, j: nat, e: Event)
    requires Cleaned(was, now, k, j, e) && j + 1 < |now| && now[j + 1] != e
    ensures Cleaned(was, now, k, j + 1, e)
  {
    assert now[j + 1..][1..] == now[j + 2..];
    assert now[k + 1..j + 2] == now[k + 1..j + 1] + [now[j + 1]];
  }

  lemma CleanedDrop(was: seq<Event>, now: seq<Event>, k: nat, j: nat, e: Event)
    requires Cleaned(was, now, k, j, e) && j + 1 < |now| && now[j + 1] == e
    ensures Cleaned(was, RemoveAt(now, j + 1), k, j, e)
  {
    var r := RemoveAt(now, j + 1);
    assert now[j + 1..][1..] == now[j + 2..];
    assert r[k + 1..j + 1] == now[k + 1..j + 1];
    assert r[j + 1..] == now[j + 2..];
  }

  lemma CleanedDone(was: seq<Event>, now: seq<Event>, k: nat, j: nat, e: Event)
    requires Cleaned(was, now, k, j, e) && j + 1 == |now|
    ensures now == was[..k + 1] + Without(was[k + 1..], e)
  {
  }

  /** The first `k` events of `now` are settled; de-duplicating the rest completes the work. */
  ghost predicate Settled(was: seq<Event>, now: seq<Event>, k: nat) {
    k <= |now| && now[..k] + Dedup(now[k..]) == Dedup(was)
  }

  lemma SettledNext(was: seq<Event>, now: seq<Event>, k: nat, now': seq<Event>)
    requires Settled(was, now, k) && k < |now|
    requires now' == now[..k + 1] + Without(now[k + 1..], now[k])
    ensures Settled(was, now', k + 1)
  {
    assert now[k..][1..] == now[k + 1..];
    assert now'[k + 1..] == Without(now[k + 1..], now[k]);
    assert now'[..k + 1] == now[..k] + [now[k]];
  }

  /** Nothing before position `i` satisfies `f`. */
  ghost predicate NoneBefore(es: seq<Event>, f: Event -> bool, i: nat) {
    i <= |es| && forall j :: 0 <= j < i ==> !f(es[j])
  }

  lemma FirstIndexIs(es: seq<Event>, f: Event -> bool, i: nat)
    requires NoneBefore(es, f, i) && (i < |es| ==> f(es[i]))
    ensures FirstIndex(es, f) == i
  {
    var k := FirstIndex(es, f);
    assert k <= i;
    assert i <= k;
  }

  lemma SettledFirst(was: seq<Event>)
    ensures Settled(was, was, 0)
  {
    assert was[0..] == was;
  }

  lemma SettledLast(was: seq<Event>, now: seq<Event>, k: nat)
    requires Settled(was, now, k) && k == |now|
    ensures now == Dedup(was)
  {
    assert now[..k] == now && Dedup(now[k..]) == [];
  }

  lemma SpareLeads(p: Lists)
    requires Sound(p)
    ensures p.spareHead == if p.spare == [] then NIL else p.spare[0]
  {
  }

  /** One more component, with an empty list. */
  function WithEmptyList(p: Lists): Lists {
    p.(heads := p.heads + [NIL], held := p.held + [[]])
  }

  lemma EmptyListSound(p: Lists, events: seq<Event>)
    requires PoolOk(p, events)
    ensures PoolOk(WithEmptyList(p), events)
    ensures Contents(WithEmptyList(p), events) == Contents(p, events) + [[]]
  {
    var q := WithEmptyList(p);
    forall k | 0 <= k < |q.held| ensures HeldOk(q, k) {
      if k < |p.held| {
        assert HeldOk(p, k);
      }
    }
    forall n | 0 <= n < |q.home| ensures OnSomeList(q, n) {
      assert OnSomeList(p, n);
    }
    SoundInRange(q);
    assert forall k :: 0 <= k < |p.held| ==> Contents(q, events)[k] == Contents(p, events)[k];
  }
}
