/**
 The random order in which a list of components is told to change state: every component draws a
 key, and the component with the smallest key left is commanded next and its key spent.
 */
module TransitionOrder {
  import opened Arithmetic
  import opened Sequences

  class Component {
    var key: nat   // the field called private

    constructor ()
      ensures key == 0
    {
      key := 0;
    }
  }

  const NONE := -1

  /** The key drawn from one value of the random generator: never zero, at most 256. */
  function Key(random: nat): (k: nat)
    ensures 1 <= k <= 0x100
  {
    random / 0x2000 % 0x100 + 1
  }

  /** The key is one more than bits 13 to 20 of the random value: `bits` between `low` below and `high` above them. */
  lemma KeyIsBits(random: nat, high: nat, bits: nat, low: nat)
    requires random == 0x20_0000 * high + 0x2000 * bits + low && bits < 0x100 && low < 0x2000
    ensures Key(random) == bits + 1
  {
    DivUnique(random, 0x2000, 0x100 * high + bits, low);
    DivUnique(0x100 * high + bits, 0x100, high, bits);
  }

  /** Position `a` is commanded before `b`: smaller key, or the same key and earlier in the list. */
  predicate Before(keys: seq<nat>, a: nat, b: nat)
    requires a < |keys| && b < |keys|
  {
    keys[a] < keys[b] || (keys[a] == keys[b] && a < b)
  }

  /** `order` names distinct positions of the list, in command order. */
  ghost predicate Ordered(keys: seq<nat>, order: seq<nat>) {
    && (forall i :: 0 <= i < |order| ==> order[i] < |keys|)
    && forall i, j :: 0 <= i < j < |order| ==> Before(keys, order[i], order[j])
  }

  /** A strictly ordered list of as many positions as there are commands every position once. */
  lemma OrderedIsComplete(keys: seq<nat>, order: seq<nat>)
    requires Ordered(keys, order) && |order| == |keys|
    ensures Distinct(order)
    ensures forall p :: 0 <= p < |keys| ==> p in order
  {
    forall p | 0 <= p < |keys| && p !in order ensures false {
      Pigeonhole(order, p, |keys|);
    }
  }

  /** There is only one such order, so the keys decide it. */
  lemma {:induction false} OrderIsUnique(keys: seq<nat>, a: seq<nat>, b: seq<nat>)
    requires Ordered(keys, a) && Ordered(keys, b) && |a| == |b|
    requires forall p :: p in a <==> p in b
    ensures a == b
  {
    if a != [] {
      assert a[0] in b && b[0] in a;
      assert a[0] == b[0];
      assert forall p :: p in a[1..] <==> p in a && p != a[0];
      assert forall p :: p in b[1..] <==> p in b && p != b[0];
      OrderIsUnique(keys, a[1..], b[1..]);
    }
  }

  /** The state of the selection loop when `order` has been commanded. */
  ghost predicate Selected(list: seq<Component>, keys: seq<nat>, order: seq<nat>)
    reads list
  {
    && |keys| == |list| && Ordered(keys, order)
    && (forall p :: 0 <= p < |list| ==> list[p].key == if p in order then 0 else keys[p])
    && (forall p, q :: p in order && 0 <= q < |list| && q !in order ==> Before(keys, p, q))
  }

  /** The inner loop: the first of the components with the smallest key that is not spent. */
  method Smallest(list: seq<Component>) returns (min: int)
    ensures min == NONE <==> forall p :: 0 <= p < |list| ==> list[p].key == 0
    ensures min != NONE ==> 0 <= min < |list| && list[min].key != 0
    ensures min != NONE ==> forall p :: 0 <= p < |list| && list[p].key != 0 ==>
              list[min].key < list[p].key || (list[min].key == list[p].key && min <= p)
  {
    min := NONE;
    for j := 0 to |list|
      invariant min == NONE <==> forall p :: 0 <= p < j ==> list[p].key == 0
      invariant min != NONE ==> 0 <= min < j && list[min].key != 0
      invariant min != NONE ==> forall p :: 0 <= p < j && list[p].key != 0 ==>
                  list[min].key < list[p].key || (list[min].key == list[p].key && min <= p)
    {
      if list[j].key != 0 && (min == NONE || list[min].key > list[j].key) {
        min := j;
      }
    }
  }

  /** One turn of the selection loop. */
  method CommandNext(list: seq<Component>, ghost keys: seq<nat>, ghost order: seq<nat>) returns (min: nat)
    requires Distinct(list) && Selected(list, keys, order) && |order| < |list|
    requires forall p :: 0 <= p < |keys| ==> keys[p] > 0
    modifies list
    ensures Selected(list, keys, order + [min])
  {
    SomeLeft(list, keys, order);
    min := Smallest(list);
    list[min].key := 0;
  }

  /**
   Draw the keys and command the components: each exactly once, in the order of the keys, and all
   keys are spent in the end.
   */
  method CommandAll(list: seq<Component>, randoms: seq<nat>) returns (order: seq<nat>)
    requires Distinct(list) && |randoms| == |list|
    modifies list
    ensures |order| == |list| && Distinct(order) && forall p :: 0 <= p < |list| ==> p in order
    ensures Ordered(seq(|randoms|, i requires 0 <= i < |randoms| => Key(randoms[i])), order)
    ensures forall i, j :: 0 <= i < j < |order| ==>
              Key(randoms[order[i]]) < Key(randoms[order[j]])
              || (Key(randoms[order[i]]) == Key(randoms[order[j]]) && order[i] < order[j])
    ensures forall p :: 0 <= p < |list| ==> list[p].key == 0
  {
    ghost var keys := seq(|randoms|, i requires 0 <= i < |randoms| => Key(randoms[i]));
    for i := 0 to |list|
      invariant forall p :: 0 <= p < i ==> list[p].key == keys[p]
    {
      list[i].key := Key(randoms[i]);
    }
    order := [];
    for i := 0 to |list|
      invariant |order| == i && Selected(list, keys, order)
    {
      var min := CommandNext(list, keys, order);
      order := order + [min];
    }
    OrderedIsComplete(keys, order);
  }

  lemma SomeLeft(list: seq<Component>, keys: seq<nat>, order: seq<nat>)
    requires Selected(list, keys, order) && |order| < |list|
    requires forall p :: 0 <= p < |keys| ==> keys[p] > 0
    ensures exists p :: 0 <= p < |list| && list[p].key != 0
  {
    if forall p :: 0 <= p < |list| ==> p in order {
      CoverNeeds(order, |list|);
    }
  }
}
