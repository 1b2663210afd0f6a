/** The few notions about sequences that several components share. */
module Sequences {

  predicate Distinct<T(==)>(s: seq<T>) {
    forall i, j :: 0 <= i < j < |s| ==> s[i] != s[j]
  }

  function RemoveAt<T>(s: seq<T>, i: nat): seq<T>
    requires i < |s|
  {
    s[..i] + s[i + 1..]
  }

  /** Moving the border between a sequence's parts by one. */
  lemma Shift<T>(s: seq<T>, k: nat)
    requires k < |s|
    ensures s[..k + 1] == s[..k] + [s[k]]
    ensures s[k..] == [s[k]] + s[k + 1..] && s[k..][0] == s[k] && s[k..][1..] == s[k + 1..]
  {
  }

  lemma RemoveKeepsDistinct<T>(s: seq<T>, i: nat)
    requires Distinct(s) && i < |s|
    ensures Distinct(RemoveAt(s, i))
  {
    var r := RemoveAt(s, i);
    assert forall a :: 0 <= a < |r| ==> r[a] == s[if a < i then a else a + 1];
  }

  lemma RemoveKeeps<T>(s: seq<T>, i: nat, x: T)
    requires i < |s| && x in s && x != s[i]
    ensures x in RemoveAt(s, i)
  {
    var j :| 0 <= j < |s| && s[j] == x;
    assert RemoveAt(s, i)[if j < i then j else j - 1] == x;
  }

  /** Distinct numbers below `n` with one missing are fewer than `n`. */
  lemma {:induction false} Pigeonhole(s: seq<nat>, missing: nat, n: nat)
    requires Distinct(s) && missing < n && missing !in s && forall i :: 0 <= i < |s| ==> s[i] < n
    ensures |s| < n
    decreases n
  {
    var top := n - 1;
    if top in s {
      var k :| 0 <= k < |s| && s[k] == top;
      var t := RemoveAt(s, k);
      assert forall i :: 0 <= i < |t| ==> t[i] == s[if i < k then i else i + 1];
      Pigeonhole(t, missing, top);
    } else if missing < top {
      Pigeonhole(s, missing, top);
    } else if s != [] {
      Pigeonhole(s[1..], s[0], top);
    }
  }

  /** A sequence that names every number below `n` is at least `n` long. */
  lemma {:induction false} CoverNeeds(s: seq<nat>, n: nat)
    requires forall p :: 0 <= p < n ==> p in s
    ensures n <= |s|
    decreases n
  {
    if n > 0 {
      assert n - 1 in s;
      var k :| 0 <= k < |s| && s[k] == n - 1;
      var t := RemoveAt(s, k);
      forall p | 0 <= p < n - 1 ensures p in t {
        assert p in s;
        var i :| 0 <= i < |s| && s[i] == p;
        assert t[if i < k then i else i - 1] == p;
      }
      CoverNeeds(t, n - 1);
    }
  }

  function Reverse<T>(s: seq<T>): (r: seq<T>)
    ensures |r| == |s|
  {
    if s == [] then [] else Reverse(s[1..]) + [s[0]]
  }

  lemma {:induction false} ReverseSnoc<T>(s: seq<T>, x: T)
    ensures Reverse(s + [x]) == [x] + Reverse(s)
  {
    if s != [] {
      ReverseSnoc(s[1..], x);
      assert (s + [x])[1..] == s[1..] + [x];
    }
  }

  lemma {:induction false} ReversePermutes<T>(s: seq<T>)
    ensures multiset(Reverse(s)) == multiset(s)
  {
    if s != [] {
      ReversePermutes(s[1..]);
      assert s == [s[0]] + s[1..];
    }
  }

  function Elements<T>(s: seq<T>): set<T> {
    set x | x in s
  }

  lemma {:induction false} DistinctCard<T>(s: seq<T>)
    requires Distinct(s)
    ensures |Elements(s)| == |s|
  {
    if s == [] {
      assert Elements(s) == {};
    } else {
      var rest := s[1..];
      DistinctCard(rest);
      assert s[0] !in rest;
      assert Elements(s) == Elements(rest) + {s[0]};
    }
  }
}
