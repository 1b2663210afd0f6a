/**
 The encoder's ring of frame buffers: a circular array with one moving index that serves as a
 stack. Buffers are numbered by their place in the pool; NONE is the null pointer.
 */
module FramePool {
  import opened Arithmetic
  import opened Sequences

  const NUM_FRAME_BUFS := 32
  const NONE := -1

  /** One step around the array. */
  function Up(index: int): (i: int)
    requires 0 <= index < NUM_FRAME_BUFS
    ensures i == if index == NUM_FRAME_BUFS - 1 then 0 else index + 1
  {
    (index + 1) % NUM_FRAME_BUFS
  }

  function Down(index: int): (i: int)
    requires 0 <= index < NUM_FRAME_BUFS
    ensures i == if index == 0 then NUM_FRAME_BUFS - 1 else index - 1
  {
    (index - 1) % NUM_FRAME_BUFS
  }

  /** The place of slot `j`, counted from `index` around the end of the array. */
  function Place(index: int, j: int): (k: nat)
    requires 0 <= index < NUM_FRAME_BUFS && 0 <= j < NUM_FRAME_BUFS
    ensures k < NUM_FRAME_BUFS
  {
    if j < index then j + NUM_FRAME_BUFS - index else j - index
  }

  function At(stack: seq<nat>, k: nat): int {
    if k < |stack| then stack[k] else NONE
  }

  /** The free buffers fill the slots from `index` on, around the end of the array; the rest is null. */
  ghost predicate Circular(slots: seq<int>, index: int, stack: seq<nat>) {
    && |slots| == NUM_FRAME_BUFS && 0 <= index < NUM_FRAME_BUFS && |stack| <= NUM_FRAME_BUFS
    && forall j :: 0 <= j < NUM_FRAME_BUFS ==> slots[j] == At(stack, Place(index, j))
  }

  /** Free and taken buffers are all the buffers, each once. */
  ghost predicate Accounted(stack: seq<nat>, taken: set<nat>) {
    && Distinct(stack)
    && (forall k :: 0 <= k < |stack| ==> stack[k] < NUM_FRAME_BUFS && stack[k] !in taken)
    && (forall b :: b in taken ==> b < NUM_FRAME_BUFS)
    && (forall b :: 0 <= b < NUM_FRAME_BUFS ==> b in stack || b in taken)
  }

  lemma CircularPop(slots: seq<int>, index: int, stack: seq<nat>)
    requires Circular(slots, index, stack)
    ensures slots[index] == At(stack, 0)
    ensures Circular(slots[index := NONE], Up(index), if stack == [] then [] else stack[1..])
  {
    var index', stack' := Up(index), if stack == [] then [] else stack[1..];
    assert Place(index, index) == 0;
    forall j | 0 <= j < NUM_FRAME_BUFS
      ensures slots[index := NONE][j] == At(stack', Place(index', j))
    {
      assert Place(index', j) == if j == index then NUM_FRAME_BUFS - 1 else Place(index, j) - 1;
    }
  }

  lemma CircularPush(slots: seq<int>, index: int, stack: seq<nat>, b: nat)
    requires Circular(slots, index, stack) && |stack| < NUM_FRAME_BUFS
    ensures Circular(slots[Down(index) := b], Down(index), [b] + stack)
  {
    var index' := Down(index);
    forall j | 0 <= j < NUM_FRAME_BUFS
      ensures slots[index' := b][j] == At([b] + stack, Place(index', j))
    {
      assert Place(index', j) == if j == index' then 0 else Place(index, j) + 1;
    }
  }

  /** The pool as it is initialised. */
  function AllBuffers(): (s: seq<nat>)
    ensures |s| == NUM_FRAME_BUFS && forall i :: 0 <= i < |s| ==> s[i] == i
  {
    seq(NUM_FRAME_BUFS, i requires 0 <= i < NUM_FRAME_BUFS => i)
  }

  class EncHandle {
    const slots: array<int>      // myfbarray
    var index: int               // myfb_index
    ghost var stack: seq<nat>
    ghost var taken: set<nat>

    ghost predicate Valid()
      reads this, slots
    {
      slots.Length == NUM_FRAME_BUFS && Circular(slots[..], index, stack) && Accounted(stack, taken)
    }

    constructor ()
      ensures Valid() && fresh(slots)
      ensures |stack| == 32 && (forall i :: 0 <= i < 32 ==> stack[i] == i) && stack == AllBuffers() && taken == {}
    {
      slots := new int[NUM_FRAME_BUFS];
      index, stack, taken := 0, AllBuffers(), {};
      new;
      for i := 0 to NUM_FRAME_BUFS
        invariant index == 0 && stack == AllBuffers() && taken == {}
        invariant forall k :: 0 <= k < i ==> slots[k] == k
      {
        slots[i] := i;
      }
      assert forall j :: 0 <= j < NUM_FRAME_BUFS ==> Place(0, j) == j;
      forall b | 0 <= b < NUM_FRAME_BUFS ensures b in stack {
        assert stack[b] == b;
      }
    }

    /** Pop; on an empty pool the index still moves, and nothing else does. */
    method GetFramebuf() returns (b: int)
      requires Valid()
      modifies this, slots
      ensures 0 <= old(index) < NUM_FRAME_BUFS
      ensures Valid() && index == Up(old(index))
      ensures if old(stack) == [] then b == NONE && stack == [] && taken == old(taken)
              else b == old(stack)[0] && stack == old(stack)[1..] && taken == old(taken) + {b}
    {
      CircularPop(slots[..], index, stack);
      b := slots[index];
      slots[index] := NONE;
      index := Up(index);
      if stack != [] {
        stack, taken := stack[1..], taken + {b};
      }
    }

    /** Push a buffer that is out. */
    method PutFramebuf(b: nat)
      requires Valid() && b in taken
      modifies this, slots
      ensures Valid() && stack == [b] + old(stack) && taken == old(taken) - {b}
    {
      Pigeonhole(stack, b, NUM_FRAME_BUFS);
      CircularPush(slots[..], index, stack, b);
      index := Down(index);
      slots[index] := b;
      stack, taken := [b] + stack, taken - {b};
    }

    /** Take a buffer and give it memory; when the memory is refused the buffer is not put back. */
    method AllocFramebuf(memory: bool) returns (b: int)
      requires Valid()
      modifies this, slots
      ensures Valid()
      ensures b == if old(stack) != [] && memory then old(stack)[0] else NONE
      ensures stack == if old(stack) == [] then [] else old(stack)[1..]
      ensures taken == if old(stack) == [] then old(taken) else old(taken) + {old(stack)[0]}
    {
      b := GetFramebuf();
      if b != NONE && !memory {
        b := NONE;
      }
    }

    /** Give one buffer back; the null pointer is ignored. */
    method FreeFramebuf(b: int)
      requires Valid() && (b != NONE ==> b >= 0 && b in taken)
      modifies this, slots
      ensures Valid()
      ensures stack == (if b == NONE then [] else [b as nat]) + old(stack)
      ensures taken == if b == NONE then old(taken) else old(taken) - {b}
    {
      if b != NONE {
        PutFramebuf(b);
      }
    }

    /** What the frame table holds: some taken buffers, each once, then null pointers. */
    ghost predicate Table(table: seq<int>, got: seq<nat>)
      reads this
    {
      && |got| <= |table| && Distinct(got)
      && (forall i :: 0 <= i < |got| ==> table[i] == got[i] && got[i] in taken)
      && (forall i :: |got| <= i < |table| ==> table[i] == NONE)
    }

    /** One turn of the filling loop. */
    method AllocOne(table: array<int>, i: nat, memory: bool, ghost got: seq<nat>) returns (ok: bool)
      requires Valid() && table != slots && i < table.Length && |got| == i && Table(table[..], got)
      modifies this, slots, table
      ensures Valid() && (ok <==> old(stack) != [] && memory)
      ensures stack == if old(stack) == [] then [] else old(stack)[1..]
      ensures Table(table[..], if ok then got + [old(stack)[0]] else got)
    {
      var b := AllocFramebuf(memory);
      ok := b != NONE;
      if ok {
        table[i] := b;
      }
    }

    /** Fill the table from `from` on, until a buffer or its memory is refused. */
    method AllocMany(table: array<int>, from: nat, to: nat, memory: seq<bool>, ghost got: seq<nat>)
        returns (ok: bool, ghost got': seq<nat>)
      requires Valid() && table != slots && from <= to <= table.Length == |memory|
      requires |got| == from && Table(table[..], got)
      modifies this, slots, table
      ensures Valid() && Table(table[..], got') && (ok ==> |got'| == to)
      ensures Fill(memory, from, to, old(stack), got) == Filling(ok, got', stack)
    {
      ghost var plan := Fill(memory, from, to, stack, got);
      got' := got;
      for i := from to to
        invariant Valid() && |got'| == i && Table(table[..], got')
        invariant Fill(memory, i, to, stack, got') == plan
      {
        ghost var top := if stack == [] then 0 else stack[0];
        ok := AllocOne(table, i, memory[i], got');
        if !ok {
          return false, got';
        }
        got' := got' + [top];
      }
      ok := true;
    }

    /** Half-way through the freeing: the first `i` entries are back on the stack, the last one on top. */
    ghost predicate Freeing(table: seq<int>, got: seq<nat>, i: nat, s: seq<nat>, t: set<nat>)
      reads this, slots
    {
      && Valid() && |got| <= |table| && Distinct(got)
      && (forall k :: 0 <= k < |got| ==> table[k] == got[k] && got[k] in t)
      && (forall k :: |got| <= k < |table| ==> table[k] == NONE)
      && stack == Freed(got, i) + s
      && taken == t - Elements(got[..Min(i, |got|)])
    }

    method FreeOne(table: array<int>, ghost got: seq<nat>, i: nat, ghost s: seq<nat>, ghost t: set<nat>)
      requires table != slots && i < table.Length && Freeing(table[..], got, i, s, t)
      modifies this, slots
      ensures Freeing(table[..], got, i + 1, s, t)
    {
      ghost var entries := table[..];
      FreedStep(got, i);
      assert table[i] == entries[i] == if i < |got| then got[i] else NONE;
      FreeFramebuf(table[i]);
      assert table[..] == entries;
    }

    /** Free the table in index order. */
    method FreeMany(table: array<int>, ghost got: seq<nat>)
      requires Valid() && table != slots && Table(table[..], got)
      modifies this, slots
      ensures Valid() && stack == Reverse(got) + old(stack)
      ensures taken == old(taken) - Elements(got)
    {
      ghost var s, t := stack, taken;
      assert Freed(got, 0) + s == s;
      for i := 0 to table.Length
        invariant Freeing(table[..], got, i, s, t)
      {
        FreeOne(table, got, i, s, t);
      }
      assert got[..|got|] == got;
    }

    /** The allocation proper: all but the source frame, the registration, the source frame. */
    method TryAllocate(table: array<int>, memory: seq<bool>, registered: bool) returns (ok: bool, ghost got: seq<nat>)
      requires Valid() && table != slots && table.Length == |memory| > 0 && Table(table[..], [])
      modifies this, slots, table
      ensures Valid() && Table(table[..], got)
      ensures FillAll(memory, registered, old(stack)) == Filling(ok, got, stack)
    {
      var src := |memory| - 1;
      ok, got := AllocMany(table, 0, src, memory, []);
      if ok {
        if !registered {
          return false, got;
        }
        ok, got := AllocMany(table, src, src + 1, memory, got);
      }
    }

    /**
     Allocate every frame buffer the encoder needs, the source frame last; `memory` says which
     requests for memory are granted, `registered` whether the hardware accepts the buffers. On
     failure everything allocated so far is freed again.
     */
    method AllocateFramebuffers(minCount: nat, mvc: bool, memory: seq<bool>, registered: bool)
        returns (ret: int, table: array<int>)
      requires Valid() && |memory| == Total(minCount, mvc)
      modifies this, slots
      ensures Valid() && fresh(table) && table.Length == |memory| == minCount + (if mvc then 5 else 3)
      ensures ret == if registered && Granted(memory, 0, |memory|, |old(stack)|) == |memory| then 0 else -1
      ensures ret == 0 ==>
        |memory| <= |old(stack)| && Table(table[..], old(stack)[..|memory|]) && stack == old(stack)[|memory|..]
      ensures ret == -1 ==>
        var n := Reached(memory, |old(stack)|);
        stack == Reverse(old(stack)[..n]) + old(stack)[n + Lost(memory, |old(stack)|, registered)..]
    {
      table := new int[|memory|](_ => NONE);
      var ok;
      ghost var got;
      FillAllIs(memory, registered, stack);
      ok, got := TryAllocate(table, memory, registered);
      if ok {
        return 0, table;
      }
      FreeMany(table, got);
      ret := -1;
    }
  }

  /**
   An encoder opened and closed again: the pool gets back everything except the one buffer whose
   memory was refused, and the buffers that were used come back in reverse order.
   */
  method OpenAndClose(h: EncHandle, minCount: nat, mvc: bool, memory: seq<bool>, registered: bool) returns (ret: int)
    requires h.Valid() && |memory| == Total(minCount, mvc)
    modifies h, h.slots
    ensures h.Valid()
    ensures ret == 0 ==> |memory| <= |old(h.stack)| && h.stack == Reverse(old(h.stack)[..|memory|]) + old(h.stack)[|memory|..]
    ensures |h.stack| == |old(h.stack)| - if ret == 0 then 0 else Lost(memory, |old(h.stack)|, registered)
    ensures multiset(h.stack) <= multiset(old(h.stack))
    ensures ret == 0 ==> multiset(h.stack) == multiset(old(h.stack))
  {
    ghost var s, t := h.stack, |memory|;
    var table;
    ret, table := h.AllocateFramebuffers(minCount, mvc, memory, registered);
    if ret == 0 {
      h.FreeMany(table, s[..t]);
      BackOnStack(s, t, t);
    } else {
      ghost var n := Reached(memory, |s|);
      BackOnStack(s, n, n + Lost(memory, |s|, registered));
    }
  }

  /** Reversing a part and dropping what is between leaves no more than was there. */
  lemma BackOnStack(s: seq<nat>, n: nat, m: nat)
    requires n <= m <= |s|
    ensures multiset(Reverse(s[..n]) + s[m..]) <= multiset(s)
    ensures n == m ==> multiset(Reverse(s[..n]) + s[m..]) == multiset(s)
  {
    ReversePermutes(s[..n]);
    assert s == s[..n] + s[n..m] + s[m..];
  }

  function Total(minCount: nat, mvc: bool): nat {
    minCount + (if mvc then 4 else 2) + 1
  }

  /** What freeing the first `i` table entries puts on the stack. */
  function Freed(got: seq<nat>, i: nat): seq<nat> {
    Reverse(got[..Min(i, |got|)])
  }

  lemma FreedStep(got: seq<nat>, i: nat)
    requires Distinct(got)
    ensures i >= |got| ==> Freed(got, i + 1) == Freed(got, i) && Min(i + 1, |got|) == Min(i, |got|)
    ensures i < |got| ==> Freed(got, i + 1) == [got[i]] + Freed(got, i)
    ensures i < |got| ==> Elements(got[..i + 1]) == Elements(got[..i]) + {got[i]} && got[i] !in got[..i]
  {
    if i < |got| {
      assert got[..i + 1] == got[..i] + [got[i]];
      ReverseSnoc(got[..i], got[i]);
    }
  }

  /** What the filling loop has achieved in the end: its answer, the buffers taken, and those left. */
  datatype Filling = Filling(ok: bool, got: seq<nat>, left: seq<nat>)

  /** The loop from entry `i` on. */
  function Fill(memory: seq<bool>, i: nat, to: nat, stack: seq<nat>, got: seq<nat>): Filling
    requires i <= to <= |memory|
    decreases |memory| - i
  {
    if i == to then Filling(true, got, stack)
    else if stack == [] then Filling(false, got, [])
    else if !memory[i] then Filling(false, got, stack[1..])
    else Fill(memory, i + 1, to, stack[1..], got + [stack[0]])
  }

  /** It moves buffers from the top of the stack to the table until memory or the pool runs out. */
  lemma {:induction false} FillIs(memory: seq<bool>, from: nat, to: nat, s: seq<nat>, got: seq<nat>)
    requires from <= to <= |memory|
    ensures var n := Granted(memory, from, to, |s|);
      && Fill(memory, from, to, s, got).ok == (n == to)
      && Fill(memory, from, to, s, got).got == got + s[..n - from]
      && Fill(memory, from, to, s, got).left == s[if n == to || n - from == |s| then n - from else n - from + 1..]
    decreases |memory| - from
  {
    if from < to && s != [] && memory[from] {
      FillIs(memory, from + 1, to, s[1..], got + [s[0]]);
      var n := Granted(memory, from, to, |s|);
      assert got + [s[0]] + s[1..][..n - from - 1] == got + s[..n - from];
    } else {
      assert got + s[..0] == got;
    }
  }

  /** Both loops, with the registration between them. */
  function FillAll(memory: seq<bool>, registered: bool, stack: seq<nat>): Filling
    requires memory != []
  {
    var most := Fill(memory, 0, |memory| - 1, stack, []);
    if !most.ok then most
    else if !registered then Filling(false, most.got, most.left)
    else Fill(memory, |memory| - 1, |memory|, most.left, most.got)
  }

  /** All or, with what was taken until then in the table, nothing. */
  lemma FillAllIs(memory: seq<bool>, registered: bool, s: seq<nat>)
    requires memory != []
    ensures Granted(memory, 0, |memory|, |s|) == |memory| ==> |memory| <= |s|
    ensures var n := Reached(memory, |s|);
      FillAll(memory, registered, s) ==
      if registered && Granted(memory, 0, |memory|, |s|) == |memory| then Filling(true, s[..|memory|], s[|memory|..])
      else Filling(false, s[..n], s[n + Lost(memory, |s|, registered)..])
  {
    var src, n := |memory| - 1, Reached(memory, |s|);
    GrantedSplit(memory, |s|);
    FillIs(memory, 0, src, s, []);
    assert [] + s[..n] == s[..n];
    if n == src && registered {
      LastFill(memory, s);
    }
  }

  /** The second loop has one turn. */
  lemma LastFill(memory: seq<bool>, s: seq<nat>)
    requires memory != [] && |memory| - 1 <= |s|
    ensures var src := |memory| - 1;
      Fill(memory, src, |memory|, s[src..], s[..src]) ==
      if |s| == src then Filling(false, s[..src], s[src..])
      else if memory[src] then Filling(true, s[..|memory|], s[|memory|..])
      else Filling(false, s[..src], s[|memory|..])
  {
    var src := |memory| - 1;
    if src < |s| {
      Shift(s, src);
    }
  }

  /** How many buffers a failing allocation has in its table. */
  function Reached(memory: seq<bool>, free: nat): nat
    requires memory != []
  {
    Granted(memory, 0, |memory| - 1, free)
  }

  /** A failing allocation loses a buffer exactly when memory was refused while the pool was not empty. */
  function Lost(memory: seq<bool>, free: nat, registered: bool): (k: nat)
    requires memory != []
    ensures k <= 1 && Reached(memory, free) + k <= free
  {
    var n := Reached(memory, free);
    if n < free && !memory[n] && (n < |memory| - 1 || registered) then 1 else 0
  }

  lemma {:induction false} GrantedTo(memory: seq<bool>, from: nat, free: nat)
    requires from < |memory|
    ensures var n := Granted(memory, from, |memory| - 1, free);
      Granted(memory, from, |memory|, free)
        == if n < |memory| - 1 then n else Granted(memory, n, |memory|, free - (n - from))
    decreases |memory| - from
  {
    if from < |memory| - 1 && free > 0 && memory[from] {
      GrantedTo(memory, from + 1, free - 1);
    }
  }

  lemma GrantedSplit(memory: seq<bool>, free: nat)
    requires memory != []
    ensures var n := Reached(memory, free);
      Granted(memory, 0, |memory|, free)
        == if n < |memory| - 1 then n else Granted(memory, n, |memory|, free - n)
  {
    GrantedTo(memory, 0, free);
  }

  /** How far an allocation from `from` to `to` gets: memory must be granted and `free` buffers must last. */
  function Granted(memory: seq<bool>, from: nat, to: nat, free: nat): (n: nat)
    requires from <= to <= |memory|
    ensures from <= n <= to && n - from <= free
    ensures forall i :: from <= i < n ==> memory[i]
    ensures n < to ==> !memory[n] || n - from == free
    decreases |memory| - from
  {
    if from == to || free == 0 || !memory[from] then from else Granted(memory, from + 1, to, free - 1)
  }
}
