/** Whole runs of the buddy allocator (kernel/buddy.c): the blocks a run hands out tile the heap
    together with the metadata and the free lists, and no byte is ever lost. */
module BuddyRuns {
  import opened Options
  import opened BuddyTree
  import opened BuddyOps

  // ---------------------------------------------------------------- the leaves tile the heap

  /** A block nobody has split: live, or on a free list. */
  predicate Leaf(s: State, b: Blk) {
    b in Live(s) || OnList(s, b)
  }

  lemma {:induction false} SplitAbove(s: State, j: nat, k: nat, x: nat)
    requires Wf(s) && j <= k <= s.top && BlkAt(j, x) in s.split
    ensures BlkAt(k, x) in s.split
    decreases k - j
  {
    if j < k {
      ParentAt(j, x);
      assert InTree(s.top, s.split, BlkAt(j, x));
      SplitAbove(s, j + 1, k, x);
    }
  }

  lemma LeafFacts(s: State, b: Blk)
    requires Wf(s) && Leaf(s, b)
    ensures b.k < s.top && b !in s.split && Parent(b) in s.split
  {
    assert InTree(s.top, s.split, b) && SpineAt(s.split, s.top);
  }

  lemma LeafBelow(s: State, b: Blk, c: Blk, x: nat)
    requires Wf(s) && Leaf(s, b) && Leaf(s, c) && b.k < c.k
    ensures !(Covers(b, x) && Covers(c, x))
  {
    if Covers(b, x) && Covers(c, x) {
      CoversAt(b, x);
      CoversAt(c, x);
      LeafFacts(s, b);
      LeafFacts(s, c);
      ParentAt(b.k, x);
      SplitAbove(s, b.k + 1, c.k, x);
    }
  }

  lemma LeavesDisjoint(s: State, b: Blk, c: Blk)
    requires Wf(s) && Leaf(s, b) && Leaf(s, c) && b != c
    ensures Disjoint(b, c)
  {
    forall x: nat
      ensures !(Covers(b, x) && Covers(c, x))
    {
      if b.k < c.k {
        LeafBelow(s, b, c, x);
      } else if c.k < b.k {
        LeafBelow(s, c, b, x);
      } else {
        CoversAt(b, x);
        CoversAt(c, x);
      }
    }
  }

  lemma RootCovers(s: State, x: nat)
    requires Wf(s)
    ensures x < BlkSize(s.top) <==> BlkAt(s.top, x) in s.split
  {
    CoversAt(Blk(s.top, 0), x);
    assert SpineAt(s.split, s.top);
    assert InTree(s.top, s.split, BlkAt(s.top, x)) <==> BlkAt(s.top, x).i == 0;
  }

  lemma {:induction false} LeafUnder(s: State, k: nat, x: nat) returns (b: Blk)
    requires Wf(s) && k <= s.top && BlkAt(k, x) in s.split
    ensures Leaf(s, b) && Covers(b, x)
    decreases k
  {
    ParentAt(k - 1, x);
    b := BlkAt(k - 1, x);
    if b in s.split {
      b := LeafUnder(s, k - 1, x);
    } else {
      CoversAt(b, x);
      assert InTree(s.top, s.split, b);
      assert OnList(s, b) <==> b !in s.alloc;
    }
  }

  /** Every byte of the heap lies in exactly one live or free block, and no block leaves it. */
  lemma LeavesTileHeap(s: State, x: nat)
    requires Wf(s)
    ensures x < BlkSize(s.top) <==> exists b :: Leaf(s, b) && Covers(b, x)
    ensures forall b, c | Leaf(s, b) && Covers(b, x) && Leaf(s, c) && Covers(c, x) :: b == c
  {
    RootCovers(s, x);
    if x < BlkSize(s.top) {
      var b := LeafUnder(s, s.top, x);
    }
    forall b | Leaf(s, b) && Covers(b, x)
      ensures x < BlkSize(s.top)
    {
      CoversAt(b, x);
      LeafFacts(s, b);
      ParentAt(b.k, x);
      SplitAbove(s, b.k + 1, s.top, x);
    }
    forall b, c | Leaf(s, b) && Covers(b, x) && Leaf(s, c) && Covers(c, x)
      ensures b == c
    {
      if b != c {
        LeavesDisjoint(s, b, c);
      }
    }
  }

  // ---------------------------------------------------------------- firstk

  ghost predicate IsFirstK(n: nat, k: nat) {
    n <= BlkSize(k) && (k > 0 ==> BlkSize(k - 1) < n)
  }

  function FirstKFrom(n: nat, k: nat): (r: nat)
    requires k > 0 ==> BlkSize(k - 1) < n
    ensures IsFirstK(n, r)
    decreases if BlkSize(k) < n then n - BlkSize(k) else 0
  {
    if BlkSize(k) < n then FirstKFrom(n, k + 1) else k
  }

  function FirstK(n: nat): (r: nat)
    ensures IsFirstK(n, r)
  {
    FirstKFrom(n, 0)
  }

  // ---------------------------------------------------------------- runs

  /** The tree, and the blocks the clients own with the size each was requested at. */
  datatype Heap = Heap(s: State, owned: map<Blk, nat>)

  datatype Call = BdMalloc(nbytes: nat) | BdFree(p: nat)

  /** Clients free only what they were given. */
  predicate Legal(h: Heap, call: Call) {
    call.BdFree? ==> exists b | b in h.owned :: Addr(b) == call.p
  }

  function Exec(h: Heap, call: Call): Heap
    requires |h.s.free| == h.s.top + 1
  {
    match call
    case BdMalloc(n) =>
      var (t, r) := Malloc(h.s, FirstK(n));
      Heap(t, if r.Some? then h.owned[r.value := n] else h.owned)
    case BdFree(p) =>
      var k := Size(h.s, p);
      if k.None? || k.value > h.s.top then h
      else Heap(FreeUp(h.s, BlkAt(k.value, p)), h.owned - {BlkAt(k.value, p)})
  }

  /** The live blocks are the metadata and what the clients own, and the bytes add up. */
  ghost predicate HeapInv(h: Heap, meta: set<Blk>, total: nat) {
    && Wf(h.s)
    && Blk(0, 0) in meta
    && meta !! h.owned.Keys
    && Live(h.s) == meta + h.owned.Keys
    && FreeBytes(h.s.free) + Bytes(Live(h.s)) == total
    && forall b | b in h.owned :: IsFirstK(h.owned[b], b.k)
  }

  lemma ExecKeepsInv(h: Heap, call: Call, meta: set<Blk>, total: nat)
    requires HeapInv(h, meta, total) && Legal(h, call)
    ensures HeapInv(Exec(h, call), meta, total) && Exec(h, call).s.top == h.s.top
  {
    match call
    case BdMalloc(n) =>
      var fk := FirstK(n);
      MallocStep(h.s, fk);
      var (t, r) := Malloc(h.s, fk);
      if r.Some? {
        BytesAdd(Live(h.s), r.value);
      }
    case BdFree(p) =>
      var b :| b in h.owned && Addr(b) == p;
      SizeOfLive(h.s, b);
      AtAddr(b);
      FreeStep(h.s, b);
      BytesRemove(Live(h.s), b);
      assert meta + h.owned.Keys - {b} == meta + (h.owned - {b}).Keys;
  }

  ghost predicate LegalRun(h: Heap, calls: seq<Call>)
    decreases |calls|
  {
    calls == [] || (|h.s.free| == h.s.top + 1 && Legal(h, calls[0]) && LegalRun(Exec(h, calls[0]), calls[1..]))
  }

  ghost function RunCalls(h: Heap, calls: seq<Call>): Heap
    requires LegalRun(h, calls)
    decreases |calls|
  {
    if calls == [] then h else RunCalls(Exec(h, calls[0]), calls[1..])
  }

  /** What clients rely on: aligned, big enough, disjoint from each other, from the metadata and
      from every free block, inside the heap. */
  ghost predicate ClientView(h: Heap, meta: set<Blk>) {
    && (forall b | b in h.owned :: Addr(b) % BlkSize(b.k) == 0 && h.owned[b] <= BlkSize(b.k))
    && (forall b, c | b in h.owned && (c in h.owned || c in meta || OnList(h.s, c)) && b != c :: Disjoint(b, c))
    && (forall b, x: nat | b in h.owned && Covers(b, x) :: x < BlkSize(h.s.top))
  }

  lemma InvGivesView(h: Heap, meta: set<Blk>, total: nat)
    requires HeapInv(h, meta, total)
    ensures ClientView(h, meta)
  {
    forall b | b in h.owned
      ensures Addr(b) % BlkSize(b.k) == 0
    {
      AtAddr(b);
      QuotientBounds(Addr(b), BlkSize(b.k));
    }
    forall b, c | b in h.owned && (c in h.owned || c in meta || OnList(h.s, c)) && b != c
      ensures Disjoint(b, c)
    {
      LeavesDisjoint(h.s, b, c);
    }
    forall b, x: nat | b in h.owned && Covers(b, x)
      ensures x < BlkSize(h.s.top)
    {
      LeavesTileHeap(h.s, x);
      assert Leaf(h.s, b);
    }
  }

  /** Safety over every run: the invariant holds at the end, the clients' view is sound, and
      free plus live bytes are what they were at the start. */
  lemma {:induction false} RunsAreSafe(h: Heap, calls: seq<Call>, meta: set<Blk>, total: nat)
    requires HeapInv(h, meta, total) && LegalRun(h, calls)
    ensures HeapInv(RunCalls(h, calls), meta, total)
    ensures ClientView(RunCalls(h, calls), meta)
    decreases |calls|
  {
    if calls == [] {
      InvGivesView(h, meta, total);
    } else {
      ExecKeepsInv(h, calls[0], meta, total);
      RunsAreSafe(Exec(h, calls[0]), calls[1..], meta, total);
    }
  }
}
