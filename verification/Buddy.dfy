/** The allocator of kernel/buddy.c in its own form: packed bit arrays, intrusive free lists and
    loops, each method proved to compute the tree function of BuddyOps. */
module Buddy {
  import opened Options
  import Bits
  import List
  import opened BuddyTree
  import opened BuddyOps
  import opened BuddyRuns
  import opened BuddyInit
  import opened BuddyMeta

  const UINT64: nat := 0x1_0000_0000_0000_0000
  const HALF: nat := 0x8000_0000_0000_0000

  // ---------------------------------------------------------------- firstk

  method Firstk(n: nat) returns (k: nat)
    requires n <= HALF
    ensures k == FirstK(n)
  {
    k := 0;
    var size := LEAF_SIZE;
    while size < n
      invariant size == BlkSize(k) && size < UINT64
      invariant k > 0 ==> BlkSize(k - 1) < n
      invariant FirstK(n) == FirstKFrom(n, k)
      decreases n - size
    {
      k := k + 1;
      size := size * 2 % UINT64;
    }
  }

  /** The value of `size` after `j` rounds of the loop in `firstk`, with its 64-bit wrap-around. */
  function SizeAfter(j: nat): nat {
    if j == 0 then LEAF_SIZE else SizeAfter(j - 1) * 2 % UINT64
  }

  lemma Pow2Of63()
    ensures Pow2(63) == HALF
  {
    assert Pow2(7) == 128;
    Pow2Add(7, 7);
    Pow2Add(14, 7);
    Pow2Add(21, 21);
    Pow2Add(42, 21);
  }

  lemma TwiceWraps(x: nat)
    requires x <= 0x8000_0000_0000_0000
    ensures x < 0x8000_0000_0000_0000 ==> x * 2 % 0x1_0000_0000_0000_0000 == x * 2
    ensures x == 0 || x == 0x8000_0000_0000_0000 ==> x * 2 % 0x1_0000_0000_0000_0000 == 0
  {
  }

  lemma {:induction false} SizeAfterIs(j: nat)
    ensures j < 60 ==> SizeAfter(j) == Pow2(j + 4)
    ensures j >= 60 ==> SizeAfter(j) == 0
  {
    if j == 0 {
      assert Pow2(4) == 16;
    } else {
      SizeAfterIs(j - 1);
      Pow2Bound(j);
      TwiceWraps(SizeAfter(j - 1));
    }
  }

  lemma Pow2Bound(j: nat)
    requires j > 0
    ensures Pow2(j + 4) == 2 * Pow2(j + 3)
    ensures j < 60 ==> Pow2(j + 3) < HALF
    ensures j == 60 ==> Pow2(j + 3) == HALF
  {
    Pow2Of63();
    if j < 60 { Pow2Mono(j + 4, 63); }
  }

  /** The search in `firstk` ends exactly for requests of at most half the 64-bit range. */
  lemma FirstkEndsIff(n: nat)
    requires n < UINT64
    ensures (exists j: nat :: SizeAfter(j) >= n) <==> n <= HALF
  {
    var last := 59;
    SizeAfterIs(last);
    Pow2Of63();
    assert SizeAfter(last) == HALF;
    forall j: nat
      ensures SizeAfter(j) <= HALF
    {
      SizeAfterIs(j);
      if j < 60 { Pow2Mono(j + 4, 63); }
    }
  }

  method Log2(n: nat) returns (k: nat)
    requires n > 0
    ensures Pow2(k) <= n < Pow2(k + 1)
  {
    k := 0;
    var m := n;
    while m > 1
      invariant m >= 1 && m * Pow2(k) <= n < (m + 1) * Pow2(k)
      decreases m
    {
      Halve(m, Pow2(k), n);
      k := k + 1;
      m := m / 2;
    }
  }

  lemma Halve(m: nat, p: nat, n: nat)
    requires m * p <= n < (m + 1) * p
    ensures (m / 2) * (2 * p) <= n < (m / 2 + 1) * (2 * p)
  {
    var h := m / 2;
    MulMono(2 * h, m, p);
    MulMono(m + 1, 2 * h + 2, p);
    assert (2 * h) * p == h * (2 * p) && (2 * h + 2) * p == (h + 1) * (2 * p);
  }

  lemma FirstKUnique(n: nat, j: nat, k: nat)
    requires IsFirstK(n, j) && IsFirstK(n, k)
    ensures j == k
  {
    if j < k { Pow2Mono(j, k - 1); }
    if k < j { Pow2Mono(k, j - 1); }
  }

  // ---------------------------------------------------------------- bit arrays as sets of blocks

  /** One bit array per size from `lo` up, each with a bit for every block of that size. */
  ghost predicate Room(bits: seq<seq<bv8>>, top: nat, lo: nat) {
    |bits| == top + 1 && forall k | lo <= k <= top :: |bits[k]| == BitArray(top - k)
  }

  predicate BitOf(bits: seq<seq<bv8>>, b: Blk) {
    b.k < |bits| && b.i / 8 < |bits[b.k]| && Bits.IsSet(bits[b.k], b.i)
  }

  /** The bits that are set are those of `bs`, also among the bits that fill up the last chars. */
  ghost predicate BitsHold(bits: seq<seq<bv8>>, top: nat, lo: nat, bs: set<Blk>) {
    && Room(bits, top, lo)
    && forall b: Blk {:trigger BitOf(bits, b)} :: b in bs <==> lo <= b.k && BitOf(bits, b)
  }

  predicate InArray(top: nat, b: Blk) {
    b.k <= top && b.i / 8 < BitArray(top - b.k)
  }

  lemma HeapInArray(top: nat, b: Blk)
    requires InHeap(top, b)
    ensures InArray(top, b)
  {
    BitArrayIs(top - b.k);
  }

  lemma BitRead(bits: seq<seq<bv8>>, top: nat, lo: nat, bs: set<Blk>, b: Blk)
    requires BitsHold(bits, top, lo, bs) && lo <= b.k && InArray(top, b)
    ensures b.i / 8 < |bits[b.k]|
    ensures Bits.IsSet(bits[b.k], b.i) <==> b in bs
  {
    assert BitOf(bits, b) <==> b in bs;
  }

  lemma BitSet(bits: seq<seq<bv8>>, top: nat, lo: nat, bs: set<Blk>, b: Blk)
    requires BitsHold(bits, top, lo, bs) && lo <= b.k && InArray(top, b)
    ensures b.i / 8 < |bits[b.k]|
    ensures BitsHold(bits[b.k := Bits.Set(bits[b.k], b.i)], top, lo, bs + {b})
  {
    var now := bits[b.k := Bits.Set(bits[b.k], b.i)];
    forall c: Blk
      ensures c in bs + {b} <==> lo <= c.k && BitOf(now, c)
    {
      assert BitOf(bits, c) ==> BitOf(now, c);
    }
  }

  lemma BitClear(bits: seq<seq<bv8>>, top: nat, lo: nat, bs: set<Blk>, b: Blk)
    requires BitsHold(bits, top, lo, bs) && lo <= b.k && InArray(top, b)
    ensures b.i / 8 < |bits[b.k]|
    ensures BitsHold(bits[b.k := Bits.Clear(bits[b.k], b.i)], top, lo, bs - {b})
  {
    var now := bits[b.k := Bits.Clear(bits[b.k], b.i)];
    forall c: Blk
      ensures c in bs - {b} <==> lo <= c.k && BitOf(now, c)
    {
      assert BitOf(now, c) <==> BitOf(bits, c) && c != b;
    }
  }

  lemma {:induction false} IndexBound(s: State, b: Blk)
    requires Wf(s) && InTree(s.top, s.split, b)
    ensures InHeap(s.top, b)
    decreases s.top - b.k
  {
    if b.k < s.top {
      assert InTree(s.top, s.split, Parent(b));
      IndexBound(s, Parent(b));
      ParentInHeap(s.top, b);
    }
  }

  // ---------------------------------------------------------------- free lists as addresses

  function Addrs(k: nat, l: seq<nat>): (r: seq<nat>) {
    seq(|l|, j requires 0 <= j < |l| => Addr(Blk(k, l[j])))
  }

  lemma AddrInj(k: nat, i: nat, j: nat)
    ensures Addr(Blk(k, i)) == Addr(Blk(k, j)) ==> i == j
  {
    AtAddr(Blk(k, i));
    AtAddr(Blk(k, j));
  }

  lemma {:induction false} AddrsRemove(k: nat, l: seq<nat>, x: nat)
    ensures Addrs(k, List.Remove(l, x)) == List.Remove(Addrs(k, l), Addr(Blk(k, x)))
  {
    if l != [] {
      AddrInj(k, l[0], x);
      AddrsRemove(k, l[1..], x);
      assert Addrs(k, l)[1..] == Addrs(k, l[1..]);
      assert Addrs(k, l)[0] == Addr(Blk(k, l[0]));
      if l[0] != x {
        assert Addrs(k, [l[0]] + List.Remove(l[1..], x)) == [Addr(Blk(k, l[0]))] + Addrs(k, List.Remove(l[1..], x));
      }
    }
  }

  lemma MergedAddr(b: Blk)
    ensures Addr(Parent(b)) == if b.i % 2 == 0 then Addr(b) else Addr(Buddy(b))
  {
    ChildAddr(Parent(b));
    assert b.i % 2 == 0 ==> b == Left(Parent(b));
    assert b.i % 2 == 1 ==> Buddy(b) == Left(Parent(b));
  }

  ghost predicate ListsHold(lists: seq<seq<nat>>, free: seq<seq<nat>>) {
    |lists| == |free| && forall k | 0 <= k < |lists| :: lists[k] == Addrs(k, free[k])
  }

  /** An address inside a live block is the address of no free block. */
  lemma LiveNotListed(s: State, lists: seq<seq<nat>>, b: Blk, p: nat)
    requires Wf(s) && ListsHold(lists, s.free) && b in Live(s) && Covers(b, p)
    ensures List.Nowhere(lists, p)
  {
    forall k | 0 <= k < |lists|
      ensures p !in lists[k]
    {
      if p in lists[k] {
        var j :| 0 <= j < |lists[k]| && lists[k][j] == p;
        var c := Blk(k, s.free[k][j]);
        assert OnList(s, c) && Covers(c, p);
        LeavesDisjoint(s, b, c);
      }
    }
  }

  // ---------------------------------------------------------------- pieces of bd_init

  method Sizes(n: nat) returns (t: nat)
    requires n >= LEAF_SIZE
    ensures t == FirstK(n)
  {
    t := Log2(n / LEAF_SIZE);
    if n > BlkSize(t) {
      t := t + 1;
    }
    FirstKUnique(n, t, FirstK(n));
  }

  function Zeroes(n: nat): seq<bv8> {
    seq(n, _ => 0)
  }

  lemma NoBits(bits: seq<seq<bv8>>, top: nat, lo: nat)
    requires |bits| == top + 1 && forall k | lo <= k <= top :: bits[k] == Zeroes(BitArray(top - k))
    ensures BitsHold(bits, top, lo, {})
  {
    forall b: Blk | lo <= b.k
      ensures !BitOf(bits, b)
    {
      if b.k <= top && b.i / 8 < |bits[b.k]| {
        Bits.ZeroByte(b.i % 8);
      }
    }
  }

  /** After `bd_init` no byte is lost and the metadata is all that is live. */
  lemma InitHolds(s: State, meta: nat, end: nat)
    requires MarkedBits(s, meta, end) && Layout(s.top, meta, end) && NoClash(s.top, meta, end)
    ensures var t := InitState(s, meta, end);
            && Live(t) == Leaves(0, meta / LEAF_SIZE) + Leaves(end / LEAF_SIZE, Pow2(s.top))
            && HeapInv(Heap(t, map[]), Live(t), BlkSize(s.top))
            && FreeBytes(t.free) == end - meta
  {
    InitWfIff(s, meta, end);
    CountIff(s, meta, end);
    InitLive(s, meta, end);
    var t := InitState(s, meta, end);
    var none: map<Blk, nat> := map[];
    assert Live(t) == Live(s) && Live(t) + none.Keys == Live(t);
    assert Taken(s.top, meta, end, Blk(0, 0)) by {
      assert Addr(Blk(0, 0)) == 0;
    }
  }

  lemma MarkRange(top: nat, k: nat, start: nat, stop: nat)
    requires k <= top && start < stop <= BlkSize(top)
    ensures NextIndex(k, stop) <= Pow2(top - k)
    ensures forall i: nat :: Overlaps(Blk(k, i), start, stop) <==> BlkAt(k, start).i <= i < NextIndex(k, stop)
  {
    HeapInBlocks(top, k);
    NextIndexIs(k, stop, Pow2(top - k));
    forall i: nat
      ensures Overlaps(Blk(k, i), start, stop) <==> BlkAt(k, start).i <= i < NextIndex(k, stop)
    {
      IndexIs(k, start, i);
      NextIndexIs(k, stop, i);
    }
  }

  /** While the lists of `t` are being built, the next block of list `k` has an address that no
      list holds yet. */
  lemma FreshPush(t: State, lists: seq<seq<nat>>, free: seq<seq<nat>>, k: nat, m: nat)
    requires Wf(t) && ListsHold(lists, free) && |free| == |t.free|
    requires k < |free| && m < |t.free[k]| && free[k] == t.free[k][m + 1..]
    requires forall j | 0 <= j < |free| && j != k :: free[j] == t.free[j] || free[j] == []
    ensures List.Nowhere(lists, Addr(Blk(k, t.free[k][m])))
  {
    var c := Blk(k, t.free[k][m]);
    assert OnList(t, c);
    forall j | 0 <= j < |lists|
      ensures Addr(c) !in lists[j]
    {
      if Addr(c) in lists[j] {
        var x :| 0 <= x < |lists[j]| && lists[j][x] == Addr(c);
        var d := Blk(j, free[j][x]);
        if j == k {
          AddrInj(k, c.i, d.i);
        } else {
          assert OnList(t, d);
          LeavesDisjoint(t, c, d);
          assert Covers(c, Addr(c)) && Covers(d, Addr(c));
        }
      }
    }
  }

  // ---------------------------------------------------------------- the allocator

  lemma BothRanges(top: nat, meta: nat, end: nat)
    ensures forall b: Blk {:trigger Taken(top, meta, end, b)} ::
              InHeap(top, b) && (Overlaps(b, 0, meta) || Overlaps(b, end, BlkSize(top))) <==> Taken(top, meta, end, b)
  {
    forall b: Blk
      ensures InHeap(top, b) && (Overlaps(b, 0, meta) || Overlaps(b, end, BlkSize(top))) <==> Taken(top, meta, end, b)
    {
      if InHeap(top, b) { OverlapsIsUsed(top, meta, end, b); }
    }
  }

  lemma HeapAligned(top: nat)
    ensures BlkSize(top) % LEAF_SIZE == 0
  {
  }

  lemma BothMarked(s: State, meta: nat, end: nat)
    requires |s.free| == s.top + 1 && forall k | 0 <= k <= s.top :: s.free[k] == []
    requires forall b: Blk :: b in s.alloc <==>
      InHeap(s.top, b) && (Overlaps(b, 0, meta) || Overlaps(b, end, BlkSize(s.top)))
    requires forall b: Blk :: b in s.split <==>
               b.k >= 1 && InHeap(s.top, b) && (Overlaps(b, 0, meta) || Overlaps(b, end, BlkSize(s.top)))
    ensures MarkedBits(s, meta, end)
  {
    BothRanges(s.top, meta, end);
  }

  predicate LevelIs(t: State, meta: nat, end: nat, k: nat) {
    k < |t.free| && t.free[k] == LevelList(t.alloc, k, NextIndex(k, meta), BlkAt(k, end).i)
  }

  /** `t` is a state that `bd_initfree` can lead to. */
  ghost predicate IsTarget(t: State, meta: nat, end: nat) {
    && Wf(t) && |t.free| == t.top + 1 && t.free[t.top] == []
    && forall k {:trigger LevelIs(t, meta, end, k)} | 0 <= k < t.top :: LevelIs(t, meta, end, k)
  }

  /** `s` has the free lists of `t` below size `k`, and none from there on. */
  ghost predicate Towards(s: State, t: State, k: nat) {
    && |s.free| == |t.free| && s == t.(free := s.free)
    && forall j | 0 <= j < |t.free| :: s.free[j] == if j < k then t.free[j] else []
  }

  lemma InitIsTarget(s: State, meta: nat, end: nat)
    requires MarkedBits(s, meta, end) && Layout(s.top, meta, end) && NoClash(s.top, meta, end)
    ensures IsTarget(InitState(s, meta, end), meta, end)
  {
    InitWfIff(s, meta, end);
    var t := InitState(s, meta, end);
    forall k | 0 <= k < t.top
      ensures LevelIs(t, meta, end, k)
    {
    }
  }

  /** Lines 318-338: the cleared bit arrays of the sizes from `lo` on, and their chars. */
  method ZeroArrays(t: nat, lo: nat) returns (bits: seq<seq<bv8>>, size: nat)
    requires lo <= t
    ensures |bits| == t + 1 && (forall j | lo <= j <= t :: bits[j] == Zeroes(BitArray(t - j)))
      && size == BitArrays(t - lo)
  {
    bits, size := seq(lo, _ => []), 0;
    var k := lo;
    while k < t + 1
      invariant lo <= k <= t + 1 && |bits| == k
      invariant forall j | lo <= j < k :: bits[j] == Zeroes(BitArray(t - j))
      invariant size == BitArrays(t - lo) - if k <= t then BitArrays(t - k) else 0
    {
      bits := bits + [Zeroes(BitArray(t - k))];
      size := size + BitArray(t - k);
      k := k + 1;
    }
  }

  /** The state after `bd_init`: metadata and unavailable end are live, and no byte is lost. */
  ghost predicate Started(s: State, top: nat, meta: nat, end: nat) {
    && Live(s) == Leaves(0, meta / LEAF_SIZE) + Leaves(end / LEAF_SIZE, Pow2(top))
    && HeapInv(Heap(s, map[]), Live(s), BlkSize(top))
  }

  /** What the rest of `bd_init` relies on: the two boundaries, the bits around them, and no clash. */
  ghost predicate Bounds(top: nat, meta: nat, end: nat) {
    && Layout(top, meta, end) && NoClash(top, meta, end)
    && forall k | 0 <= k < top :: PairInside(top, meta, end, k)
  }

  lemma BoundsHold(n: nat)
    requires InitOk(n)
    ensures n < BlkSize(FirstK(n)) && EndOf(n) >= 0 && EndOf(n) / LEAF_SIZE == n / LEAF_SIZE
    ensures EndOf(n) == BlkSize(FirstK(n)) - RoundUpToLeaf(BlkSize(FirstK(n)) - n)
    ensures Bounds(FirstK(n), MetaBytes(FirstK(n)), EndOf(n))
  {
    OkHasRoom(n);
    EndFacts(n);
    LayoutOf(n);
    NoClashIff(n);
  }

  class Allocator {
    const top: nat
    var alloc: seq<seq<bv8>>
    var split: seq<seq<bv8>>
    const free: List.Arena
    ghost var s: State

    ghost predicate Valid()
      reads this, free
    {
      && s.top == top
      && BitsHold(alloc, top, 0, s.alloc)
      && BitsHold(split, top, 1, s.split)
      && free.Valid()
      && ListsHold(free.lists, s.free)
    }

    /** `bd_init` for `n` bytes above the aligned base, on the heaps where it works. */
    constructor (n: nat)
      requires InitOk(n)
      ensures Valid() && fresh(free) && top == FirstK(n)
      ensures Live(s) == Leaves(0, MetaBytes(top) / LEAF_SIZE) + Leaves(n / LEAF_SIZE, Pow2(top))
      ensures HeapInv(Heap(s, map[]), Live(s), BlkSize(top))
    {
      var t := Sizes(n);
      top := t;
      var allocs, size1 := ZeroArrays(t, 0);
      var splits, size2 := ZeroArrays(t, 1);
      alloc, split := allocs, splits;
      free := new List.Arena(t + 1);
      s := State(t, {}, {}, seq(t + 1, _ => []));
      new;
      NoBits(alloc, t, 0);
      NoBits(split, t, 1);
      PlaceMeta(n, 32 * (t + 1) + size1 + size2);
      BoundsHold(n);
    }

    /** Line 334 on; `size` is how many bytes the metadata takes. */
    method PlaceMeta(n: nat, size: nat)
      requires Valid() && s == State(top, {}, {}, seq(top + 1, _ => []))
      requires InitOk(n) && top == FirstK(n) && size == MetaSum(top)
      modifies this, free
      ensures Valid() && EndOf(n) >= 0 && Started(s, top, MetaBytes(top), EndOf(n))
    {
      BoundsHold(n);
      var heap := BlkSize(top);
      FinishInit(heap, RoundUpToLeaf(heap - n), RoundUpToLeaf(size), EndOf(n));
    }

    /** Lines 338-353: mark both ranges, build the free lists, check the count. */
    method FinishInit(heap: nat, unavailable: nat, meta: nat, ghost end: nat)
      requires Valid() && s == State(top, {}, {}, seq(top + 1, _ => []))
      requires heap == BlkSize(top) && end == heap - unavailable && Bounds(top, meta, end)
      modifies this, free
      ensures Valid() && Started(s, top, meta, end)
    {
      var counted := MarkAndFree(meta, heap - unavailable);
      assert counted == heap - meta - unavailable;
    }

    method MarkAndFree(meta: nat, end: nat) returns (counted: nat)
      requires Valid() && s == State(top, {}, {}, seq(top + 1, _ => [])) && Bounds(top, meta, end)
      modifies this, free
      ensures Valid() && counted == end - meta && Started(s, top, meta, end)
    {
      MarkBoth(meta, end);
      InitHolds(s, meta, end);
      counted := BdInitfree(meta, end);
    }

    method MarkBoth(meta: nat, end: nat)
      requires Valid() && s == State(top, {}, {}, seq(top + 1, _ => [])) && Layout(top, meta, end)
      modifies this`s, this`alloc, this`split
      ensures Valid() && MarkedBits(s, meta, end)
    {
      HeapAligned(top);
      BdMark(0, meta);
      BdMark(end, BlkSize(top));
      BothMarked(s, meta, end);
    }

    method BdMark(start: nat, stop: nat)
      requires Valid() && start < stop <= BlkSize(top) && start % LEAF_SIZE == 0 && stop % LEAF_SIZE == 0
      modifies this`s, this`alloc, this`split
      ensures Valid() && s.free == old(s).free
      ensures forall b: Blk :: b in s.alloc <==> b in old(s).alloc || (InHeap(top, b) && Overlaps(b, start, stop))
      ensures forall b: Blk :: b in s.split <==>
        b in old(s).split || (b.k >= 1 && InHeap(top, b) && Overlaps(b, start, stop))
    {
      var k := 0;
      while k < top + 1
        invariant k <= top + 1
        invariant Valid() && s.free == old(s).free
        invariant forall b: Blk :: b in s.alloc <==>
          b in old(s).alloc || (b.k < k && InHeap(top, b) && Overlaps(b, start, stop))
        invariant forall b: Blk :: b in s.split <==>
          b in old(s).split || (1 <= b.k < k && InHeap(top, b) && Overlaps(b, start, stop))
      {
        BdMarkLevel(k, BlkAt(k, start).i, NextIndex(k, stop), start, stop);
        k := k + 1;
      }
    }

    /** Lines 227-233: mark the blocks of size `k` from `bi` up to `bj`. */
    method BdMarkLevel(k: nat, bi: nat, bj: nat, ghost start: nat, ghost stop: nat)
      requires Valid() && k <= top && start < stop <= BlkSize(top)
      requires bi == BlkAt(k, start).i && bj == NextIndex(k, stop)
      modifies this`s, this`alloc, this`split
      ensures Valid() && s.free == old(s).free
      ensures forall b: Blk :: b in s.alloc <==>
        b in old(s).alloc || (b.k == k && InHeap(top, b) && Overlaps(b, start, stop))
      ensures forall b: Blk :: b in s.split <==>
        b in old(s).split || (b.k == k >= 1 && InHeap(top, b) && Overlaps(b, start, stop))
    {
      MarkRange(top, k, start, stop);
      var i := bi;
      while i < bj
        invariant bi <= i && (i <= bj || i == bi)
        invariant Valid() && s.free == old(s).free
        invariant forall b: Blk :: b in s.alloc <==> b in old(s).alloc || (b.k == k && bi <= b.i < i)
        invariant forall b: Blk :: b in s.split <==> b in old(s).split || (b.k == k >= 1 && bi <= b.i < i)
      {
        if k > 0 {
          SetSplit(k, i);
        }
        SetAlloc(k, i);
        i := i + 1;
      }
    }

    method BdInitfree(meta: nat, end: nat) returns (total: nat)
      requires Valid() && MarkedBits(s, meta, end) && Bounds(top, meta, end)
      modifies this`s, free
      ensures Valid() && s == InitState(old(s), meta, end) && total == FreeBytes(s.free)
    {
      NoFreeBytes(s.free);
      InitIsTarget(s, meta, end);
      total := MakeLists(meta, end, InitState(s, meta, end));
    }

    /** Lines 259-269, towards the state `t`. */
    method MakeLists(meta: nat, end: nat, ghost t: State) returns (total: nat)
      requires Valid() && IsTarget(t, meta, end) && t.top == top && Bounds(top, meta, end)
      requires |s.free| == top + 1 && s == t.(free := s.free) && FreeBytes(s.free) == 0
      requires forall j | 0 <= j <= top :: s.free[j] == []
      modifies this`s, free
      ensures Valid() && s == t && total == FreeBytes(s.free)
    {
      total := 0;
      var k := 0;
      while k < top
        invariant k <= top && Valid() && Towards(s, t, k) && total == FreeBytes(s.free)
      {
        var f := InitLevel(k, meta, end, t);
        total := total + f;
        k := k + 1;
      }
      assert s.free == t.free;
    }

    /** One size of `bd_initfree`. */
    method InitLevel(k: nat, meta: nat, end: nat, ghost t: State) returns (f: nat)
      requires Valid() && IsTarget(t, meta, end) && t.top == top && Bounds(top, meta, end) && k < top
        && Towards(s, t, k)
      modifies this`s, free
      ensures Valid() && Towards(s, t, k + 1) && FreeBytes(s.free) == FreeBytes(old(s).free) + f
    {
      assert LevelIs(t, meta, end, k);
      assert PairInside(top, meta, end, k);
      f := BdInitfreeLevel(k, NextIndex(k, meta), BlkAt(k, end).i, t);
    }

    /** Lines 264-267. `t` is the state all levels together will reach. */
    method BdInitfreeLevel(k: nat, left: nat, right: nat, ghost t: State) returns (f: nat)
      requires Valid() && Wf(t) && t.alloc == s.alloc && |t.free| == |s.free| && k < |s.free|
      requires InArray(top, Blk(k, left)) && InArray(top, Blk(k, right))
      requires s.free[k] == [] && t.free[k] == LevelList(s.alloc, k, left, right)
      requires forall j | 0 <= j < |s.free| && j != k :: s.free[j] == t.free[j] || s.free[j] == []
      modifies this`s, free
      ensures Valid() && s == old(s).(free := old(s).free[k := t.free[k]])
      ensures FreeBytes(s.free) == FreeBytes(old(s).free) + f
    {
      ghost var l := PushPair(s.alloc, k, left, []);
      if l != [] {
        FreshPush(t, free.lists, s.free, k, |t.free[k]| - 1);
      }
      f := BdInitfreePair(k, left);
      if right > left {
        if t.free[k] != l {
          FreshPush(t, free.lists, s.free, k, 0);
        }
        var g := BdInitfreePair(k, right);
        f := f + g;
      }
    }

    method BdInitfreePair(k: nat, bi: nat) returns (f: nat)
      requires Valid() && k < |s.free| && InArray(top, Blk(k, bi))
      requires var l := PushPair(s.alloc, k, bi, s.free[k]);
               l != s.free[k] ==> List.Nowhere(free.lists, Addr(Blk(k, l[0])))
      modifies this`s, free
      ensures Valid() && s == old(s).(free := old(s).free[k := PushPair(old(s).alloc, k, bi, old(s).free[k])])
      ensures FreeBytes(s.free) == FreeBytes(old(s).free) + f
    {
      var buddy := if bi % 2 == 0 then bi + 1 else bi - 1;
      f := 0;
      var x := IsAlloc(k, bi);
      var y := IsAlloc(k, buddy);
      if x != y {
        f := BlkSize(k);
        ghost var l := PushPair(s.alloc, k, bi, s.free[k]);
        FreeBytesPushed(s.free, k, l);
        if x {
          Push(k, Addr(Blk(k, buddy)), buddy);
        } else {
          Push(k, Addr(Blk(k, bi)), bi);
        }
      } else {
        assert s.free[k := s.free[k]] == s.free;
      }
    }

    // The bits of the size records, read and written by block. `bs` is what they stand for.

    method IsAlloc(k: nat, i: nat) returns (r: bool)
      requires BitsHold(alloc, top, 0, s.alloc) && InArray(top, Blk(k, i))
      ensures r <==> Blk(k, i) in s.alloc
    {
      BitRead(alloc, top, 0, s.alloc, Blk(k, i));
      r := Bits.IsSet(alloc[k], i);
    }

    method IsSplit(k: nat, i: nat) returns (r: bool)
      requires BitsHold(split, top, 1, s.split) && k >= 1 && InHeap(top, Blk(k, i))
      ensures r <==> Blk(k, i) in s.split
    {
      HeapInArray(top, Blk(k, i));
      BitRead(split, top, 1, s.split, Blk(k, i));
      r := Bits.IsSet(split[k], i);
    }

    method SetAlloc(k: nat, i: nat)
      requires BitsHold(alloc, top, 0, s.alloc) && InHeap(top, Blk(k, i))
      modifies this`alloc, this`s
      ensures s == old(s).(alloc := old(s).alloc + {Blk(k, i)}) && BitsHold(alloc, top, 0, s.alloc)
    {
      HeapInArray(top, Blk(k, i));
      BitSet(alloc, top, 0, s.alloc, Blk(k, i));
      alloc := alloc[k := Bits.Set(alloc[k], i)];
      s := s.(alloc := s.alloc + {Blk(k, i)});
    }

    method SetSplit(k: nat, i: nat)
      requires BitsHold(split, top, 1, s.split) && k >= 1 && InHeap(top, Blk(k, i))
      modifies this`split, this`s
      ensures s == old(s).(split := old(s).split + {Blk(k, i)}) && BitsHold(split, top, 1, s.split)
    {
      HeapInArray(top, Blk(k, i));
      BitSet(split, top, 1, s.split, Blk(k, i));
      split := split[k := Bits.Set(split[k], i)];
      s := s.(split := s.split + {Blk(k, i)});
    }

    method ClearAlloc(k: nat, i: nat)
      requires BitsHold(alloc, top, 0, s.alloc) && InHeap(top, Blk(k, i))
      modifies this`alloc, this`s
      ensures s == old(s).(alloc := old(s).alloc - {Blk(k, i)}) && BitsHold(alloc, top, 0, s.alloc)
    {
      HeapInArray(top, Blk(k, i));
      BitClear(alloc, top, 0, s.alloc, Blk(k, i));
      alloc := alloc[k := Bits.Clear(alloc[k], i)];
      s := s.(alloc := s.alloc - {Blk(k, i)});
    }

    method ClearSplit(k: nat, i: nat)
      requires BitsHold(split, top, 1, s.split) && k >= 1 && InHeap(top, Blk(k, i))
      modifies this`split, this`s
      ensures s == old(s).(split := old(s).split - {Blk(k, i)}) && BitsHold(split, top, 1, s.split)
    {
      HeapInArray(top, Blk(k, i));
      BitClear(split, top, 1, s.split, Blk(k, i));
      split := split[k := Bits.Clear(split[k], i)];
      s := s.(split := s.split - {Blk(k, i)});
    }

    method Push(k: nat, p: nat, ghost i: nat)
      requires Valid() && k < |s.free| && p == Addr(Blk(k, i)) && List.Nowhere(free.lists, p)
      modifies this`s, free
      ensures Valid() && s == old(s).(free := old(s).free[k := [i] + old(s).free[k]])
    {
      free.Push(k, p);
      assert Addrs(k, [i] + s.free[k]) == [p] + Addrs(k, s.free[k]);
      s := s.(free := s.free[k := [i] + s.free[k]]);
    }

    method BdMalloc(nbytes: nat) returns (p: Option<nat>)
      requires Valid() && Wf(s) && nbytes <= HALF
      modifies this, free
      ensures Valid() && Wf(s)
      ensures var (t, r) := Malloc(old(s), FirstK(nbytes));
              s == t && p == (if r.Some? then Some(Addr(r.value)) else None)
    {
      var fk := Firstk(nbytes);
      var k := FindFree(fk);
      if k >= top + 1 { return None; }
      ghost var b := Blk(k, s.free[k][0]);
      PopStep(s, k);
      var a := PopOnce(k);
      CarveDown(b, a, k, fk);
      p := Some(a);
    }

    /** Lines 131-134. */
    method FindFree(fk: nat) returns (k: nat)
      requires Valid() && |s.free| == top + 1
      ensures k == FindLevel(s, fk)
    {
      k := fk;
      while k < top + 1
        invariant FindLevel(s, fk) == FindLevel(s, k)
      {
        var empty := free.Empty(k);
        if !empty { break; }
        k := k + 1;
      }
    }

    /** Lines 143-150. */
    method CarveDown(ghost b: Blk, a: nat, k0: nat, fk: nat)
      requires Valid() && Wf(s) && b in Live(s) && b.k == k0 && fk <= k0 <= top && a == Addr(b)
      modifies this, free
      ensures Valid() && Wf(s)
      ensures var (t, c) := SplitDown(old(s), b, fk); s == t && a == Addr(c)
    {
      var k := k0;
      ghost var c := b;
      while k > fk
        invariant fk <= k <= top
        invariant Valid() && Wf(s)
        invariant c.k == k && a == Addr(c) && c in Live(s)
        invariant SplitDown(s, c, fk) == SplitDown(old(s), b, fk)
      {
        SplitOnce(c, a, k);
        c := Left(c);
        k := k - 1;
      }
    }

    /** Lines 141-142. */
    method PopOnce(k: nat) returns (a: nat)
      requires Valid() && Wf(s) && k <= top && s.free[k] != []
      modifies this, free
      ensures Valid() && s == Pop(old(s), k) && a == Addr(Blk(k, old(s).free[k][0]))
    {
      ghost var b, t := Blk(k, s.free[k][0]), Pop(s, k);
      assert OnList(s, b);
      IndexBound(s, b);
      AtAddr(b);
      assert Addrs(k, s.free[k])[1..] == Addrs(k, t.free[k]);
      a := free.Pop(k);
      SetAlloc(k, BlkAt(k, a).i);
      s := t;
    }

    /** Lines 146-149, one round of the splitting loop. */
    method SplitOnce(ghost b: Blk, a: nat, k: nat)
      requires Valid() && Wf(s) && b in Live(s) && 1 <= b.k <= top && k == b.k && a == Addr(b)
      modifies this, free
      ensures Valid() && s == Split(old(s), b)
      ensures Wf(s) && Left(b) in Live(s) && a == Addr(Left(b))
    {
      ghost var l, r := Left(b), Right(b);
      SplitStep(s, b);
      IndexBound(Split(s, b), b);
      IndexBound(Split(s, b), l);
      ChildAddr(b);
      AtAddr(b);
      AtAddr(l);
      var q := a + BlkSize(k - 1);
      LiveNotListed(s, free.lists, b, q);
      SetSplit(k, BlkAt(k, a).i);
      SetAlloc(k - 1, BlkAt(k - 1, a).i);
      Push(k - 1, q, r.i);
    }

    method SizeOf(p: nat, ghost b: Blk) returns (k: nat)
      requires Valid() && Wf(s) && b in Live(s) && p == Addr(b)
      ensures k == b.k && Size(s, p) == Some(k)
    {
      SizeOfLive(s, b);
      LeavesTileHeap(s, p);
      assert Leaf(s, b) && Covers(b, p);
      k := 0;
      while k < top + 1
        invariant SizeFrom(s, k, p) == Some(b.k)
      {
        AtInHeap(top, k + 1, p);
        var found := IsSplit(k + 1, BlkAt(k + 1, p).i);
        if found { return; }
        k := k + 1;
      }
      assert false;
    }

    /** Frees the live block at `p`, other than the first leaf, where the size records are. */
    method BdFree(p: nat, ghost b: Blk)
      requires Valid() && Wf(s) && b in Live(s) && b != Blk(0, 0) && p == Addr(b)
      modifies this, free
      ensures Valid() && Wf(s)
      ensures b.k <= old(s).top && s == FreeUp(old(s), b)
    {
      LiveBelowTop(s, b);
      FreeStep(s, b);
      var k := SizeOf(p, b);
      var a := p;
      ghost var c, t := b, s;
      while k < top
        invariant k < top
        invariant Valid() && Wf(s) && s == t
        invariant c.k == k && a == Addr(c) && c in Live(s) && c != Blk(0, 0)
        invariant FreeUp(s, c) == FreeUp(old(s), b)
      {
        LiveNotListed(s, free.lists, c, a);
        var done: bool;
        done, a := MergeOnce(c, a, k);
        if done { break; }
        LiveBelowTop(s, Parent(c));
        c, t := Parent(c), s;
        k := k + 1;
      }
      Push(k, a, c.i);
    }

    /** Lines 176-190, one round of the merging loop. */
    method MergeOnce(ghost c: Blk, a: nat, k: nat) returns (done: bool, r: nat)
      requires Valid() && Wf(s) && c in Live(s) && c != Blk(0, 0) && c.k == k < top && a == Addr(c)
      modifies this, free
      ensures Valid()
      ensures done <==> Buddy(c) in old(s).alloc
      ensures done ==> s == old(s).(alloc := old(s).alloc - {c}) && r == a && free.lists == old(free.lists)
      ensures !done ==> s == Merge(old(s), c) && r == Addr(Parent(c))
      ensures !done ==> Wf(s) && Parent(c) in Live(s) && Parent(c) != Blk(0, 0)
    {
      AtAddr(c);
      assert InTree(s.top, s.split, c);
      IndexBound(s, c);
      ParentInHeap(top, c);
      ghost var t := s;
      var bi := BlkAt(k, a).i;
      var buddy := if bi % 2 == 0 then bi + 1 else bi - 1;
      HeapInArray(top, Buddy(c));
      ClearAlloc(k, bi);
      done := IsAlloc(k, buddy);
      r := a;
      if done { return; }
      MergeStep(t, c);
      r := JoinBuddy(c, a, k, buddy, t);
    }

    /** Lines 180-190: the buddy leaves its list and both become their parent. */
    method JoinBuddy(ghost c: Blk, a: nat, k: nat, buddy: nat, ghost t: State) returns (r: nat)
      requires Valid() && s == t.(alloc := t.alloc - {c}) && Blk(k, buddy) == Buddy(c) && OnList(t, Buddy(c))
      requires c.k == k < top && a == Addr(c) && InHeap(top, Parent(c))
      modifies this`s, this`split, free
      ensures Valid() && s == Merge(t, c) && r == Addr(Parent(c))
    {
      var q := Addr(Blk(k, buddy));
      UnlinkFree(k, q, buddy);
      r := if buddy % 2 == 0 then q else a;
      MergedAddr(c);
      AtAddr(Parent(c));
      ClearSplit(k + 1, BlkAt(k + 1, r).i);
    }

    method UnlinkFree(k: nat, q: nat, ghost i: nat)
      requires Valid() && k < |s.free| && i in s.free[k] && q == Addr(Blk(k, i))
      modifies this`s, free
      ensures Valid() && s == old(s).(free := old(s).free[k := List.Remove(old(s).free[k], i)])
    {
      ghost var j :| 0 <= j < |s.free[k]| && s.free[k][j] == i;
      AddrsRemove(k, s.free[k], i);
      free.Unlink(q, k, j);
      s := s.(free := s.free[k := List.Remove(s.free[k], i)]);
    }
  }
}
