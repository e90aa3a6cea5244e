/** The arithmetic of `bd_init` in kernel/buddy.c: the tree that marking the metadata and the
    unavailable tail leaves behind, the free lists `bd_initfree` builds on it, and the proof that
    the result is well formed and every byte is accounted for. */
module BuddyInit {
  import opened BuddyTree
  import opened BuddyOps

  // ---------------------------------------------------------------- geometry

  lemma {:induction false} Pow2Add(a: nat, b: nat)
    ensures Pow2(a + b) == Pow2(a) * Pow2(b)
    decreases b
  {
    if b > 0 { Pow2Add(a, b - 1); }
  }

  /** The heap holds `Pow2(top - k)` blocks of size `k`. */
  lemma HeapInBlocks(top: nat, k: nat)
    requires k <= top
    ensures BlkSize(top) == Pow2(top - k) * BlkSize(k)
  {
    Pow2Add(top - k, k);
    assert LEAF_SIZE * (Pow2(top - k) * Pow2(k)) == Pow2(top - k) * (LEAF_SIZE * Pow2(k));
  }

  /** `blk_index_next`: the first block of size `k` that starts at or after `p`. */
  function NextIndex(k: nat, p: nat): nat {
    var s := BlkSize(k);
    Quotient(p, s) + if p % s != 0 then 1 else 0
  }

  lemma NextIndexIs(k: nat, p: nat, i: nat)
    ensures NextIndex(k, p) <= i <==> p <= Addr(Blk(k, i))
  {
    var s := BlkSize(k);
    var q := Quotient(p, s);
    QuotientBounds(p, s);
    assert p == q * s + p % s;
    if q < i {
      MulMono(q + 1, i, s);
    } else {
      MulMono(i, q, s);
      if i < q { MulMono(i + 1, q, s); }
    }
  }

  lemma IndexIs(k: nat, p: nat, i: nat)
    ensures i < BlkAt(k, p).i <==> Addr(Blk(k, i)) + BlkSize(k) <= p
  {
    var s := BlkSize(k);
    var q := Quotient(p, s);
    QuotientBounds(p, s);
    assert (i + 1) * s == i * s + s;
    if i < q { MulMono(i + 1, q, s); } else { MulMono(q + 1, i + 1, s); }
  }

  // ---------------------------------------------------------------- marking

  predicate Overlaps(b: Blk, start: nat, stop: nat) {
    Addr(b) < stop && start < Addr(b) + BlkSize(b.k)
  }

  predicate InHeap(top: nat, b: Blk) {
    b.k <= top && b.i < Pow2(top - b.k)
  }

  /** Not wholly inside the available range `[meta, end)`. */
  predicate Used(meta: nat, end: nat, b: Blk) {
    Addr(b) < meta || end < Addr(b) + BlkSize(b.k)
  }

  predicate Taken(top: nat, meta: nat, end: nat, b: Blk) {
    InHeap(top, b) && Used(meta, end, b)
  }

  /** The bits after `[0, meta)` and `[end, heap)` have been marked; the free lists are empty. */
  ghost predicate MarkedBits(s: State, meta: nat, end: nat) {
    && |s.free| == s.top + 1
    && (forall k | 0 <= k <= s.top :: s.free[k] == [])
    && (forall b: Blk {:trigger Taken(s.top, meta, end, b)} :: b in s.alloc <==> Taken(s.top, meta, end, b))
    && (forall b: Blk {:trigger Taken(s.top, meta, end, b)} :: b in s.split <==> Taken(s.top, meta, end, b) && b.k >= 1)
  }

  lemma OverlapsIsUsed(top: nat, meta: nat, end: nat, b: Blk)
    requires InHeap(top, b)
    ensures Overlaps(b, 0, meta) || Overlaps(b, end, BlkSize(top)) <==> Used(meta, end, b)
  {
    HeapInBlocks(top, b.k);
    MulMono(b.i + 1, Pow2(top - b.k), BlkSize(b.k));
    assert Addr(b) + BlkSize(b.k) == (b.i + 1) * BlkSize(b.k);
  }

  // ---------------------------------------------------------------- bd_initfree

  /** `bd_initfree_pair`: push whichever of a pair of buddies is the only free one. */
  function PushPair(alloc: set<Blk>, k: nat, bi: nat, l: seq<nat>): seq<nat> {
    var b := Blk(k, bi);
    if (b in alloc) == (Buddy(b) in alloc) then l
    else if b in alloc then [Buddy(b).i] + l
    else [bi] + l
  }

  function LevelList(alloc: set<Blk>, k: nat, left: nat, right: nat): seq<nat> {
    var l := PushPair(alloc, k, left, []);
    if right <= left then l else PushPair(alloc, k, right, l)
  }

  function InitLists(s: State, meta: nat, end: nat, n: nat): (r: seq<seq<nat>>)
    requires n <= |s.free|
    ensures |r| == |s.free|
  {
    seq(|s.free|, k requires 0 <= k < |s.free| =>
      if k < n then LevelList(s.alloc, k, NextIndex(k, meta), BlkAt(k, end).i) else s.free[k])
  }

  lemma NoFreeBytes(free: seq<seq<nat>>)
    requires forall k | 0 <= k < |free| :: free[k] == []
    ensures FreeBytes(free) == 0
  {
  }

  /** The state `bd_init` leaves: a free list for every size but the largest. */
  function InitState(s: State, meta: nat, end: nat): State
    requires |s.free| == s.top + 1
  {
    s.(free := InitLists(s, meta, end, s.top))
  }

  /** The metadata and the end of the heap are leaf boundaries with the end not before the metadata,
      and strictly inside. */
  predicate Layout(top: nat, meta: nat, end: nat) {
    && top >= 1 && 0 < meta <= end < BlkSize(top)
    && meta % LEAF_SIZE == 0 && end % LEAF_SIZE == 0
  }

  lemma AtInHeap(top: nat, k: nat, p: nat)
    requires k <= top && p < BlkSize(top)
    ensures InHeap(top, BlkAt(k, p))
  {
    HeapInBlocks(top, k);
    QuotientBounds(p, BlkSize(k));
    if BlkAt(k, p).i >= Pow2(top - k) {
      MulMono(Pow2(top - k), BlkAt(k, p).i, BlkSize(k));
    }
  }

  /** The two boundary indices of size `k`: the left one may pass the right one by one. */
  lemma LevelFacts(top: nat, meta: nat, end: nat, k: nat)
    requires Layout(top, meta, end) && k <= top
    ensures var left, right := NextIndex(k, meta), BlkAt(k, end).i;
            1 <= left <= right + 1 && right < Pow2(top - k)
  {
    var right, s := BlkAt(k, end).i, BlkSize(k);
    AtInHeap(top, k, end);
    assert Addr(Blk(k, 0)) == 0;
    NextIndexIs(k, meta, 0);
    QuotientBounds(end, s);
    NextTo(k, right);
    NextIndexIs(k, meta, right + 1);
  }

  /** The left boundary is an even block and the right boundary its buddy. `bd_initfree` then puts
      the left one on its list for each of them. */
  predicate Clash(meta: nat, end: nat, k: nat) {
    NextIndex(k, meta) % 2 == 0 && BlkAt(k, end).i == NextIndex(k, meta) + 1
  }

  lemma PairLists(alloc: set<Blk>, k: nat, n: nat, left: nat, right: nat)
    requires forall i | 0 <= i < 2 * n :: Blk(k, i) in alloc <==> i < left || right <= i
    requires left <= right + 1 && right < 2 * n && Blk(k, 2 * n) !in alloc && Blk(k, 2 * n + 1) !in alloc
    ensures LevelList(alloc, k, left, right) ==
            (if left % 2 == 0 && right == left + 1 then [left] else []) + FreeAt(left, right)
  {
    if left < 2 * n {
      assert Buddy(Blk(k, left)).i < 2 * n && Buddy(Blk(k, right)).i < 2 * n;
    }
  }

  lemma BoundaryIs(s: State, meta: nat, end: nat, k: nat, i: nat)
    requires MarkedBits(s, meta, end) && k <= s.top && i < Pow2(s.top - k)
    ensures Blk(k, i) in s.alloc <==> i < NextIndex(k, meta) || BlkAt(k, end).i <= i
  {
    assert Taken(s.top, meta, end, Blk(k, i)) <==> Used(meta, end, Blk(k, i));
    NextIndexIs(k, meta, i);
    IndexIs(k, end, i);
  }

  /** Which buddies are free at size `k`: the left boundary when odd, and the block before the
      right boundary when that is odd. */
  function FreeAt(left: nat, right: nat): seq<nat> {
    if left >= right then []
    else (if right % 2 == 1 then [right - 1] else []) + (if left % 2 == 1 then [left] else [])
  }

  lemma LevelListIs(s: State, meta: nat, end: nat, k: nat)
    requires MarkedBits(s, meta, end) && Layout(s.top, meta, end) && k < s.top
    ensures var left := NextIndex(k, meta);
            InitState(s, meta, end).free[k] ==
              (if Clash(meta, end, k) then [left] else []) + FreeAt(left, BlkAt(k, end).i)
  {
    LevelFacts(s.top, meta, end, k);
    var left, right, n := NextIndex(k, meta), BlkAt(k, end).i, Pow2(s.top - k - 1);
    forall i | 0 <= i < 2 * n
      ensures Blk(k, i) in s.alloc <==> i < left || right <= i
    {
      BoundaryIs(s, meta, end, k, i);
    }
    assert !Taken(s.top, meta, end, Blk(k, 2 * n)) && !Taken(s.top, meta, end, Blk(k, 2 * n + 1));
    PairLists(s.alloc, k, n, left, right);
  }

  // ---------------------------------------------------------------- the result is well formed

  lemma HalvesUsed(meta: nat, end: nat, b: Blk)
    ensures Used(meta, end, Parent(b)) <==> Used(meta, end, b) || Used(meta, end, Buddy(b))
  {
    ChildAddr(Parent(b));
    if b.i % 2 == 0 {
      assert b == Left(Parent(b)) && Buddy(b) == Right(Parent(b));
    } else {
      assert b == Right(Parent(b)) && Buddy(b) == Left(Parent(b));
    }
  }

  lemma ParentInHeap(top: nat, b: Blk)
    requires b.k < top
    ensures InHeap(top, Parent(b)) <==> InHeap(top, b)
    ensures InHeap(top, Buddy(b)) <==> InHeap(top, b)
  {
    assert Pow2(top - b.k) == 2 * Pow2(top - b.k - 1);
  }

  lemma ParentTaken(top: nat, meta: nat, end: nat, b: Blk)
    requires b.k < top
    ensures Taken(top, meta, end, Parent(b)) <==> Taken(top, meta, end, b) || Taken(top, meta, end, Buddy(b))
  {
    HalvesUsed(meta, end, b);
    ParentInHeap(top, b);
  }

  lemma InitInTree(s: State, meta: nat, end: nat, b: Blk)
    requires MarkedBits(s, meta, end) && b in s.alloc
    ensures InTree(s.top, s.split, b)
  {
    assert Taken(s.top, meta, end, b);
    if b.k < s.top {
      ParentTaken(s.top, meta, end, b);
    } else {
      assert Pow2(0) == 1;
    }
  }

  lemma InitHalfUsed(s: State, meta: nat, end: nat, b: Blk)
    requires MarkedBits(s, meta, end) && b in s.split
    ensures b in s.alloc && b.k >= 1 && HalfUsed(s.alloc, b)
  {
    assert Taken(s.top, meta, end, b);
    ParentTaken(s.top, meta, end, Left(b));
    assert Buddy(Left(b)) == Right(b) && Parent(Left(b)) == b;
  }

  lemma InitSpine(s: State, meta: nat, end: nat, k: nat)
    requires MarkedBits(s, meta, end) && meta > 0 && k <= s.top
    ensures Blk(k, 0) in s.alloc && (k >= 1 ==> SpineAt(s.split, k))
  {
    assert Addr(Blk(k, 0)) == 0;
    assert Taken(s.top, meta, end, Blk(k, 0));
  }

  lemma InitShape(s: State, meta: nat, end: nat)
    requires MarkedBits(s, meta, end) && Layout(s.top, meta, end)
    ensures TreeShape(s) && MetaKept(s) && Coalesced(s)
  {
    forall b | b in s.alloc
      ensures InTree(s.top, s.split, b)
    {
      InitInTree(s, meta, end, b);
    }
    forall b | b in s.split
      ensures b in s.alloc && b.k >= 1 && HalfUsed(s.alloc, b)
    {
      InitHalfUsed(s, meta, end, b);
    }
    forall k | 0 <= k <= s.top
      ensures Blk(k, 0) in s.alloc && (k >= 1 ==> SpineAt(s.split, k))
    {
      InitSpine(s, meta, end, k);
    }
  }

  lemma FreeAtIs(left: nat, right: nat, i: nat)
    ensures var b := Buddy(Blk(0, i)).i;
            i in FreeAt(left, right) <==> left <= i < right && (b < left || right <= b)
    ensures NoDup(FreeAt(left, right))
  {
  }

  lemma InitLevelAgrees(s: State, meta: nat, end: nat, b: Blk)
    requires MarkedBits(s, meta, end) && Layout(s.top, meta, end) && b.k < s.top && !Clash(meta, end, b.k)
    ensures OnList(InitState(s, meta, end), b) <==> Parent(b) in s.split && b !in s.alloc
  {
    var k := b.k;
    var left, right := NextIndex(k, meta), BlkAt(k, end).i;
    LevelFacts(s.top, meta, end, k);
    LevelListIs(s, meta, end, k);
    FreeAtIs(left, right, b.i);
    ParentTaken(s.top, meta, end, b);
    ParentInHeap(s.top, b);
    if InHeap(s.top, b) {
      BoundaryIs(s, meta, end, k, b.i);
      BoundaryIs(s, meta, end, k, Buddy(b).i);
      assert Buddy(b).i == Buddy(Blk(0, b.i)).i;
    }
  }

  /** No size has a clash. */
  ghost predicate NoClash(top: nat, meta: nat, end: nat) {
    forall k | 0 <= k < top :: !Clash(meta, end, k)
  }

  lemma ListsWf(s: State, meta: nat, end: nat)
    requires MarkedBits(s, meta, end) && Layout(s.top, meta, end) && NoClash(s.top, meta, end)
    ensures Wf(InitState(s, meta, end))
  {
    var t := InitState(s, meta, end);
    InitShape(s, meta, end);
    forall b: Blk
      ensures OnList(t, b) <==> InTree(t.top, t.split, b) && b !in t.alloc
    {
      if b.k < t.top {
        InitLevelAgrees(s, meta, end, b);
      } else if b.k == t.top {
        assert SpineAt(s.split, s.top);
      }
    }
    forall k | 0 <= k <= t.top
      ensures NoDup(t.free[k])
    {
      if k < t.top {
        LevelListIs(s, meta, end, k);
        FreeAtIs(NextIndex(k, meta), BlkAt(k, end).i, 0);
      }
    }
  }

  lemma ClashTwice(s: State, meta: nat, end: nat, k: nat)
    requires MarkedBits(s, meta, end) && Layout(s.top, meta, end) && k < s.top && Clash(meta, end, k)
    ensures InitState(s, meta, end).free[k] == [NextIndex(k, meta), NextIndex(k, meta)]
    ensures !NoDup(InitState(s, meta, end).free[k])
  {
    LevelListIs(s, meta, end, k);
    var l := InitState(s, meta, end).free[k];
    assert l[0] == l[1];
  }

  /** `bd_init` establishes the invariant that every later call relies on, unless some size has a
      clash: then one block is on its list twice. */
  lemma InitWfIff(s: State, meta: nat, end: nat)
    requires MarkedBits(s, meta, end) && Layout(s.top, meta, end)
    ensures Wf(InitState(s, meta, end)) <==> NoClash(s.top, meta, end)
  {
    if NoClash(s.top, meta, end) {
      ListsWf(s, meta, end);
    } else {
      var k :| 0 <= k < s.top && Clash(meta, end, k);
      ClashTwice(s, meta, end, k);
    }
  }

  // ---------------------------------------------------------------- every byte is accounted for

  lemma NextIndexHalves(k: nat, p: nat)
    ensures NextIndex(k + 1, p) == (NextIndex(k, p) + 1) / 2
  {
    var n, m := NextIndex(k, p), NextIndex(k + 1, p);
    var j := (n + 1) / 2;
    ChildAddr(Blk(k + 1, j));
    NextIndexIs(k, p, 2 * j);
    NextIndexIs(k + 1, p, j);
    ChildAddr(Blk(k + 1, m));
    NextIndexIs(k, p, 2 * m);
    NextIndexIs(k + 1, p, m);
  }

  /** Rounding the boundaries out to the next size moves them by exactly what goes free. */
  lemma LevelBytes(k: nat, left: nat, right: nat)
    requires left < right
    ensures Addr(Blk(k + 1, (left + 1) / 2)) - Addr(Blk(k + 1, right / 2)) ==
            Addr(Blk(k, left)) - Addr(Blk(k, right)) + |FreeAt(left, right)| * BlkSize(k)
  {
    var s := BlkSize(k);
    ChildAddr(Blk(k + 1, (left + 1) / 2));
    ChildAddr(Blk(k + 1, right / 2));
    Doubled(left, s);
    Doubled(right, s);
    assert 1 * s == s && 2 * s == s + s;
  }

  lemma Doubled(i: nat, s: nat)
    ensures i % 2 == 0 ==> (2 * ((i + 1) / 2)) * s == i * s && (2 * (i / 2)) * s == i * s
    ensures i % 2 == 1 ==> (2 * ((i + 1) / 2)) * s == i * s + s && (2 * (i / 2)) * s == i * s - s
  {
    if i % 2 == 0 {
      assert 2 * ((i + 1) / 2) == i && 2 * (i / 2) == i;
    } else {
      assert 2 * ((i + 1) / 2) == i + 1 && 2 * (i / 2) == i - 1;
      assert (i + 1) * s == i * s + s && (i - 1) * s == i * s - s;
    }
  }

  /** The bytes that go free at size `k`, each block counted once. */
  function Once(meta: nat, end: nat, k: nat): nat {
    |FreeAt(NextIndex(k, meta), BlkAt(k, end).i)| * BlkSize(k)
  }

  /** What a clash at size `k` adds to the count. */
  function Again(meta: nat, end: nat, k: nat): nat {
    if Clash(meta, end, k) then BlkSize(k) else 0
  }

  function Sum(f: nat -> nat, k: nat): nat {
    if k == 0 then 0 else Sum(f, k - 1) + f(k - 1)
  }

  function OnceBelow(meta: nat, end: nat, k: nat): nat {
    Sum(j => Once(meta, end, j), k)
  }

  function AgainBelow(meta: nat, end: nat, k: nat): nat {
    Sum(j => Again(meta, end, j), k)
  }

  /** What rounding both boundaries to size `k` leaves out, until they meet. */
  function Outside(meta: nat, end: nat, k: nat): int {
    var left, right := NextIndex(k, meta), BlkAt(k, end).i;
    if left < right then Addr(Blk(k, left)) - meta + end - Addr(Blk(k, right)) else end - meta
  }

  lemma OutsideStep(meta: nat, end: nat, k: nat)
    ensures Outside(meta, end, k + 1) ==
            Outside(meta, end, k) + Once(meta, end, k)
  {
    NextIndexHalves(k, meta);
    ParentAt(k, end);
    var left, right := NextIndex(k, meta), BlkAt(k, end).i;
    if left < right {
      LevelBytes(k, left, right);
    } else {
      assert 0 * BlkSize(k) == 0;
    }
  }

  lemma {:induction false} OnceBelowIs(top: nat, meta: nat, end: nat, k: nat)
    requires Layout(top, meta, end)
    ensures OnceBelow(meta, end, k) == Outside(meta, end, k)
  {
    if k == 0 {
      AlignedLeaf(meta);
      AlignedLeaf(end);
      assert BlkSize(0) == LEAF_SIZE;
    } else {
      OnceBelowIs(top, meta, end, k - 1);
      OutsideStep(meta, end, k - 1);
    }
  }

  lemma LevelCount(s: State, meta: nat, end: nat, k: nat)
    requires MarkedBits(s, meta, end) && Layout(s.top, meta, end) && k < s.top
    ensures |InitState(s, meta, end).free[k]| * BlkSize(k) == Once(meta, end, k) + Again(meta, end, k)
  {
    LevelListIs(s, meta, end, k);
    Times(|FreeAt(NextIndex(k, meta), BlkAt(k, end).i)|, BlkSize(k));
  }

  lemma Times(n: nat, s: nat)
    ensures (n + 1) * s == n * s + s
  {
  }

  lemma PrefixBytes(free: seq<seq<nat>>, k: nat)
    requires k < |free|
    ensures FreeBytes(free[..k + 1]) == FreeBytes(free[..k]) + |free[k]| * BlkSize(k)
  {
    assert free[..k + 1][..k] == free[..k];
  }

  lemma {:induction false} CountBelow(free: seq<seq<nat>>, f: nat -> nat, g: nat -> nat, k: nat)
    requires k <= |free| && forall j: nat | j < k :: |free[j]| * BlkSize(j) == f(j) + g(j)
    ensures FreeBytes(free[..k]) == Sum(f, k) + Sum(g, k)
  {
    if k > 0 {
      CountBelow(free, f, g, k - 1);
      PrefixBytes(free, k - 1);
    }
  }

  lemma AlignedLeaf(p: nat)
    requires p % LEAF_SIZE == 0
    ensures Addr(Blk(0, NextIndex(0, p))) == p && Addr(BlkAt(0, p)) == p
  {
    assert BlkSize(0) == LEAF_SIZE;
  }

  lemma CountsAdd(s: State, meta: nat, end: nat)
    requires MarkedBits(s, meta, end) && Layout(s.top, meta, end)
    ensures FreeBytes(InitState(s, meta, end).free[..s.top]) ==
            OnceBelow(meta, end, s.top) + AgainBelow(meta, end, s.top)
  {
    var free := InitState(s, meta, end).free;
    forall k: nat | k < s.top
      ensures |free[k]| * BlkSize(k) == Once(meta, end, k) + Again(meta, end, k)
    {
      LevelCount(s, meta, end, k);
    }
    CountBelow(free, j => Once(meta, end, j), j => Again(meta, end, j), s.top);
  }

  lemma OnceAll(top: nat, meta: nat, end: nat)
    requires Layout(top, meta, end)
    ensures OnceBelow(meta, end, top) == end - meta
  {
    OnceBelowIs(top, meta, end, top);
    LevelFacts(top, meta, end, top);
  }

  lemma NoneLast(free: seq<seq<nat>>, top: nat)
    requires |free| == top + 1 && free[top] == []
    ensures FreeBytes(free) == FreeBytes(free[..top])
  {
  }

  /** The count of `bd_initfree`: the heap without metadata and unavailable end, and a block more for
      every size with a clash. */
  lemma InitFreeBytes(s: State, meta: nat, end: nat)
    requires MarkedBits(s, meta, end) && Layout(s.top, meta, end)
    ensures FreeBytes(InitState(s, meta, end).free) == end - meta + AgainBelow(meta, end, s.top)
  {
    CountsAdd(s, meta, end);
    OnceAll(s.top, meta, end);
    NoneLast(InitState(s, meta, end).free, s.top);
  }

  lemma {:induction false} NoneAgain(meta: nat, end: nat, k: nat)
    ensures AgainBelow(meta, end, k) == 0 <==> NoClash(k, meta, end)
  {
    if k > 0 {
      NoneAgain(meta, end, k - 1);
      assert NoClash(k, meta, end) <==> NoClash(k - 1, meta, end) && !Clash(meta, end, k - 1);
    }
  }

  /** The final check of `bd_init` passes if and only if no size has a clash. */
  lemma CountIff(s: State, meta: nat, end: nat)
    requires MarkedBits(s, meta, end) && Layout(s.top, meta, end)
    ensures FreeBytes(InitState(s, meta, end).free) == end - meta <==> NoClash(s.top, meta, end)
  {
    InitFreeBytes(s, meta, end);
    NoneAgain(meta, end, s.top);
  }

  lemma HalfHeap(top: nat, k: nat)
    requires k < top
    ensures BlkSize(top) == 2 * Addr(Blk(k, Pow2(top - k - 1)))
  {
    HeapInBlocks(top, k + 1);
    var h, s := Pow2(top - k - 1), BlkSize(k);
    assert h * (2 * s) == 2 * (h * s);
  }

  lemma NextTo(k: nat, i: nat)
    ensures Addr(Blk(k, i + 1)) == Addr(Blk(k, i)) + BlkSize(k)
  {
  }

  /** Where the left boundary of size `k` is relative to the middle of the heap. */
  lemma LeftOfMiddle(top: nat, meta: nat, k: nat, h: nat)
    requires k < top && h == Pow2(top - k - 1) && 2 * meta <= BlkSize(top)
    ensures NextIndex(k, meta) <= h
    ensures NextIndex(k, meta) == h <==> BlkSize(top) < 2 * meta + 2 * BlkSize(k)
  {
    HalfHeap(top, k);
    NextTo(k, h - 1);
    NextIndexIs(k, meta, h - 1);
    NextIndexIs(k, meta, h);
  }

  lemma RightOfMiddle(top: nat, end: nat, k: nat, h: nat)
    requires k < top && h == Pow2(top - k - 1) && BlkSize(top) <= 2 * end
    ensures h <= BlkAt(k, end).i
    ensures var heap, s := BlkSize(top), BlkSize(k);
            BlkAt(k, end).i == h + 1 <==> heap + 2 * s <= 2 * end < heap + 4 * s
  {
    HalfHeap(top, k);
    NextTo(k, h - 1);
    NextTo(k, h);
    NextTo(k, h + 1);
    IndexIs(k, end, h - 1);
    IndexIs(k, end, h);
    IndexIs(k, end, h + 1);
  }

  /** With the middle of the heap between metadata and end, a clash at size `k` is the block after
      the middle being free and last while the one before the middle holds metadata. */
  lemma ClashIff(top: nat, meta: nat, end: nat, k: nat)
    requires Layout(top, meta, end) && 2 * meta <= BlkSize(top) <= 2 * end && k < top
    ensures var heap, s := BlkSize(top), BlkSize(k);
            Clash(meta, end, k) <==>
            k < top - 1 && heap < 2 * meta + 2 * s && heap + 2 * s <= 2 * end < heap + 4 * s
  {
    var h := Pow2(top - k - 1);
    LevelFacts(top, meta, end, k);
    LeftOfMiddle(top, meta, k, h);
    RightOfMiddle(top, end, k, h);
    MiddleIndex(top, k);
    Middle(NextIndex(k, meta), BlkAt(k, end).i, h);
  }

  lemma MiddleIndex(top: nat, k: nat)
    requires k < top
    ensures var h := Pow2(top - k - 1); if k == top - 1 then h == 1 else h != 1 && h % 2 == 0
  {
    if k < top - 1 {
      assert Pow2(top - k - 1) == 2 * Pow2(top - k - 2);
    }
  }

  lemma Middle(left: nat, right: nat, h: nat)
    requires 1 <= left <= h <= right && (h == 1 || h % 2 == 0)
    ensures left % 2 == 0 && right == left + 1 <==> h != 1 && left == h && right == h + 1
  {
  }

  function Leaves(lo: nat, hi: nat): set<Blk> {
    set i | lo <= i < hi :: Blk(0, i)
  }

  lemma {:induction false} LeavesBytes(bs: set<Blk>, lo: nat, hi: nat)
    requires lo <= hi && bs !! Leaves(lo, hi)
    ensures Bytes(bs + Leaves(lo, hi)) == Bytes(bs) + LEAF_SIZE * (hi - lo)
    decreases hi - lo
  {
    if lo == hi {
      assert bs + Leaves(lo, hi) == bs;
    } else {
      LeavesBytes(bs, lo, hi - 1);
      assert Blk(0, hi - 1) in Leaves(lo, hi);
      BytesAdd(bs + Leaves(lo, hi - 1), Blk(0, hi - 1));
      assert bs + Leaves(lo, hi) == bs + Leaves(lo, hi - 1) + {Blk(0, hi - 1)};
      assert BlkSize(0) == LEAF_SIZE;
    }
  }

  lemma LiveIsLeaves(s: State, meta: nat, end: nat)
    requires MarkedBits(s, meta, end) && Layout(s.top, meta, end)
    ensures Live(s) == Leaves(0, meta / LEAF_SIZE) + Leaves(end / LEAF_SIZE, Pow2(s.top))
  {
    forall b: Blk
      ensures b in Live(s) <==> b in Leaves(0, meta / LEAF_SIZE) + Leaves(end / LEAF_SIZE, Pow2(s.top))
    {
      assert b in Live(s) <==> Taken(s.top, meta, end, b) && b.k == 0;
      if b.k == 0 {
        assert Addr(b) == b.i * LEAF_SIZE && BlkSize(b.k) == LEAF_SIZE;
      }
    }
  }

  /** At the start the live blocks are the leaves of the two marked ranges, and live and free
      bytes together are the heap. */
  lemma InitLive(s: State, meta: nat, end: nat)
    requires MarkedBits(s, meta, end) && Layout(s.top, meta, end) && NoClash(s.top, meta, end)
    ensures Live(s) == Leaves(0, meta / LEAF_SIZE) + Leaves(end / LEAF_SIZE, Pow2(s.top))
    ensures FreeBytes(InitState(s, meta, end).free) + Bytes(Live(s)) == BlkSize(s.top)
  {
    LiveIsLeaves(s, meta, end);
    var m, e := meta / LEAF_SIZE, end / LEAF_SIZE;
    LeavesBytes({}, 0, m);
    assert {} + Leaves(0, m) == Leaves(0, m);
    LeavesBytes(Leaves(0, m), e, Pow2(s.top));
    CountIff(s, meta, end);
  }
}
