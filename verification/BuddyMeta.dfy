/** How much metadata `bd_init` of kernel/buddy.c lays out, where it puts the end of the heap, and
    for which heaps the initialization works. */
module BuddyMeta {
  import opened BuddyTree
  import opened BuddyOps
  import opened BuddyRuns
  import opened BuddyInit

  // ---------------------------------------------------------------- the size of the metadata

  function RoundUp8(n: nat): nat
    requires n > 0
  {
    ((n - 1) / 8 + 1) * 8
  }

  function RoundUpToLeaf(n: nat): nat
    requires n > 0
  {
    ((n - 1) / 16 + 1) * 16
  }

  lemma RoundUpLeaf(n: nat)
    requires n > 0
    ensures RoundUpToLeaf(n) % LEAF_SIZE == 0 && n <= RoundUpToLeaf(n) < n + LEAF_SIZE
  {
  }

  /** Chars in a bit array for `Pow2(j)` blocks. */
  function BitArray(j: nat): nat {
    RoundUp8(Pow2(j)) / 8
  }

  /** Chars in the bit arrays of `j + 1` sizes, the largest array with `Pow2(j)` bits. */
  function BitArrays(j: nat): nat {
    BitArray(j) + if j == 0 then 0 else BitArrays(j - 1)
  }

  /** What `bd_init` lays out at the start of the heap: a 32-byte record per size, the alloc
      arrays of all sizes, and the split arrays of all sizes but the smallest. */
  function MetaSum(top: nat): (r: nat)
    ensures r > 0
  {
    32 * (top + 1) + BitArrays(top) + if top == 0 then 0 else BitArrays(top - 1)
  }

  function MetaBytes(top: nat): nat {
    RoundUpToLeaf(MetaSum(top))
  }

  lemma BitArrayIs(j: nat)
    ensures BitArray(j) == (Pow2(j) + 7) / 8
  {
  }

  lemma {:induction false} Pow2Eighths(j: nat)
    requires j >= 3
    ensures Pow2(j) % 8 == 0
  {
    if j == 3 {
      assert Pow2(3) == 8;
    } else {
      Pow2Eighths(j - 1);
    }
  }

  lemma {:induction false} BitArraysIs(j: nat)
    requires j >= 3
    ensures 4 * BitArrays(j) == Pow2(j) + 8
  {
    if j == 3 {
      SmallArrays();
    } else {
      Pow2Eighths(j);
      BitArrayIs(j);
      BitArraysIs(j - 1);
    }
  }

  lemma SmallArrays()
    ensures Pow2(3) == 8 && BitArrays(3) == 4
  {
    assert Pow2(0) == 1 && Pow2(1) == 2 && Pow2(2) == 4;
    assert BitArray(0) == 1 && BitArray(1) == 1 && BitArray(2) == 1 && BitArray(3) == 1;
    assert BitArrays(1) == 2;
  }

  lemma {:induction false} PowBeatsLine(top: nat)
    requires top >= 6
    ensures Pow2(top) >= 64
    ensures 8 * (32 * (top + 1)) + 3 * Pow2(top) + 32 <= 32 * Pow2(top)
  {
    if top == 6 {
      assert Pow2(6) == 64;
    } else {
      PowBeatsLine(top - 1);
    }
  }

  lemma MetaSumFits(top: nat)
    requires top >= 6
    ensures MetaSum(top) <= 4 * Pow2(top)
  {
    BitArraysIs(top);
    BitArraysIs(top - 1);
    PowBeatsLine(top);
    assert Pow2(top) == 2 * Pow2(top - 1);
  }

  /** The metadata fits in a quarter of the heap exactly when there are at least seven sizes. */
  lemma MetaFitsIff(top: nat)
    ensures 4 * MetaBytes(top) <= BlkSize(top) <==> top >= 6
  {
    var m, p := MetaSum(top), Pow2(top);
    if top >= 6 {
      MetaSumFits(top);
      Pow2Eighths(top);
      QuarterFits(m, p);
    } else {
      SmallHeaps(top);
      assert m >= 32 * (top + 1);
      QuarterExceeds(m, p);
    }
  }

  lemma QuarterFits(m: nat, p: nat)
    requires 0 < m <= 4 * p && p % 8 == 0
    ensures 4 * RoundUpToLeaf(m) <= LEAF_SIZE * p
  {
    var q, t := (m - 1) / 16, p / 8;
    assert p == 8 * t && 16 * q < 32 * t;
    assert q + 1 <= 2 * t;
  }

  lemma QuarterExceeds(m: nat, p: nat)
    requires m > 4 * p
    ensures 4 * RoundUpToLeaf(m) > LEAF_SIZE * p
  {
  }

  lemma SmallHeaps(top: nat)
    requires top < 6
    ensures 32 * (top + 1) > 4 * Pow2(top)
  {
    assert Pow2(0) == 1 && Pow2(1) == 2 && Pow2(2) == 4 && Pow2(3) == 8 && Pow2(4) == 16 && Pow2(5) == 32;
  }

  // ---------------------------------------------------------------- which heaps work

  /** Lines 283-289: the end of `n` bytes, cut to a leaf boundary. */
  function EndOf(n: nat): int {
    var heap := BlkSize(FirstK(n));
    if n < heap then heap - RoundUpToLeaf(heap - n) else heap
  }

  /** The bit arrays as the two calls of `bd_mark` leave them. */
  ghost function Marked(top: nat, meta: nat, end: nat): State {
    var all := set k: nat, i: nat | k <= top && i < Pow2(top) && Taken(top, meta, end, Blk(k, i)) :: Blk(k, i);
    State(top, all, set b | b in all && b.k >= 1, seq(top + 1, _ => []))
  }

  lemma {:induction false} Pow2Mono(a: nat, b: nat)
    requires a <= b
    ensures Pow2(a) <= Pow2(b)
    decreases b
  {
    if a < b { Pow2Mono(a, b - 1); }
  }

  lemma MarkedIs(top: nat, meta: nat, end: nat)
    ensures MarkedBits(Marked(top, meta, end), meta, end)
  {
    forall b: Blk | Taken(top, meta, end, b)
      ensures b in Marked(top, meta, end).alloc
    {
      Pow2Mono(top - b.k, top);
      assert b == Blk(b.k, b.i);
    }
  }

  /** The chars that hold the bits of both boundaries exist. The buddy of a block is in the same char. */
  predicate PairInside(top: nat, meta: nat, end: nat, k: nat)
    requires k <= top
  {
    NextIndex(k, meta) / 8 < BitArray(top - k) && BlkAt(k, end).i / 8 < BitArray(top - k)
  }

  /** `bd_initfree` looks at no bit outside its array, and what it counts passes the final check. */
  ghost predicate InitWorks(n: nat) {
    var top, meta, end := FirstK(n), MetaBytes(FirstK(n)), EndOf(n);
    && end >= 0
    && (forall k | 0 <= k < top :: PairInside(top, meta, end, k))
    && FreeBytes(InitState(Marked(top, meta, end), meta, end).free) == end - meta
  }

  predicate InitOk(n: nat) {
    var top := FirstK(n);
    n < BlkSize(top) && (top >= 6 || (top == 5 && n < 320) || (top == 4 && 176 <= n < 224))
  }

  lemma Powers()
    ensures Pow2(0) == 1 && Pow2(1) == 2 && Pow2(2) == 4 && Pow2(3) == 8 && Pow2(4) == 16 && Pow2(5) == 32
  {
  }

  lemma SmallMeta()
    ensures MetaBytes(0) == 48 && MetaBytes(1) == 80 && MetaBytes(2) == 112
    ensures MetaBytes(3) == 144 && MetaBytes(4) == 176 && MetaBytes(5) == 208
  {
    Powers();
    SmallArrays();
    BitArraysIs(4);
    BitArraysIs(5);
    assert BitArrays(0) == 1 && BitArrays(1) == 2 && BitArrays(2) == 3;
  }

  lemma SmallSizes()
    ensures BlkSize(0) == 16 && BlkSize(1) == 32 && BlkSize(2) == 64
    ensures BlkSize(3) == 128 && BlkSize(4) == 256 && BlkSize(5) == 512
  {
    Powers();
  }

  /** Heaps of up to four sizes are smaller than their metadata. */
  lemma TooSmall(top: nat)
    requires top <= 3
    ensures MetaBytes(top) > BlkSize(top)
  {
    SmallMeta();
    SmallSizes();
  }

  lemma MetaFacts(top: nat)
    requires top >= 4
    ensures var meta := MetaBytes(top);
            && meta > 0 && meta % 16 == 0 && 8 * meta <= 7 * BlkSize(top)
            && (top >= 5 ==> 2 * meta <= BlkSize(top)) && (top >= 6 ==> 4 * meta <= BlkSize(top))
  {
    RoundUpLeaf(MetaSum(top));
    if top >= 6 {
      MetaFitsIff(top);
    } else {
      SmallMeta();
      SmallSizes();
    }
  }

  lemma TailArith(heap: nat, half: nat, n: nat)
    requires heap == 2 * half && half % 16 == 0 && half < n < heap
    ensures var end := heap - RoundUpToLeaf(heap - n);
            half <= end < heap && end % 16 == 0 && end / 16 == n / 16
  {
  }

  lemma HalfAligned(top: nat)
    requires top >= 1
    ensures BlkSize(top) == 2 * BlkSize(top - 1) && BlkSize(top - 1) % 16 == 0
  {
  }

  lemma EndFacts(n: nat)
    requires FirstK(n) >= 1 && n < BlkSize(FirstK(n))
    ensures BlkSize(FirstK(n)) <= 2 * EndOf(n) && EndOf(n) < BlkSize(FirstK(n))
    ensures EndOf(n) % 16 == 0 && EndOf(n) / 16 == n / 16
  {
    HalfAligned(FirstK(n));
    TailArith(BlkSize(FirstK(n)), BlkSize(FirstK(n) - 1), n);
  }

  /** The metadata ends early enough for the pair at the left boundary to be in its array, if only
      among the bits that fill up the last char. */
  lemma LeftInside(top: nat, meta: nat, k: nat)
    requires k < top && 8 * meta <= 7 * BlkSize(top)
    ensures NextIndex(k, meta) / 8 < BitArray(top - k)
  {
    BitArrayIs(top - k);
    var n := Pow2(top - k);
    HeapInBlocks(top, k);
    NextIndexIs(k, meta, n);
    if top - k >= 3 {
      Pow2Eighths(top - k);
      NextTo(k, n - 1);
      Pow2Mono(3, top - k);
      Powers();
      MulMono(8, n, BlkSize(k));
      NextIndexIs(k, meta, n - 1);
    } else {
      Powers();
    }
  }

  lemma RightInside(top: nat, end: nat, k: nat)
    requires k < top && end < BlkSize(top)
    ensures BlkAt(k, end).i / 8 < BitArray(top - k)
  {
    AtInHeap(top, k, end);
    BitArrayIs(top - k);
  }

  /** A heap that is a power of two: the bit at the right boundary is the first after the array. */
  lemma FullHeap(top: nat, k: nat)
    requires k + 3 <= top
    ensures BlkAt(k, BlkSize(top)).i == Pow2(top - k) && Pow2(top - k) / 8 == BitArray(top - k)
  {
    HeapInBlocks(top, k);
    AtAddr(Blk(k, Pow2(top - k)));
    Pow2Eighths(top - k);
    BitArrayIs(top - k);
  }

  lemma LayoutOf(n: nat)
    requires FirstK(n) >= 4 && n < BlkSize(FirstK(n)) && MetaBytes(FirstK(n)) <= EndOf(n)
    ensures Layout(FirstK(n), MetaBytes(FirstK(n)), EndOf(n))
    ensures forall k | 0 <= k < FirstK(n) :: PairInside(FirstK(n), MetaBytes(FirstK(n)), EndOf(n), k)
  {
    var top := FirstK(n);
    MetaFacts(top);
    EndFacts(n);
    forall k | 0 <= k < top
      ensures PairInside(top, MetaBytes(top), EndOf(n), k)
    {
      LeftInside(top, MetaBytes(top), k);
      RightInside(top, EndOf(n), k);
    }
  }

  /** From seven sizes on no block is counted twice. */
  lemma LargeHeaps(top: nat, meta: nat, end: nat)
    requires Layout(top, meta, end) && 4 * meta <= BlkSize(top) <= 2 * end
    ensures NoClash(top, meta, end)
  {
    forall k | 0 <= k < top
      ensures !Clash(meta, end, k)
    {
      ClashIff(top, meta, end, k);
      if k < top - 1 {
        HeapInBlocks(top, k);
        Pow2Mono(2, top - k);
        Powers();
        MulMono(4, Pow2(top - k), BlkSize(k));
      }
    }
  }

  lemma SixSizes(end: nat)
    requires Layout(5, 208, end) && 512 <= 2 * end
    ensures NoClash(5, 208, end) <==> end < 320
  {
    SmallSizes();
    forall k: nat | k < 5
      ensures Clash(208, end, k) <==> (k == 2 && 320 <= end < 384) || (k == 3 && 384 <= end)
    {
      ClashIff(5, 208, end, k);
    }
    assert Clash(208, end, 2) <==> 320 <= end < 384;
    assert Clash(208, end, 3) <==> 384 <= end;
  }

  lemma FiveSizes(end: nat)
    requires Layout(4, 176, end)
    ensures NoClash(4, 176, end) <==> end < 224
  {
    SmallSizes();
    assert NextIndex(0, 176) == 11 && NextIndex(1, 176) == 6 && NextIndex(2, 176) == 3 && NextIndex(3, 176) == 2;
    assert BlkAt(1, end).i == 7 <==> 224 <= end;
    assert BlkAt(3, end).i < 2;
    assert Clash(176, end, 1) <==> 224 <= end;
  }

  lemma NoClashIff(n: nat)
    requires FirstK(n) >= 4 && n < BlkSize(FirstK(n)) && MetaBytes(FirstK(n)) <= EndOf(n)
    ensures NoClash(FirstK(n), MetaBytes(FirstK(n)), EndOf(n)) <==> InitOk(n)
  {
    var top, end := FirstK(n), EndOf(n);
    LayoutOf(n);
    MetaFacts(top);
    EndFacts(n);
    SmallMeta();
    SmallSizes();
    if top >= 6 {
      LargeHeaps(top, MetaBytes(top), end);
    } else if top == 5 {
      SixSizes(end);
    } else {
      FiveSizes(end);
    }
  }

  lemma OkHasRoom(n: nat)
    requires InitOk(n)
    ensures FirstK(n) >= 4 && MetaBytes(FirstK(n)) <= EndOf(n)
  {
    MetaFacts(FirstK(n));
    EndFacts(n);
    SmallMeta();
  }

  /** `bd_init` works on exactly the heaps of `InitOk`. */
  lemma InitWorksIff(n: nat)
    ensures InitWorks(n) <==> InitOk(n)
  {
    var top, end := FirstK(n), EndOf(n);
    var meta := MetaBytes(top);
    if end < meta {
      if InitOk(n) { OkHasRoom(n); }
    } else if n == BlkSize(top) {
      if top <= 3 { TooSmall(top); }
      FullHeap(top, 0);
      assert !PairInside(top, meta, end, 0);
    } else {
      if top <= 3 { TooSmall(top); }
      LayoutOf(n);
      MarkedIs(top, meta, end);
      CountIff(Marked(top, meta, end), meta, end);
      NoClashIff(n);
    }
  }

  /** 400 bytes: block 2 of size 3 goes on its list twice, so that 128 bytes too many are counted. */
  lemma InitAt400()
    ensures FirstK(400) == 5 && MetaBytes(5) == 208 && EndOf(400) == 400
    ensures var free := InitState(Marked(5, 208, 400), 208, 400).free;
            free[3] == [2, 2] && FreeBytes(free) == 400 - 208 + 128
    ensures !InitWorks(400)
  {
    SmallMeta();
    SmallSizes();
    assert FirstK(400) == 5;
    InitWorksIff(400);
    MarkedIs(5, 208, 400);
    var s := Marked(5, 208, 400);
    assert NextIndex(3, 208) == 2 && BlkAt(3, 400).i == 3;
    ClashTwice(s, 208, 400, 3);
    InitFreeBytes(s, 208, 400);
    AgainAt400();
  }

  lemma AgainAt400()
    ensures AgainBelow(208, 400, 5) == 128
  {
    SmallSizes();
    assert Layout(5, 208, 400);
    ClashIff(5, 208, 400, 0);
    ClashIff(5, 208, 400, 1);
    ClashIff(5, 208, 400, 2);
    ClashIff(5, 208, 400, 3);
    ClashIff(5, 208, 400, 4);
    assert AgainBelow(208, 400, 3) == 0;
  }
}
