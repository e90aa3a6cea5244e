/** `bd_malloc`, `size` and `bd_free` of kernel/buddy.c as functions of the tree, and what holds
    of every run of them: well-formedness, disjoint live blocks, conserved bytes, and a free that
    undoes the malloc before it. */
module BuddyOps {
  import opened Options
  import opened List
  import opened BuddyTree

  // ---------------------------------------------------------------- the operations

  /** Lines 131-134: the first size at or above `k` with a free block, past the end if none. */
  function FindLevel(s: State, k: nat): (r: nat)
    ensures k <= r
    ensures r < |s.free| ==> s.free[r] != []
    ensures forall j | k <= j < r && j < |s.free| :: s.free[j] == []
    decreases |s.free| - k
  {
    if k >= |s.free| || s.free[k] != [] then k else FindLevel(s, k + 1)
  }

  /** Lines 143-150: halve `b` until it has size `fk`. */
  function SplitDown(s: State, b: Blk, fk: nat): (r: (State, Blk))
    requires fk <= b.k <= |s.free|
    decreases b.k
  {
    if b.k == fk then (s, b) else SplitDown(Split(s, b), Left(b), fk)
  }

  function Malloc(s: State, fk: nat): (State, Option<Blk>) {
    var k := FindLevel(s, fk);
    if k >= |s.free| then (s, None)
    else
      var (t, b) := SplitDown(Pop(s, k), Blk(k, s.free[k][0]), fk);
      (t, Some(b))
  }

  /** Lines 158-165. `None` is the read past the last size record. */
  function SizeFrom(s: State, k: nat, p: nat): Option<nat>
    decreases s.top - k
  {
    if k >= s.top then None
    else if BlkAt(k + 1, p) in s.split then Some(k)
    else SizeFrom(s, k + 1, p)
  }

  function Size(s: State, p: nat): Option<nat> {
    SizeFrom(s, 0, p)
  }

  /** Lines 175-192: merge upwards while the buddy is free, then push. */
  function FreeUp(s: State, b: Blk): State
    requires |s.free| == s.top + 1 && b.k <= s.top
    decreases s.top - b.k
  {
    if b.k == s.top then s.(free := s.free[b.k := [b.i] + s.free[b.k]])
    else if Buddy(b) in s.alloc then Release(s, b)
    else FreeUp(Merge(s, b), Parent(b))
  }

  // ---------------------------------------------------------------- bytes

  function FreeBytes(free: seq<seq<nat>>): nat {
    if free == [] then 0
    else FreeBytes(free[..|free| - 1]) + |free[|free| - 1]| * BlkSize(|free| - 1)
  }

  lemma FreeBytesUpdate(free: seq<seq<nat>>, k: nat, l: seq<nat>)
    requires k < |free|
    ensures FreeBytes(free[k := l]) == FreeBytes(free) - |free[k]| * BlkSize(k) + |l| * BlkSize(k)
  {
    var n := |free| - 1;
    var t := free[k := l];
    if k == n {
      assert t[..n] == free[..n];
    } else {
      FreeBytesUpdate(free[..n], k, l);
      assert t[..n] == free[..n][k := l];
    }
  }

  lemma FreeBytesPushed(free: seq<seq<nat>>, k: nat, l: seq<nat>)
    requires k < |free| && |l| == |free[k]| + 1
    ensures FreeBytes(free[k := l]) == FreeBytes(free) + BlkSize(k)
  {
    FreeBytesUpdate(free, k, l);
    assert |l| * BlkSize(k) == |free[k]| * BlkSize(k) + BlkSize(k);
  }

  lemma FreeBytesTaken(free: seq<seq<nat>>, k: nat, l: seq<nat>)
    requires k < |free| && |l| + 1 == |free[k]|
    ensures FreeBytes(free[k := l]) == FreeBytes(free) - BlkSize(k)
  {
    FreeBytesUpdate(free, k, l);
    assert |free[k]| * BlkSize(k) == |l| * BlkSize(k) + BlkSize(k);
  }

  ghost function Bytes(bs: set<Blk>): nat {
    if bs == {} then 0
    else var b :| b in bs; Bytes(bs - {b}) + BlkSize(b.k)
  }

  lemma BytesAdd(bs: set<Blk>, b: Blk)
    requires b !in bs
    ensures Bytes(bs + {b}) == Bytes(bs) + BlkSize(b.k)
    decreases bs
  {
    var all := bs + {b};
    var c :| c in all && Bytes(all) == Bytes(all - {c}) + BlkSize(c.k);
    if c == b {
      assert all - {c} == bs;
    } else {
      assert all - {c} == (bs - {c}) + {b};
      BytesAdd(bs - {c}, b);
      assert (bs - {c}) + {c} == bs;
      BytesAdd(bs - {c}, c);
    }
  }

  lemma BytesRemove(bs: set<Blk>, b: Blk)
    requires b in bs
    ensures Bytes(bs - {b}) == Bytes(bs) - BlkSize(b.k)
  {
    BytesAdd(bs - {b}, b);
    assert (bs - {b}) + {b} == bs;
  }

  // ---------------------------------------------------------------- bd_malloc

  lemma {:induction false} SplitDownStep(s: State, b: Blk, fk: nat)
    requires Wf(s) && b in Live(s) && fk <= b.k <= s.top && b != Blk(0, 0)
    ensures var (t, c) := SplitDown(s, b, fk);
            && Wf(t) && t.top == s.top && c.k == fk && c != Blk(0, 0)
            && c !in Live(s) - {b} && Live(t) == Live(s) - {b} + {c}
            && FreeBytes(t.free) + BlkSize(fk) == FreeBytes(s.free) + BlkSize(b.k)
    decreases b.k
  {
    if b.k > fk {
      SplitStep(s, b);
      ChildAddr(b);
      var t, l := Split(s, b), Left(b);
      FreeBytesPushed(s.free, b.k - 1, t.free[b.k - 1]);
      SplitDownStep(t, l, fk);
      var (u, c) := SplitDown(t, l, fk);
      assert Live(t) - {l} == Live(s) - {b};
      assert Live(u) == Live(s) - {b} + {c};
    }
  }

  /** A failed call changes nothing and happens exactly when no free block is big enough; a
      successful one makes one new live block of the requested size out of free bytes. */
  lemma MallocStep(s: State, fk: nat)
    requires Wf(s)
    ensures var (t, r) := Malloc(s, fk);
            && Wf(t) && t.top == s.top
            && (r.None? <==> forall b: Blk | OnList(s, b) :: b.k < fk)
            && (r.None? ==> t == s)
            && (r.Some? ==>
                && r.value.k == fk && r.value != Blk(0, 0)
                && r.value !in Live(s) && Live(t) == Live(s) + {r.value}
                && FreeBytes(t.free) + BlkSize(fk) == FreeBytes(s.free))
  {
    var k := FindLevel(s, fk);
    if k < |s.free| {
      var b, t := Blk(k, s.free[k][0]), Pop(s, k);
      assert OnList(s, b);
      PopStep(s, k);
      FreeBytesTaken(s.free, k, t.free[k]);
      SplitDownStep(t, b, fk);
      assert Live(t) - {b} == Live(s);
    } else {
      forall b: Blk | OnList(s, b)
        ensures b.k < fk
      {
        assert s.free[b.k] != [];
      }
    }
  }

  /** Between two states that differ by splits of a block at `p`: one block more at the head of every
      list from `lo` up to `hi`, the upper neighbour of the block of its size at `p`. */
  ghost predicate HalvesFreed(was: seq<seq<nat>>, now: seq<seq<nat>>, p: nat, lo: nat, hi: nat) {
    && |now| == |was|
    && (forall j | 0 <= j < |was| && !(lo <= j < hi) :: now[j] == was[j])
    && (forall j | lo <= j < hi && j < |was| ::
          now[j] != [] && now[j][1..] == was[j] && now[j][0] * BlkSize(j) == p + BlkSize(j))
  }

  lemma {:induction false} SplitDownLists(s: State, b: Blk, fk: nat)
    requires fk <= b.k <= |s.free|
    ensures var (t, c) := SplitDown(s, b, fk);
            Addr(c) == Addr(b) && HalvesFreed(s.free, t.free, Addr(b), fk, b.k)
    decreases b.k
  {
    if b.k > fk {
      ChildAddr(b);
      SplitDownLists(Split(s, b), Left(b), fk);
    }
  }

  /** Which block a successful call takes: the start of the first block on the first list, from the
      requested size up, that is not empty. The rest of that block becomes one free block of every size
      below, and no other list changes. */
  lemma MallocTakes(s: State, fk: nat) returns (k: nat)
    requires Wf(s) && Malloc(s, fk).1.Some?
    ensures fk <= k < |s.free| && s.free[k] != [] && forall j | fk <= j < k :: s.free[j] == []
    ensures var (t, r) := Malloc(s, fk);
            && Addr(r.value) == s.free[k][0] * BlkSize(k)
            && HalvesFreed(s.free[k := s.free[k][1..]], t.free, Addr(r.value), fk, k)
  {
    k := FindLevel(s, fk);
    SplitDownLists(Pop(s, k), Blk(k, s.free[k][0]), fk);
  }

  // ---------------------------------------------------------------- size

  lemma {:induction false} NothingBelow(s: State, k: nat, j: nat, p: nat)
    requires Wf(s) && j <= k <= s.top && BlkAt(k, p) !in s.split
    ensures j < k ==> BlkAt(j, p) !in s.alloc
    ensures BlkAt(j, p) !in s.split
    decreases k - j
  {
    if j < k {
      NothingBelow(s, k, j + 1, p);
      ParentAt(j, p);
      assert !InTree(s.top, s.split, BlkAt(j, p));
    }
  }

  lemma {:induction false} SizeFinds(s: State, b: Blk, k: nat)
    requires Wf(s) && b in Live(s) && k <= b.k < s.top
    ensures SizeFrom(s, k, Addr(b)) == Some(b.k)
    decreases b.k - k
  {
    var p := Addr(b);
    AtAddr(b);
    if k < b.k {
      NothingBelow(s, b.k, k + 1, p);
      SizeFinds(s, b, k + 1);
    } else {
      ParentAt(k, p);
      assert InTree(s.top, s.split, b);
    }
  }

  /** `size` recovers the size of every live block and never reads past the last record. */
  lemma SizeOfLive(s: State, b: Blk)
    requires Wf(s) && b in Live(s)
    ensures b.k < s.top && Size(s, Addr(b)) == Some(b.k)
  {
    LiveBelowTop(s, b);
    SizeFinds(s, b, 0);
  }

  lemma LiveBelowTop(s: State, b: Blk)
    requires Wf(s) && b in Live(s)
    ensures b.k < s.top
  {
    assert InTree(s.top, s.split, b) && SpineAt(s.split, s.top);
  }

  // ---------------------------------------------------------------- bd_free

  lemma {:induction false} FreeStep(s: State, b: Blk)
    requires Wf(s) && b in Live(s) && b != Blk(0, 0) && b.k <= s.top
    ensures var t := FreeUp(s, b);
            && Wf(t) && t.top == s.top && Live(t) == Live(s) - {b}
            && FreeBytes(t.free) == FreeBytes(s.free) + BlkSize(b.k)
    decreases s.top - b.k
  {
    LiveBelowTop(s, b);
    if Buddy(b) in s.alloc {
      ReleaseStep(s, b);
      FreeBytesPushed(s.free, b.k, [b.i] + s.free[b.k]);
    } else {
      MergeStep(s, b);
      RemoveFrom(s.free[b.k], Buddy(b).i);
      FreeBytesTaken(s.free, b.k, Merge(s, b).free[b.k]);
      ChildAddr(Parent(b));
      FreeStep(Merge(s, b), Parent(b));
    }
  }

  // ---------------------------------------------------------------- free undoes malloc

  lemma MergeUndoesSplit(s: State, b: Blk)
    requires Wf(s) && b in Live(s) && 1 <= b.k <= s.top
    ensures Buddy(Left(b)) !in Split(s, b).alloc
    ensures Merge(Split(s, b), Left(b)) == s
  {
    SplitStep(s, b);
    var t := Split(s, b);
    assert Buddy(Left(b)) == Right(b) && Parent(Left(b)) == b;
    assert Merge(t, Left(b)).alloc == s.alloc;
    assert Merge(t, Left(b)).split == s.split;
    assert Remove(t.free[b.k - 1], Right(b).i) == s.free[b.k - 1];
    assert Merge(t, Left(b)).free == s.free;
  }

  lemma {:induction false} FreeUndoesSplitDown(s: State, b: Blk, fk: nat)
    requires Wf(s) && b in Live(s) && fk <= b.k <= s.top && b != Blk(0, 0)
    ensures var (t, c) := SplitDown(s, b, fk);
            |t.free| == t.top + 1 && c.k <= t.top && FreeUp(t, c) == FreeUp(s, b)
    decreases b.k
  {
    if b.k > fk {
      SplitStep(s, b);
      MergeUndoesSplit(s, b);
      FreeUndoesSplitDown(Split(s, b), Left(b), fk);
    }
  }

  /** A successful malloc followed by the free of its result restores every alloc bit, every
      split bit and every free list in its order; `size` finds the size malloc had chosen. */
  lemma FreeUndoesMalloc(s: State, fk: nat)
    requires Wf(s) && Malloc(s, fk).1.Some?
    ensures var (t, r) := Malloc(s, fk);
            && r.value in Live(t) && |t.free| == t.top + 1 && r.value.k <= t.top
            && Size(t, Addr(r.value)) == Some(fk)
            && FreeUp(t, r.value) == s
  {
    MallocStep(s, fk);
    var k := FindLevel(s, fk);
    var b, t := Blk(k, s.free[k][0]), Pop(s, k);
    PopStep(s, k);
    SizeOfLive(Malloc(s, fk).0, Malloc(s, fk).1.value);
    FreeUndoesSplitDown(t, b, fk);
    assert OnList(s, b);
    assert Buddy(b) in s.alloc by {
      assert HalfUsed(s.alloc, Parent(b));
      Siblings(b, Left(Parent(b)));
      Siblings(b, Right(Parent(b)));
    }
    assert FreeUp(t, b) == Release(t, b);
    assert Release(t, b).alloc == s.alloc;
    assert Release(t, b).free == s.free by {
      assert [b.i] + s.free[k][1..] == s.free[k];
    }
  }
}
