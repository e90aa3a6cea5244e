/** How many blocks kernel/fs.c has left and how many a write still needs, which decides when
    `balloc` panics. */
module FileSpace {
  import opened FileBlocks

  // ---------------------------------------------------------------- blocks that are not marked

  function SpareBelow(s: Super, d: Disk, n: nat): nat {
    if n == 0 then 0 else SpareBelow(s, d, n - 1) + if Used(s, d, n - 1) then 0 else 1
  }

  /** How many blocks of the file system are not marked. */
  function Spare(s: Super, d: Disk): nat {
    SpareBelow(s, d, s.size)
  }

  lemma {:induction false} NoSpare(s: Super, d: Disk, n: nat)
    ensures SpareBelow(s, d, n) == 0 <==> forall b | 0 <= b < n :: Used(s, d, b)
  {
    if n > 0 { NoSpare(s, d, n - 1); }
  }

  lemma {:induction false} SpareTaken(s: Super, d: Disk, e: Disk, b: nat, n: nat)
    requires forall c {:trigger Used(s, e, c)} | 0 <= c < n :: Used(s, e, c) <==> c == b || Used(s, d, c)
    requires !Used(s, d, b)
    ensures SpareBelow(s, d, n) == SpareBelow(s, e, n) + if b < n then 1 else 0
  {
    if n > 0 {
      assert Used(s, e, n - 1) <==> n - 1 == b || Used(s, d, n - 1);
      SpareTaken(s, d, e, b, n - 1);
    }
  }

  lemma {:induction false} SpareSame(s: Super, d: Disk, e: Disk, n: nat)
    requires forall c {:trigger Used(s, e, c)} | 0 <= c < n :: Used(s, e, c) == Used(s, d, c)
    ensures SpareBelow(s, d, n) == SpareBelow(s, e, n)
  {
    if n > 0 {
      assert Used(s, e, n - 1) == Used(s, d, n - 1);
      SpareSame(s, d, e, n - 1);
    }
  }

  // ---------------------------------------------------------------- blocks that a file lacks

  /** The slots from `lo` up to `hi` that have no block. */
  function Lacking(d: Disk, ip: Inode, lo: nat, hi: nat): nat {
    if hi <= lo then 0 else Lacking(d, ip, lo, hi - 1) + if BlockOf(d, ip, hi - 1) == 0 then 1 else 0
  }

  /** How many blocks it takes to give each of those slots one: the indirect block comes on top if one
      of them is in it and the file has none. */
  function Need(d: Disk, ip: Inode, lo: nat, hi: nat): nat {
    Lacking(d, ip, lo, hi) + if lo < hi && hi > 12 && BlockOf(d, ip, 268) == 0 then 1 else 0
  }

  /** Slot `k` has a block, and so has the indirect block if the slot is in it; nothing else changed. */
  ghost predicate Gained(d: Disk, ip: Inode, e: Disk, jp: Inode, k: nat) {
    true == (
      && BlockOf(e, jp, k) != 0 && (k >= 12 ==> BlockOf(e, jp, 268) != 0)
      && forall l {:trigger BlockOf(e, jp, l)} | 0 <= l <= 268 ::
           BlockOf(e, jp, l) == BlockOf(d, ip, l) || (BlockOf(d, ip, l) == 0 && (l == k || (l == 268 && k >= 12))))
  }

  /** No slot but `k` changed. */
  ghost predicate OnlySlot(d: Disk, ip: Inode, e: Disk, jp: Inode, k: nat) {
    true == forall l {:trigger BlockOf(e, jp, l)} | 0 <= l <= 268 && l != k :: BlockOf(e, jp, l) == BlockOf(d, ip, l)
  }

  /** What a slot by itself needs. */
  function Own(d: Disk, ip: Inode, k: nat): nat {
    if BlockOf(d, ip, k) == 0 then 1 else 0
  }

  lemma GainedDirect(d: Disk, ip: Inode, e: Disk, jp: Inode, k: nat)
    requires k < 12 && OnlySlot(d, ip, e, jp, k) && BlockOf(e, jp, k) != 0
    requires BlockOf(d, ip, k) != 0 ==> BlockOf(e, jp, k) == BlockOf(d, ip, k)
    ensures Gained(d, ip, e, jp, k)
  {
  }

  lemma NeedDirect(d: Disk, ip: Inode, k: nat)
    requires k < 12
    ensures Need(d, ip, k, k + 1) == Own(d, ip, k)
  {
    assert Lacking(d, ip, k, k + 1) == Lacking(d, ip, k, k) + Own(d, ip, k);
  }

  lemma GainedIndirect(d: Disk, ip: Inode, e: Disk, jp: Inode, f: Disk, k: nat)
    requires 12 <= k < 268 && OnlySlot(d, ip, e, jp, 268) && BlockOf(e, jp, 268) != 0
    requires BlockOf(d, ip, 268) != 0 ==> BlockOf(e, jp, 268) == BlockOf(d, ip, 268)
    requires OnlySlot(e, jp, f, jp, k) && BlockOf(f, jp, k) != 0
    requires BlockOf(e, jp, k) != 0 ==> BlockOf(f, jp, k) == BlockOf(e, jp, k)
    ensures Gained(d, ip, f, jp, k)
  {
    forall l | 0 <= l <= 268 && (BlockOf(d, ip, l) != 0 || !(l == k || l == 268))
      ensures BlockOf(f, jp, l) == BlockOf(d, ip, l)
    {
      assert l != k ==> BlockOf(f, jp, l) == BlockOf(e, jp, l);
      assert l != 268 ==> BlockOf(e, jp, l) == BlockOf(d, ip, l);
    }
    assert BlockOf(f, jp, 268) == BlockOf(e, jp, 268);
  }

  lemma NeedIndirect(d: Disk, ip: Inode, k: nat)
    requires 12 <= k < 268
    ensures Need(d, ip, k, k + 1) == Own(d, ip, 268) + Own(d, ip, k)
  {
    assert Lacking(d, ip, k, k + 1) == Lacking(d, ip, k, k) + Own(d, ip, k);
  }

  lemma NeedInRange(d: Disk, ip: Inode, k: nat, lo: nat, hi: nat)
    requires lo <= k < hi
    ensures Need(d, ip, k, k + 1) <= Need(d, ip, lo, hi)
  {
    assert Lacking(d, ip, k, k + 1) == Lacking(d, ip, k, k) + Own(d, ip, k);
    LackingInRange(d, ip, k, lo, hi);
  }

  lemma {:induction false} LackingInRange(d: Disk, ip: Inode, k: nat, lo: nat, hi: nat)
    requires lo <= k < hi
    ensures Own(d, ip, k) <= Lacking(d, ip, lo, hi)
    decreases hi
  {
    if k < hi - 1 { LackingInRange(d, ip, k, lo, hi - 1); }
  }

  ghost predicate SameSlots(d: Disk, ip: Inode, e: Disk, jp: Inode) {
    true == forall l {:trigger BlockOf(e, jp, l)} | 0 <= l <= 268 :: BlockOf(e, jp, l) == BlockOf(d, ip, l)
  }

  lemma {:induction false} LackingGained(d: Disk, ip: Inode, e: Disk, jp: Inode, k: nat, lo: nat, hi: nat)
    requires Gained(d, ip, e, jp, k) && k < 268 && hi <= 268
    ensures Lacking(d, ip, lo, hi) ==
            Lacking(e, jp, lo, hi) + if lo <= k < hi && BlockOf(d, ip, k) == 0 then 1 else 0
    decreases hi
  {
    if lo < hi { LackingGained(d, ip, e, jp, k, lo, hi - 1); }
  }

  /** What the rest of a range needs once slot `k` has what it needed. */
  lemma NeedGained(d: Disk, ip: Inode, e: Disk, jp: Inode, k: nat, lo: nat, hi: nat)
    requires Gained(d, ip, e, jp, k) && lo <= k < hi <= 268
    ensures Need(d, ip, lo, hi) == Need(e, jp, lo, hi) + Need(d, ip, k, k + 1)
  {
    LackingGained(d, ip, e, jp, k, lo, hi);
    assert Lacking(d, ip, k, k + 1) == Lacking(d, ip, k, k) + if BlockOf(d, ip, k) == 0 then 1 else 0;
    assert k < 12 ==> BlockOf(e, jp, 268) == BlockOf(d, ip, 268);
  }

  /** Nothing is needed exactly if every slot of the range has a block. */
  lemma {:induction false} NoneLacking(d: Disk, ip: Inode, lo: nat, hi: nat)
    ensures Lacking(d, ip, lo, hi) == 0 <==> forall k | lo <= k < hi :: BlockOf(d, ip, k) != 0
    decreases hi
  {
    if lo < hi { NoneLacking(d, ip, lo, hi - 1); }
  }

  lemma NoNeedIff(d: Disk, ip: Inode, lo: nat, hi: nat)
    requires hi <= 268
    ensures Need(d, ip, lo, hi) == 0 <==> forall k | lo <= k < hi :: BlockOf(d, ip, k) != 0
  {
    NoneLacking(d, ip, lo, hi);
    if lo < hi && hi > 12 && BlockOf(d, ip, 268) == 0 {
      assert BlockOf(d, ip, hi - 1) == 0;
    }
  }

  lemma GainedThenSame(d: Disk, ip: Inode, e: Disk, jp: Inode, f: Disk, k: nat)
    requires Gained(d, ip, e, jp, k) && SameSlots(e, jp, f, jp) && k < 268
    ensures Gained(d, ip, f, jp, k)
  {
    forall l | 0 <= l <= 268 && (BlockOf(d, ip, l) != 0 || !(l == k || (l == 268 && k >= 12)))
      ensures BlockOf(f, jp, l) == BlockOf(d, ip, l)
    {
      assert BlockOf(e, jp, l) == BlockOf(d, ip, l);
    }
  }

  /** What the slots of a range got came out of the blocks that were not marked. */
  ghost predicate Paid(s: Super, d: Disk, ip: Inode, e: Disk, jp: Inode, lo: nat, hi: nat) {
    Spare(s, d) + Need(e, jp, lo, hi) == Spare(s, e) + Need(d, ip, lo, hi)
  }

  /** The block after the last one that holds some of the `n` bytes from `off` on. */
  function EndBlock(off: nat, n: nat): nat {
    if n == 0 then off / 1024 else (off + n - 1) / 1024 + 1
  }

  /** The blocks of a range are those that have a byte of it. */
  lemma RangeBlocksAre(off: nat, n: nat, k: nat)
    requires n > 0
    ensures off / 1024 <= k < EndBlock(off, n) <==> k * 1024 < off + n && off < (k + 1) * 1024
  {
  }

  lemma RangeBlocks(off: nat, n: nat, m: nat)
    requires m < n && off + n <= 274432
    ensures off / 1024 <= (off + m) / 1024 < EndBlock(off, n) <= 268
  {
  }

  lemma BlockInRange(off: nat, n: nat, k: nat)
    requires off / 1024 <= k < EndBlock(off, n)
    ensures var p := if k * 1024 < off then off else k * 1024; off <= p < off + n && p / 1024 == k
  {
  }

  /** A file that has every byte of a range has every block of it. */
  lemma WrittenNeedsNone(d: Disk, n: Inodes, i: nat, off: nat, cnt: nat)
    requires i in n && off + cnt <= 274432 && forall p | off <= p < off + cnt :: FileByte(d, n, i, p).Some?
    ensures Need(d, n[i], off / 1024, EndBlock(off, cnt)) == 0
  {
    var lo, hi := off / 1024, EndBlock(off, cnt);
    forall k | lo <= k < hi
      ensures BlockOf(d, n[i], k) != 0
    {
      BlockInRange(off, cnt, k);
      var p := if k * 1024 < off then off else k * 1024;
      assert FileByte(d, n, i, p).Some?;
    }
    if cnt > 0 { RangeBlocks(off, cnt, 0); }
    if lo < hi { NoNeedIff(d, n[i], lo, hi); }
  }
}
