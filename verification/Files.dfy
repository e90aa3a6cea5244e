/** Block allocation, block mapping, reading, writing and truncating of kernel/fs.c, proved against
    the byte sequences of FileBlocks.

    Inodes are the in-memory copies, which `iupdate` writes through. Copies to and from the caller
    succeed. */
module Files {
  import opened Options
  import opened FileBlocks
  import opened FileSpace
  import Bits

  class FileSystem {
    const s: Super
    var d: Disk
    var n: Inodes

    ghost predicate Ok()
      reads this
    {
      FsOk(s, d, n)
    }

    /** A file system whose files are all empty. */
    constructor (s: Super, d: Disk, n: Inodes)
      requires DiskOk(s, d) && forall i | i in n :: n[i] == Inode(0, seq(13, _ => 0))
      ensures Ok() && this.s == s && this.d == d && this.n == n
    {
      this.s, this.d, this.n := s, d, n;
      forall i: nat, k: nat
        ensures i in n ==> BlockOf(d, n[i], k) == 0
      {
      }
    }

    // ---------------------------------------------------------------- balloc and bfree

    /** Lines 73-82: the first clear bit of a bitmap block, or the end of the scan. */
    static method FirstClear(blk: Block, limit: nat) returns (bi: nat)
      requires |blk| == 1024
      ensures bi <= 8192 && bi <= limit && (forall j | 0 <= j < bi :: Bits.IsSet(blk, j))
      ensures bi < 8192 && bi < limit ==> !Bits.IsSet(blk, bi)
    {
      bi := 0;
      while bi < 8192 && bi < limit
        invariant bi <= 8192 && bi <= limit && (forall j | 0 <= j < bi :: Bits.IsSet(blk, j))
      {
        if !Bits.IsSet(blk, bi) { return; }
        bi := bi + 1;
      }
    }

    /** `balloc`: the first block that is not marked, now marked and cleared. None is its panic. */
    method Balloc() returns (r: Option<nat>)
      requires DiskOk(s, d)
      modifies this`d
      ensures r.None? ==> d == old(d) && forall b | 0 <= b < s.size :: Used(s, d, b)
      ensures r.Some? ==> r.value < s.size && !Used(s, old(d), r.value)
      ensures r.Some? ==> forall b | 0 <= b < r.value :: Used(s, old(d), b)
      ensures r.Some? ==> s.bmapstart + r.value / 8192 in old(d) && |old(d)[s.bmapstart + r.value / 8192]| == 1024
      ensures r.Some? ==> d == Allocated(s, old(d), r.value)
    {
      var b := 0;
      while b < s.size
        invariant b % 8192 == 0 && d == old(d) && (forall c | 0 <= c < b && c < s.size :: Used(s, d, c))
      {
        var at := s.bmapstart + b / 8192;
        assert BlockThere(s, d, at) && b / 8192 <= s.size / 8192;
        var bi := FirstClear(d[at], s.size - b);
        forall c | b <= c < b + bi
          ensures Used(s, d, c)
        {
          BitIndex(b, c);
        }
        if bi < 8192 && b + bi < s.size {
          BitIndex(b, b + bi);
          d := d[at := Bits.Set(d[at], bi)];
          d := d[b + bi := ZeroBlock()];
          return Some(b + bi);
        }
        b := b + 8192;
      }
      r := None;
    }

    /** `bfree`: its panic is this method's precondition. */
    method Bfree(b: nat)
      requires Used(s, d, b)
      modifies this`d
      ensures d == Unmarked(s, old(d), b)
    {
      var at := s.bmapstart + b / 8192;
      d := d[at := Bits.Clear(d[at], b % 8192)];
    }

    /** `balloc` in a file system: the block is nobody's, and no file changes. */
    method NewBlock() returns (r: Option<nat>)
      requires Ok()
      modifies this`d
      ensures Ok() && FilesKept(old(d), n, d, n)
      ensures r.None? ==> d == old(d) && forall b | 0 <= b < s.size :: Used(s, d, b)
      ensures r.Some? ==> s.datastart <= r.value < s.size && Used(s, d, r.value) && Unowned(d, n, r.value)
      ensures r.Some? ==> r.value in d && d[r.value] == ZeroBlock()
      ensures (r.None? <==> Spare(s, old(d)) == 0) && Spare(s, old(d)) == Spare(s, d) + if r.Some? then 1 else 0
      ensures forall i, k {:trigger SameSlot(old(d), n, d, n, i, k)} | 0 <= k <= 268 :: SameSlot(old(d), n, d, n, i, k)
      ensures forall c {:trigger Used(s, d, c)} | 0 <= c < s.size ::
                Used(s, d, c) <==> Used(s, old(d), c) || r == Some(c)
    {
      r := Balloc();
      NoSpare(s, old(d), s.size);
      if r.Some? {
        AllocStep(s, old(d), n, r.value);
        SpareTaken(s, old(d), d, r.value, s.size);
      }
    }

    // ---------------------------------------------------------------- bmap

    /** Lines 384-387 and 393-394: the block in a slot of the inode itself, new if there was none. */
    method MapAddr(i: nat, k: nat) returns (r: Option<nat>)
      requires Ok() && i in n && (k < 12 || k == 268)
      modifies this
      ensures Ok() && FilesKept(old(d), old(n), d, n) && OnlyInode(old(n), n, i) && Conserved(s, old(d), old(n), d, n)
      ensures r.Some? ==> r.value != 0 && BlockOf(d, n[i], k) == r.value
      ensures r.None? ==> forall b | 0 <= b < s.size :: Used(s, d, b)
      ensures BlockOf(old(d), old(n)[i], k) != 0 ==> r.Some? && d == old(d) && n == old(n)
      ensures r.None? <==> Spare(s, old(d)) < Own(old(d), old(n)[i], k)
      ensures r.Some? ==> Spare(s, old(d)) == Spare(s, d) + Own(old(d), old(n)[i], k)
      ensures r.Some? ==> OnlySlot(old(d), old(n)[i], d, n[i], k)
    {
      assert InodeOk(n, i);
      var addr := n[i].addrs[if k == 268 then 12 else k];
      if addr != 0 { return Some(addr); }
      r := NewBlock();
      assert SameSlot(old(d), n, d, n, i, k);
      if r.Some? {
        AttachAddr(s, d, n, i, k, r.value);
        OnlyAttached(old(d), n, d, WithAddr(n, i, k, r.value), d, n, i, k);
        FilesKeptTrans(old(d), n, d, n, d, WithAddr(n, i, k, r.value));
        n := WithAddr(n, i, k, r.value);
      }
      ConservedBut(s, old(d), old(n), d, n, if r.Some? then r.value else 0);
    }

    /** Lines 396-402: the block in a slot of the indirect block. */
    method MapWord(i: nat, k: nat) returns (r: Option<nat>)
      requires Ok() && i in n && 12 <= k < 268 && BlockOf(d, n[i], 268) != 0
      modifies this`d
      ensures Ok() && FilesKept(old(d), n, d, n) && Conserved(s, old(d), n, d, n)
      ensures r.Some? ==> r.value != 0 && BlockOf(d, n[i], k) == r.value
      ensures r.None? ==> forall b | 0 <= b < s.size :: Used(s, d, b)
      ensures BlockOf(old(d), n[i], k) != 0 ==> r.Some? && d == old(d)
      ensures r.None? <==> Spare(s, old(d)) < Own(old(d), n[i], k)
      ensures r.Some? ==> Spare(s, old(d)) == Spare(s, d) + Own(old(d), n[i], k) && OnlySlot(old(d), n[i], d, n[i], k)
    {
      assert InodeOk(n, i);
      var a := n[i].addrs[12];
      IndirectIs(s, d, n, i);
      var addr := Word(d[a], k - 12);
      if addr != 0 { return Some(addr); }
      r := NewBlock();
      assert SameSlot(old(d), n, d, n, i, k);
      if r.Some? {
        AttachWord(s, d, n, i, k, r.value);
        ghost var e := d[a := SetWord(d[a], k - 12, r.value)];
        OnlyAttached(old(d), n, e, n, d, n, i, k);
        SpareSame(s, d, e, s.size);
        FilesKeptTrans(old(d), n, d, n, e, n);
        d := d[a := SetWord(d[a], k - 12, r.value)];
      }
      ConservedBut(s, old(d), n, d, n, if r.Some? then r.value else 0);
    }

    /** `bmap` below MAXFILE: the block of the file's block `bn`, new if there was none. */
    method Bmap(i: nat, bn: nat) returns (r: Option<nat>)
      requires Ok() && i in n && bn < 268
      modifies this
      ensures Ok() && FilesKept(old(d), old(n), d, n) && OnlyInode(old(n), n, i) && Conserved(s, old(d), old(n), d, n)
      ensures r.Some? ==> r.value != 0 && BlockOf(d, n[i], bn) == r.value
      ensures r.None? ==> forall b | 0 <= b < s.size :: Used(s, d, b)
      ensures BlockOf(old(d), old(n)[i], bn) != 0 ==> r.Some? && d == old(d) && n == old(n)
      ensures r.None? <==> Spare(s, old(d)) < Need(old(d), old(n)[i], bn, bn + 1)
      ensures r.Some? ==> Spare(s, old(d)) == Spare(s, d) + Need(old(d), old(n)[i], bn, bn + 1)
      ensures r.Some? ==> Gained(old(d), old(n)[i], d, n[i], bn)
    {
      if bn < 12 {
        r := MapAddr(i, bn);
        NeedDirect(old(d), old(n)[i], bn);
        if r.Some? { GainedDirect(old(d), old(n)[i], d, n[i], bn); }
      } else {
        NeedIndirect(d, n[i], bn);
        r := MapAddr(i, 268);
        if r.None? { return; }
        ghost var d1 := d;
        r := MapWord(i, bn);
        if r.Some? { GainedIndirect(old(d), old(n)[i], d1, n[i], d, bn); }
        FilesKeptTrans(old(d), old(n), d1, n, d, n);
        ConservedTrans(s, old(d), old(n), d1, n, d, n);
      }
    }

    // ---------------------------------------------------------------- reading and writing

    /** `readi`: the bytes asked for, as far as the file goes, and no block is ever allocated. */
    method Readi(i: nat, off: nat, cnt: nat) returns (r: int, dst: seq<bv8>)
      requires Ok() && i in n && off < 0x1_0000_0000 && cnt < 0x1_0000_0000
      modifies this
      ensures d == old(d) && n == old(n)
      ensures off > n[i].size || off + cnt >= 0x1_0000_0000 ==> r == -1 && dst == []
      ensures off <= n[i].size && off + cnt < 0x1_0000_0000 ==>
                && r == (if off + cnt > n[i].size then n[i].size - off else cnt)
                && dst == Content(d, n, i)[off..off + r]
    {
      dst := [];
      if off > n[i].size || (off + cnt) % 0x1_0000_0000 < off { return -1, dst; }
      var c := if off + cnt > n[i].size then n[i].size - off else cnt;
      var tot := 0;
      while tot < c
        invariant 0 <= tot <= c && d == old(d) && n == old(n)
        invariant dst == Content(d, n, i)[off..off + tot]
      {
        var chunk := ReadChunk(i, off + tot, c - tot);
        dst := dst + chunk;
        tot := tot + |chunk|;
      }
      r := c;
    }

    /** Lines 470-476: as much as there is in one block. */
    method ReadChunk(i: nat, off: nat, left: nat) returns (chunk: seq<bv8>)
      requires Ok() && i in n && left > 0 && off + left <= n[i].size
      modifies this
      ensures d == old(d) && n == old(n) && 0 < |chunk| <= left
      ensures chunk == Content(d, n, i)[off..off + |chunk|]
    {
      HasByte(s, d, n, i, off);
      assert InodeOk(n, i);
      var b := Bmap(i, off / 1024);
      var m := if left < 1024 - off % 1024 then left else 1024 - off % 1024;
      chunk := d[b.value][off % 1024..off % 1024 + m];
      forall k | 0 <= k < m
        ensures chunk[k] == Content(d, n, i)[off + k]
      {
        assert (off + k) / 1024 == off / 1024 && (off + k) % 1024 == off % 1024 + k;
        HasByte(s, d, n, i, off + k);
      }
    }

    /** Lines 497-506: as much as goes into one block. */
    method WriteChunk(i: nat, off: nat, chunk: seq<bv8>) returns (ok: bool)
      requires Ok() && i in n && off / 1024 < 268 && off % 1024 + |chunk| <= 1024
      modifies this
      ensures Ok() && n.Keys == old(n).Keys && Conserved(s, old(d), old(n), d, n)
      ensures ok ==> Wrote(old(d), old(n), d, n, i, off, chunk)
      ensures !ok ==> FilesKept(old(d), old(n), d, n) && forall b | 0 <= b < s.size :: Used(s, d, b)
      ensures !ok <==> Spare(s, old(d)) < Need(old(d), old(n)[i], off / 1024, off / 1024 + 1)
      ensures ok ==> Spare(s, old(d)) == Spare(s, d) + Need(old(d), old(n)[i], off / 1024, off / 1024 + 1)
      ensures ok ==> Gained(old(d), old(n)[i], d, n[i], off / 1024)
    {
      var b := Bmap(i, off / 1024);
      if b.None? { return false; }
      ghost var d1 := d;
      WriteStep(s, d, n, i, off, chunk);
      WriteKeepsSlots(s, old(d), old(n)[i], d, n, d[b.value := Overlay(d[b.value], off % 1024, chunk)], i, off / 1024);
      d := d[b.value := Overlay(d[b.value], off % 1024, chunk)];
      KeptThenWrote(old(d), old(n), d1, n, d, n, i, off, chunk);
      ConservedTrans(s, old(d), old(n), d1, n, d, n);
      ok := true;
    }

    /** `tot` bytes of `src` are written, and what their blocks took is gone from the spare ones. */
    ghost predicate Writing(i: nat, off: nat, src: seq<bv8>, tot: nat, d0: Disk, n0: Inodes)
      reads this
    {
      true == (
        && Ok() && i in n0 && n.Keys == n0.Keys && tot <= |src|
        && Wrote(d0, n0, d, n, i, off, src[..tot]) && Conserved(s, d0, n0, d, n)
        && Paid(s, d0, n0[i], d, n[i], off / 1024, EndBlock(off, |src|)))
    }

    /** Lines 498-506: one round. */
    method WriteRound(i: nat, off: nat, src: seq<bv8>, tot: nat, ghost d0: Disk, ghost n0: Inodes)
      returns (ok: bool, m: nat)
      requires Writing(i, off, src, tot, d0, n0) && tot < |src| && off + |src| <= 274432
      modifies this
      ensures ok ==> m > 0 && Writing(i, off, src, tot + m, d0, n0)
      ensures !ok ==> Ok() && n.Keys == n0.Keys && Conserved(s, d0, n0, d, n)
      ensures !ok ==> forall b | 0 <= b < s.size :: Used(s, d, b)
      ensures !ok ==> Spare(s, d0) < Need(d0, n0[i], off / 1024, EndBlock(off, |src|))
    {
      m := if |src| - tot < 1024 - (off + tot) % 1024 then |src| - tot else 1024 - (off + tot) % 1024;
      ghost var d1, n1, k := d, n, (off + tot) / 1024;
      RangeBlocks(off, |src|, tot);
      NeedInRange(d, n[i], k, off / 1024, EndBlock(off, |src|));
      ok := WriteChunk(i, off + tot, src[tot..tot + m]);
      ConservedTrans(s, d0, n0, d1, n1, d, n);
      if !ok { return; }
      NeedGained(d1, n1[i], d, n[i], k, off / 1024, EndBlock(off, |src|));
      WroteMore(d0, n0, d1, n1, d, n, i, off, src[..tot], src[tot..tot + m]);
      assert src[..tot] + src[tot..tot + m] == src[..tot + m];
    }

    /** Lines 497-507 */
    method WriteAll(i: nat, off: nat, src: seq<bv8>) returns (ok: bool)
      requires Ok() && i in n && off + |src| <= 274432
      modifies this
      ensures Ok() && n.Keys == old(n).Keys && Conserved(s, old(d), old(n), d, n)
      ensures ok ==> Wrote(old(d), old(n), d, n, i, off, src)
      ensures !ok ==> forall b | 0 <= b < s.size :: Used(s, d, b)
      ensures ok <==> Spare(s, old(d)) >= Need(old(d), old(n)[i], off / 1024, EndBlock(off, |src|))
    {
      var tot := 0;
      assert Wrote(d, n, d, n, i, off, src[..0]);
      SameSlotsConserve(s, d, n, d, n);
      while tot < |src|
        invariant tot <= |src| && Writing(i, off, src, tot, old(d), old(n))
      {
        var m;
        ok, m := WriteRound(i, off, src, tot, old(d), old(n));
        if !ok { return; }
        tot := tot + m;
      }
      assert src[..tot] == src;
      WroteNeedsNone(old(d), old(n), d, n, i, off, src);
      ok := true;
    }

    /** `writei`: a splice of the file, and no other file changes. None is the panic of `balloc`. */
    method Writei(i: nat, off: nat, src: seq<bv8>) returns (r: Option<int>)
      requires Ok() && i in n && off < 0x1_0000_0000 && |src| < 0x1_0000_0000
      modifies this
      ensures Ok() && n.Keys == old(n).Keys && Conserved(s, old(d), old(n), d, n)
      ensures off > old(n)[i].size || off + |src| > 274432 ==> r == Some(-1) && d == old(d) && n == old(n)
      ensures off <= old(n)[i].size && off + |src| <= 274432 && r.Some? ==>
                && r == Some(|src|) && Content(d, n, i) == Splice(Content(old(d), old(n), i), off, src)
                && forall j | j in n && j != i :: Content(d, n, j) == Content(old(d), old(n), j)
      ensures r.None? ==> forall b | 0 <= b < s.size :: Used(s, d, b)
      ensures r.None? <==> off <= old(n)[i].size && off + |src| <= 274432
                           && Spare(s, old(d)) < Need(old(d), old(n)[i], off / 1024, EndBlock(off, |src|))
    {
      SameSlotsConserve(s, d, n, d, n);
      if off > n[i].size || (off + |src|) % 0x1_0000_0000 < off { return Some(-1); }
      if (off + |src|) % 0x1_0000_0000 > 274432 { return Some(-1); }
      var ok := WriteAll(i, off, src);
      if !ok { return None; }
      WroteIsSplice(s, old(d), old(n), d, n, i, off, src);
      ResizedConserves(s, d, n, i, off + |src|);
      ConservedTrans(s, old(d), old(n), d, n, d, Resized(n, i, off + |src|));
      if |src| > 0 && off + |src| > n[i].size { n := n[i := n[i].(size := off + |src|)]; }
      r := Some(|src|);
    }

    // ---------------------------------------------------------------- itrunc

    /** `bfree` of the block in slot `k` of the inode `n0[i]`, if there is one; `k` slots are free already. */
    method FreeSlot(b: nat, ghost d0: Disk, ghost n0: Inodes, ghost i: nat, ghost k: nat)
      requires FsOk(s, d0, n0) && i in n0 && k <= 268 && Freeing(s, d0, d, n0[i], k) && b == BlockOf(d0, n0[i], k)
      modifies this`d
      ensures Freeing(s, d0, d, n0[i], k + 1)
    {
      FreeStep(s, d0, n0, i, d, k);
      if b != 0 { Bfree(b); }
    }

    /** Lines 420-425 */
    method FreeDirect(i: nat)
      requires Ok() && i in n
      modifies this
      ensures Freeing(s, old(d), d, old(n)[i], 12)
      ensures OnlyInode(old(n), n, i) && |n[i].addrs| == 13 == |old(n)[i].addrs|
        && n[i].addrs[12] == old(n)[i].addrs[12]
      ensures forall l | 0 <= l < 12 :: n[i].addrs[l] == 0
    {
      FreeingStart(s, d, n, n[i]);
      assert InodeOk(n, i);
      var k := 0;
      while k < 12
        invariant 0 <= k <= 12 && OnlyInode(old(n), n, i) && |n[i].addrs| == 13 == |old(n)[i].addrs|
        invariant forall l | 0 <= l < 13 :: n[i].addrs[l] == if l < k then 0 else old(n)[i].addrs[l]
        invariant Freeing(s, old(d), d, old(n)[i], k)
      {
        FreeSlot(n[i].addrs[k], old(d), old(n), i, k);
        n := WithAddr(n, i, k, 0);
        k := k + 1;
      }
    }

    /** Lines 427-437 */
    method FreeIndirect(i: nat, ghost d0: Disk, ghost n0: Inodes)
      requires FsOk(s, d0, n0) && i in n0 && Freeing(s, d0, d, n0[i], 12)
      requires OnlyInode(n0, n, i) && |n[i].addrs| == 13 == |n0[i].addrs| && n[i].addrs[12] == n0[i].addrs[12]
      modifies this`d
      ensures Freeing(s, d0, d, n0[i], 269)
    {
      var a := n[i].addrs[12];
      if a == 0 {
        NoIndirect(s, d0, d, n0[i]);
        return;
      }
      IndirectIs(s, d0, n0, i);
      var j := 0;
      while j < 256
        invariant 0 <= j <= 256 && Freeing(s, d0, d, n0[i], 12 + j)
      {
        FreeSlot(Word(d[a], j), d0, n0, i, 12 + j);
        j := j + 1;
      }
      FreeSlot(a, d0, n0, i, 268);
    }

    /** `itrunc`: exactly the file's own blocks are marked free, each once, and no other file changes. */
    method Itrunc(i: nat)
      requires Ok() && i in n
      modifies this
      ensures Ok() && n == Emptied(old(n), i)
      ensures forall j | j in n && j != i :: Content(d, n, j) == Content(old(d), old(n), j)
      ensures forall b | 0 <= b < s.size :: Used(s, d, b) <==> Used(s, old(d), b) && !InSlots(old(d), old(n)[i], 269, b)
      ensures NoLeak(s, old(d), old(n)) ==> NoLeak(s, d, n)
    {
      FreeDirect(i);
      FreeIndirect(i, old(d), old(n));
      n := WithAddr(n, i, 268, 0);
      n := n[i := n[i].(size := 0)];
      assert n[i].addrs == seq(13, _ => 0);
      assert n == Emptied(old(n), i);
      FreedAll(s, old(d), old(n), i, d);
      if NoLeak(s, old(d), old(n)) { FreedNoLeak(s, old(d), old(n), i, d); }
    }
  }

  /** A block was taken, then attached to slot `k`. */
  lemma OnlyAttached(d: Disk, n: Inodes, e: Disk, m: Inodes, d1: Disk, n1: Inodes, i: nat, k: nat)
    requires i in n && i in m && i in n1
    requires forall j, l {:trigger SameSlot(d, n, d1, n1, j, l)} | 0 <= l <= 268 :: SameSlot(d, n, d1, n1, j, l)
    requires forall l | 0 <= l <= 268 && l != k :: BlockOf(e, m[i], l) == BlockOf(d1, n1[i], l)
    ensures OnlySlot(d, n[i], e, m[i], k)
  {
    forall l | 0 <= l <= 268 && l != k
      ensures BlockOf(e, m[i], l) == BlockOf(d, n[i], l)
    {
      assert SameSlot(d, n, d1, n1, i, l);
    }
  }

  lemma WriteKeepsSlots(s: Super, d0: Disk, ip: Inode, d: Disk, n: Inodes, e: Disk, i: nat, k: nat)
    requires i in n && k < 268 && Gained(d0, ip, d, n[i], k)
    requires forall j, l {:trigger SameSlot(d, n, e, n, j, l)} | 0 <= l <= 268 :: SameSlot(d, n, e, n, j, l)
    requires forall c {:trigger Used(s, e, c)} | 0 <= c < s.size :: Used(s, e, c) == Used(s, d, c)
    ensures Gained(d0, ip, e, n[i], k) && Spare(s, e) == Spare(s, d)
  {
    SpareSame(s, d, e, s.size);
    forall l | 0 <= l <= 268
      ensures BlockOf(e, n[i], l) == BlockOf(d, n[i], l)
    {
      assert SameSlot(d, n, e, n, i, l);
    }
    GainedThenSame(d0, ip, d, n[i], e, k);
  }

  lemma WroteNeedsNone(d: Disk, n: Inodes, e: Disk, m: Inodes, i: nat, off: nat, src: seq<bv8>)
    requires Wrote(d, n, e, m, i, off, src) && i in n && off + |src| <= 274432
    ensures Need(e, m[i], off / 1024, EndBlock(off, |src|)) == 0
  {
    forall p | off <= p < off + |src|
      ensures FileByte(e, m, i, p).Some?
    {
      assert ByteIs(d, n, e, m, i, off, src, i, p);
    }
    WrittenNeedsNone(e, m, i, off, |src|);
  }

  /** No inode but `i` changed. */
  ghost predicate OnlyInode(n: Inodes, m: Inodes, i: nat) {
    m.Keys == n.Keys && forall j | j in n && j != i :: m[j] == n[j]
  }

  lemma BitIndex(b: nat, c: nat)
    requires b % 8192 == 0 && b <= c < b + 8192
    ensures c / 8192 == b / 8192 && c % 8192 == c - b
  {
  }
}
