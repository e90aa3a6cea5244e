/** Files of kernel/fs.c as blocks on disk: the free bitmap, the direct and indirect block numbers
    of an inode, and the bytes they stand for.

    The disk is what the callers of the buffer cache see. Block numbers in an indirect block are
    32-bit little-endian words. */
module FileBlocks {
  import opened Options
  import Bits
  import Bytes

  type Block = seq<bv8>
  type Disk = map<nat, Block>

  // BSIZE is 1024, BPB 8192, NDIRECT 12, MAXFILE 268, and MAXFILE * BSIZE is 274432.

  /** The file system has `size` blocks, the bitmap is from `bmapstart` on, files from `datastart` on. */
  datatype Super = Super(size: nat, bmapstart: nat, datastart: nat)

  datatype Inode = Inode(size: nat, addrs: seq<nat>)

  type Inodes = map<nat, Inode>

  // ---------------------------------------------------------------- words

  function Word(b: Block, k: nat): nat
    requires |b| == 1024 && k < 256
  {
    Bytes.ToNat(b[4 * k]) + 256 * Bytes.ToNat(b[4 * k + 1]) + 65536 * Bytes.ToNat(b[4 * k + 2])
    + 16777216 * Bytes.ToNat(b[4 * k + 3])
  }

  function Byte(v: nat): bv8 {
    Bytes.FromNat(v % 256)
  }

  function SetWord(b: Block, k: nat, v: nat): (r: Block)
    requires |b| == 1024 && k < 256
    ensures |r| == 1024
  {
    b[4 * k := Byte(v)][4 * k + 1 := Byte(v / 256)][4 * k + 2 := Byte(v / 65536)][4 * k + 3 := Byte(v / 16777216)]
  }

  lemma SetWordIs(b: Block, k: nat, v: nat, j: nat)
    requires |b| == 1024 && k < 256 && j < 256 && v < 0x1_0000_0000
    ensures Word(SetWord(b, k, v), j) == if j == k then v else Word(b, j)
  {
    var r := SetWord(b, k, v);
    if j == k {
      assert r[4 * k] == Byte(v) && r[4 * k + 1] == Byte(v / 256);
      assert r[4 * k + 2] == Byte(v / 65536) && r[4 * k + 3] == Byte(v / 16777216);
      Bytes.RoundTrip(v % 256);
      Bytes.RoundTrip(v / 256 % 256);
      Bytes.RoundTrip(v / 65536 % 256);
      Bytes.RoundTrip(v / 16777216 % 256);
      Digits(v);
    }
  }

  lemma Digits(v: nat)
    requires v < 0x1_0000_0000
    ensures v == v % 256 + 256 * (v / 256 % 256) + 65536 * (v / 65536 % 256) + 16777216 * (v / 16777216 % 256)
  {
    assert v / 65536 == v / 256 / 256 && v / 16777216 == v / 65536 / 256;
  }

  function ZeroBlock(): (r: Block)
    ensures |r| == 1024 && forall k | 0 <= k < 256 :: Word(r, k) == 0
  {
    seq(1024, _ => 0)
  }

  // ---------------------------------------------------------------- the bitmap

  /** Block `b` is marked in use. */
  predicate Used(s: Super, d: Disk, b: nat) {
    var at := s.bmapstart + b / 8192;
    at in d && |d[at]| == 1024 && Bits.IsSet(d[at], b % 8192)
  }

  predicate BlockThere(s: Super, d: Disk, b: nat) {
    b < s.size ==> b in d && |d[b]| == 1024
  }

  ghost predicate DiskOk(s: Super, d: Disk) {
    && s.bmapstart + s.size / 8192 < s.datastart <= s.size < 0x1_0000_0000
    && (forall b {:trigger BlockThere(s, d, b)} :: BlockThere(s, d, b))
    && (forall b {:trigger Used(s, d, b)} | 0 <= b < s.datastart :: Used(s, d, b))
  }

  // ---------------------------------------------------------------- the blocks of a file

  /** The block in slot `k` of an inode, 0 for none: the data blocks in order, and the indirect
      block itself in slot MAXFILE. */
  function BlockOf(d: Disk, ip: Inode, k: nat): nat {
    if |ip.addrs| != 13 then 0
    else if k < 12 then ip.addrs[k]
    else if k == 268 then ip.addrs[12]
    else if k > 268 || ip.addrs[12] == 0 || ip.addrs[12] !in d || |d[ip.addrs[12]]| != 1024 then 0
    else Word(d[ip.addrs[12]], k - 12)
  }

  predicate SlotOk(s: Super, d: Disk, n: Inodes, i: nat, k: nat) {
    i in n ==> var b := BlockOf(d, n[i], k); b != 0 ==> s.datastart <= b < s.size && Used(s, d, b)
  }

  /** No block is in two slots. */
  predicate Apart(d: Disk, n: Inodes, i: nat, k: nat, j: nat, l: nat) {
    i in n && j in n && BlockOf(d, n[i], k) != 0 && BlockOf(d, n[i], k) == BlockOf(d, n[j], l) ==> i == j && k == l
  }

  /** A file has a block for each of its bytes. */
  predicate NoHole(d: Disk, n: Inodes, i: nat, p: nat) {
    i in n && p < n[i].size ==> BlockOf(d, n[i], p / 1024) != 0
  }

  predicate InodeOk(n: Inodes, i: nat) {
    i in n ==> |n[i].addrs| == 13 && n[i].size <= 274432
  }

  ghost predicate Owners(s: Super, d: Disk, n: Inodes) {
    && (forall i {:trigger InodeOk(n, i)} :: InodeOk(n, i))
    && (forall i, k {:trigger SlotOk(s, d, n, i, k)} | 0 <= k <= 268 :: SlotOk(s, d, n, i, k))
    && (forall i, k, j, l {:trigger Apart(d, n, i, k, j, l)} | 0 <= k <= 268 && 0 <= l <= 268 ::
      Apart(d, n, i, k, j, l))
  }

  ghost predicate FsOk(s: Super, d: Disk, n: Inodes) {
    true == (DiskOk(s, d) && Owners(s, d, n) && forall i, p {:trigger NoHole(d, n, i, p)} :: NoHole(d, n, i, p))
  }

  /** Byte `p` of a file, if there is a block for it. */
  function FileByte(d: Disk, n: Inodes, i: nat, p: nat): Option<bv8> {
    if i !in n then None
    else
      var b := BlockOf(d, n[i], p / 1024);
      if b != 0 && b in d && |d[b]| == 1024 && p < 274432 then Some(d[b][p % 1024]) else None
  }

  /** What a file holds. */
  function Content(d: Disk, n: Inodes, i: nat): (r: seq<bv8>)
    requires i in n
    ensures |r| == n[i].size
  {
    seq(n[i].size, p requires 0 <= p < n[i].size => var x := FileByte(d, n, i, p); if x.Some? then x.value else 0)
  }

  // ---------------------------------------------------------------- changes

  predicate SameSlot(d: Disk, n: Inodes, e: Disk, m: Inodes, i: nat, k: nat) {
    i in n && i in m ==> BlockOf(e, m[i], k) == BlockOf(d, n[i], k)
  }

  /** A slot that has a block keeps it. */
  predicate SlotStays(d: Disk, n: Inodes, e: Disk, m: Inodes, i: nat, k: nat) {
    i in n && BlockOf(d, n[i], k) != 0 ==> i in m && BlockOf(e, m[i], k) == BlockOf(d, n[i], k)
  }

  /** Sizes stay, slots keep their blocks, and every byte that has a block keeps its value. */
  ghost predicate FilesKept(d: Disk, n: Inodes, e: Disk, m: Inodes) {
    true == (
      && m.Keys == n.Keys && (forall i | i in n :: m[i].size == n[i].size)
      && (forall i, k {:trigger SlotStays(d, n, e, m, i, k)} | 0 <= k <= 268 :: SlotStays(d, n, e, m, i, k))
      && forall i, p {:trigger FileByte(e, m, i, p)} | FileByte(d, n, i, p).Some? ::
        FileByte(e, m, i, p) == FileByte(d, n, i, p))
  }

  ghost predicate HasOwner(d: Disk, n: Inodes, b: nat) {
    exists i, k {:trigger BlockOf(d, n[i], k)} :: i in n && 0 <= k <= 268 && BlockOf(d, n[i], k) == b
  }

  /** No block is lost: one that is newly marked, or had an owner, has an owner now. */
  ghost predicate Conserved(s: Super, d: Disk, n: Inodes, e: Disk, m: Inodes) {
    true == forall b {:trigger HasOwner(e, m, b)} | s.datastart <= b < s.size ::
      (Used(s, e, b) && !Used(s, d, b)) || HasOwner(d, n, b) ==> HasOwner(e, m, b)
  }

  /** Every marked block from `datastart` on has an owner. */
  ghost predicate NoLeak(s: Super, d: Disk, n: Inodes) {
    forall b {:trigger HasOwner(d, n, b)} | s.datastart <= b < s.size && Used(s, d, b) :: HasOwner(d, n, b)
  }

  lemma NoLeakKept(s: Super, d: Disk, n: Inodes, e: Disk, m: Inodes)
    requires NoLeak(s, d, n) && Conserved(s, d, n, e, m)
    ensures NoLeak(s, e, m)
  {
    forall b | s.datastart <= b < s.size && Used(s, e, b)
      ensures HasOwner(e, m, b)
    {
      assert HasOwner(d, n, b) ==> HasOwner(e, m, b);
    }
  }

  lemma ConservedTrans(s: Super, d: Disk, n: Inodes, e: Disk, m: Inodes, f: Disk, o: Inodes)
    requires Conserved(s, d, n, e, m) && Conserved(s, e, m, f, o)
    ensures Conserved(s, d, n, f, o)
  {
    forall b | s.datastart <= b < s.size && ((Used(s, f, b) && !Used(s, d, b)) || HasOwner(d, n, b))
      ensures HasOwner(f, o, b)
    {
      assert HasOwner(d, n, b) ==> HasOwner(e, m, b);
    }
  }

  /** If slots keep their blocks and only block `b` is newly marked, it is enough that `b` has an owner. */
  lemma ConservedBut(s: Super, d: Disk, n: Inodes, e: Disk, m: Inodes, b: nat)
    requires FilesKept(d, n, e, m) && (s.datastart <= b < s.size ==> HasOwner(e, m, b))
    requires forall c {:trigger Used(s, e, c)} | s.datastart <= c < s.size :: Used(s, e, c) ==> c == b || Used(s, d, c)
    requires s.datastart > 0
    ensures Conserved(s, d, n, e, m)
  {
    forall c | s.datastart <= c < s.size && HasOwner(d, n, c)
      ensures HasOwner(e, m, c)
    {
      var i, k :| i in n && 0 <= k <= 268 && BlockOf(d, n[i], k) == c;
      assert SlotStays(d, n, e, m, i, k);
    }
  }

  lemma FilesKeptTrans(d: Disk, n: Inodes, e: Disk, m: Inodes, f: Disk, o: Inodes)
    requires FilesKept(d, n, e, m) && FilesKept(e, m, f, o)
    ensures FilesKept(d, n, f, o)
  {
    forall i: nat, k: nat | k <= 268
      ensures SlotStays(d, n, f, o, i, k)
    {
      assert SlotStays(d, n, e, m, i, k) && SlotStays(e, m, f, o, i, k);
    }
    forall i, p | FileByte(d, n, i, p).Some?
      ensures FileByte(f, o, i, p) == FileByte(d, n, i, p)
    {
      assert FileByte(e, m, i, p) == FileByte(d, n, i, p);
    }
  }

  lemma SameSlotsConserve(s: Super, d: Disk, n: Inodes, e: Disk, m: Inodes)
    requires m.Keys == n.Keys
    requires forall i, k {:trigger SameSlot(d, n, e, m, i, k)} | 0 <= k <= 268 :: SameSlot(d, n, e, m, i, k)
    requires forall c {:trigger Used(s, e, c)} | 0 <= c < s.size :: Used(s, e, c) == Used(s, d, c)
    ensures Conserved(s, d, n, e, m)
  {
    forall b | s.datastart <= b < s.size && HasOwner(d, n, b)
      ensures HasOwner(e, m, b)
    {
      var i, k :| i in n && 0 <= k <= 268 && BlockOf(d, n[i], k) == b;
      assert SameSlot(d, n, e, m, i, k);
    }
  }

  /** A changed disk on which every slot has the block it had, and none was marked free. */
  lemma OwnersKept(s: Super, d: Disk, e: Disk, n: Inodes)
    requires FsOk(s, d, n) && DiskOk(s, e)
    requires forall i, k {:trigger SameSlot(d, n, e, n, i, k)} | 0 <= k <= 268 :: SameSlot(d, n, e, n, i, k)
    requires forall b {:trigger Used(s, e, b)} | s.datastart <= b < s.size && Used(s, d, b) :: Used(s, e, b)
    ensures FsOk(s, e, n)
  {
    forall i, k | 0 <= k <= 268
      ensures SlotOk(s, e, n, i, k)
    {
      assert SlotOk(s, d, n, i, k) && SameSlot(d, n, e, n, i, k);
    }
    forall i, k, j, l | 0 <= k <= 268 && 0 <= l <= 268
      ensures Apart(e, n, i, k, j, l)
    {
      assert Apart(d, n, i, k, j, l) && SameSlot(d, n, e, n, i, k) && SameSlot(d, n, e, n, j, l);
    }
    forall i: nat, p: nat
      ensures NoHole(e, n, i, p)
    {
      assert NoHole(d, n, i, p) && InodeOk(n, i);
      if i in n && p < n[i].size { assert SameSlot(d, n, e, n, i, p / 1024); }
    }
  }

  /** Slots keep their blocks when the indirect blocks are left alone. */
  lemma SlotsKept(s: Super, d: Disk, e: Disk, n: Inodes)
    requires forall i | i in n && |n[i].addrs| == 13 && n[i].addrs[12] != 0 ::
               n[i].addrs[12] in d && n[i].addrs[12] in e && e[n[i].addrs[12]] == d[n[i].addrs[12]]
    ensures forall i, k {:trigger SameSlot(d, n, e, n, i, k)} | 0 <= k <= 268 :: SameSlot(d, n, e, n, i, k)
  {
  }

  /** An indirect block is a block of the file system, and no other slot has it. */
  lemma IndirectIs(s: Super, d: Disk, n: Inodes, i: nat)
    requires FsOk(s, d, n) && i in n && |n[i].addrs| == 13 && n[i].addrs[12] != 0
    ensures var a := n[i].addrs[12]; s.datastart <= a < s.size && a in d && |d[a]| == 1024
  {
    assert InodeOk(n, i) && SlotOk(s, d, n, i, 268) && BlockThere(s, d, n[i].addrs[12]);
  }

  /** `balloc`: the block is marked and cleared. */
  function Allocated(s: Super, d: Disk, b: nat): Disk
    requires s.bmapstart + b / 8192 in d && |d[s.bmapstart + b / 8192]| == 1024
  {
    var at := s.bmapstart + b / 8192;
    d[at := Bits.Set(d[at], b % 8192)][b := ZeroBlock()]
  }

  /** Nobody has block `b`. */
  ghost predicate Unowned(d: Disk, n: Inodes, b: nat) {
    forall i, k {:trigger BlockOf(d, n[i], k)} | i in n && 0 <= k <= 268 :: BlockOf(d, n[i], k) != b
  }

  /** A block that is not marked belongs to no slot, so taking it disturbs no file. */
  lemma AllocStep(s: Super, d: Disk, n: Inodes, b: nat)
    requires FsOk(s, d, n) && b < s.size && !Used(s, d, b)
    ensures s.datastart <= b && s.bmapstart + b / 8192 in d && |d[s.bmapstart + b / 8192]| == 1024
    ensures var e := Allocated(s, d, b);
            && FsOk(s, e, n) && FilesKept(d, n, e, n) && Unowned(e, n, b) && Used(s, e, b) && e[b] == ZeroBlock()
            && (forall i, k {:trigger SameSlot(d, n, e, n, i, k)} | 0 <= k <= 268 :: SameSlot(d, n, e, n, i, k))
            && (forall c {:trigger Used(s, e, c)} | 0 <= c < s.size :: Used(s, e, c) <==> c == b || Used(s, d, c))
  {
    var at := s.bmapstart + b / 8192;
    assert Used(s, d, b) || s.datastart <= b;
    assert BlockThere(s, d, at) && b / 8192 <= s.size / 8192;
    var e := Allocated(s, d, b);
    UsedAfter(s, d, b);
    forall c
      ensures BlockThere(s, e, c)
    {
      assert BlockThere(s, d, c);
    }
    forall i | i in n && |n[i].addrs| == 13 && n[i].addrs[12] != 0
      ensures n[i].addrs[12] in d && n[i].addrs[12] in e && e[n[i].addrs[12]] == d[n[i].addrs[12]]
    {
      IndirectIs(s, d, n, i);
      assert SlotOk(s, d, n, i, 268);
    }
    SlotsKept(s, d, e, n);
    OwnersKept(s, d, e, n);
    forall i: nat, k: nat | k <= 268
      ensures i in n ==> BlockOf(e, n[i], k) != b
      ensures SlotStays(d, n, e, n, i, k)
    {
      assert SlotOk(s, d, n, i, k) && SameSlot(d, n, e, n, i, k);
    }
    forall i: nat, p: nat | FileByte(d, n, i, p).Some?
      ensures FileByte(e, n, i, p) == FileByte(d, n, i, p)
    {
      assert SlotOk(s, d, n, i, p / 1024) && SameSlot(d, n, e, n, i, p / 1024);
    }
  }

  lemma UsedAfter(s: Super, d: Disk, b: nat)
    requires s.bmapstart + s.size / 8192 < s.datastart <= b < s.size
    requires s.bmapstart + b / 8192 in d && |d[s.bmapstart + b / 8192]| == 1024
    ensures forall c {:trigger Used(s, Allocated(s, d, b), c)} | 0 <= c < s.size ::
              Used(s, Allocated(s, d, b), c) <==> c == b || Used(s, d, c)
  {
    var at, e := s.bmapstart + b / 8192, Allocated(s, d, b);
    forall c | 0 <= c < s.size
      ensures Used(s, e, c) <==> c == b || Used(s, d, c)
    {
      assert c / 8192 <= s.size / 8192 && b / 8192 <= s.size / 8192;
      assert c == c / 8192 * 8192 + c % 8192 && b == b / 8192 * 8192 + b % 8192;
      if c / 8192 == b / 8192 {
        assert e[at] == Bits.Set(d[at], b % 8192);
        assert c % 8192 / 8 < 1024;
      }
    }
  }

  // ---------------------------------------------------------------- bmap

  /** An inode with a new number in `addrs`; slot MAXFILE is the last of them. */
  function WithAddr(n: Inodes, i: nat, k: nat, b: nat): Inodes
    requires i in n && |n[i].addrs| == 13 && (k < 12 || k == 268)
  {
    var addrs: seq<nat> := n[i].addrs[(if k == 268 then 12 else k) := b];
    n[i := n[i].(addrs := addrs)]
  }

  /** A new, cleared block in an empty slot of the inode itself. */
  lemma AttachAddr(s: Super, d: Disk, n: Inodes, i: nat, k: nat, b: nat)
    requires FsOk(s, d, n) && i in n && |n[i].addrs| == 13 && (k < 12 || k == 268) && BlockOf(d, n[i], k) == 0
    requires s.datastart <= b < s.size && Used(s, d, b) && Unowned(d, n, b) && b in d && d[b] == ZeroBlock()
    ensures var m := WithAddr(n, i, k, b);
            && FsOk(s, d, m) && FilesKept(d, n, d, m) && BlockOf(d, m[i], k) == b
            && forall l | 0 <= l <= 268 && l != k :: BlockOf(d, m[i], l) == BlockOf(d, n[i], l)
  {
    var m := WithAddr(n, i, k, b);
    forall j: nat
      ensures InodeOk(m, j)
    {
      assert InodeOk(n, j);
    }
    AttachedOk(s, d, n, d, m, i, k, b);
  }

  /** A new, cleared block in an empty slot of the indirect block. */
  lemma AttachWord(s: Super, d: Disk, n: Inodes, i: nat, k: nat, b: nat)
    requires FsOk(s, d, n) && i in n && |n[i].addrs| == 13 && 12 <= k < 268 && BlockOf(d, n[i], k) == 0
    requires n[i].addrs[12] != 0
    requires s.datastart <= b < s.size && Used(s, d, b) && Unowned(d, n, b)
    ensures var a := n[i].addrs[12];
            && a in d && |d[a]| == 1024
            && var e := d[a := SetWord(d[a], k - 12, b)];
               && FsOk(s, e, n) && FilesKept(d, n, e, n) && BlockOf(e, n[i], k) == b
               && (forall l | 0 <= l <= 268 && l != k :: BlockOf(e, n[i], l) == BlockOf(d, n[i], l))
               && forall c {:trigger Used(s, e, c)} | 0 <= c < s.size :: Used(s, e, c) == Used(s, d, c)
  {
    var a := n[i].addrs[12];
    IndirectIs(s, d, n, i);
    var e := d[a := SetWord(d[a], k - 12, b)];
    forall l | 0 <= l < 256
      ensures Word(e[a], l) == if l == k - 12 then b else Word(d[a], l)
    {
      SetWordIs(d[a], k - 12, b, l);
    }
    forall j | j in n && |n[j].addrs| == 13 && j != i && n[j].addrs[12] != 0
      ensures n[j].addrs[12] != a
    {
      assert Apart(d, n, i, 268, j, 268);
    }
    DataChange(s, d, e, a);
    AttachedOk(s, d, n, e, n, i, k, b);
  }

  /** A change to a block of a file is no change to the bitmap. */
  lemma DataChange(s: Super, d: Disk, e: Disk, a: nat)
    requires DiskOk(s, d) && s.datastart <= a < s.size && e.Keys == d.Keys && a in d && |e[a]| == 1024
    requires forall c | c in d && c != a :: e[c] == d[c]
    ensures DiskOk(s, e) && forall b {:trigger Used(s, e, b)} | 0 <= b < s.size :: Used(s, e, b) == Used(s, d, b)
  {
    forall c
      ensures BlockThere(s, e, c)
    {
      assert BlockThere(s, d, c);
    }
    forall b | 0 <= b < s.size
      ensures Used(s, e, b) == Used(s, d, b)
    {
      assert b / 8192 <= s.size / 8192;
    }
  }

  /** Slot `k` of inode `i` got block `b`; every other slot and every owned block's contents stay. */
  lemma AttachedOk(s: Super, d: Disk, n: Inodes, e: Disk, m: Inodes, i: nat, k: nat, b: nat)
    requires FsOk(s, d, n) && i in n && k <= 268 && BlockOf(d, n[i], k) == 0
    requires s.datastart <= b < s.size && Used(s, d, b) && Unowned(d, n, b)
    requires DiskOk(s, e) && (forall c {:trigger Used(s, e, c)} | 0 <= c < s.size :: Used(s, e, c) == Used(s, d, c))
    requires m.Keys == n.Keys && (forall j {:trigger InodeOk(m, j)} :: InodeOk(m, j))
      && (forall j | j in n :: m[j].size == n[j].size)
    requires BlockOf(e, m[i], k) == b
    requires forall j, l {:trigger SameSlot(d, n, e, m, j, l)} | 0 <= l <= 268 && !(j == i && l == k) ::
      SameSlot(d, n, e, m, j, l)
    requires forall c | c in d && s.datastart <= c < s.size && c != BlockOf(d, n[i], 268) :: c in e && e[c] == d[c]
    ensures FsOk(s, e, m) && FilesKept(d, n, e, m)
  {
    forall j: nat, l: nat | l <= 268
      ensures SlotOk(s, e, m, j, l)
    {
      assert SlotOk(s, d, n, j, l) && ((j == i && l == k) || SameSlot(d, n, e, m, j, l));
    }
    forall j: nat, l: nat, j': nat, l': nat | l <= 268 && l' <= 268
      ensures Apart(e, m, j, l, j', l')
    {
      assert Apart(d, n, j, l, j', l');
      assert (j == i && l == k) || SameSlot(d, n, e, m, j, l);
      assert (j' == i && l' == k) || SameSlot(d, n, e, m, j', l');
      assert j in n ==> BlockOf(d, n[j], l) != b;
      assert j' in n ==> BlockOf(d, n[j'], l') != b;
    }
    forall j: nat, l: nat | l <= 268
      ensures SlotStays(d, n, e, m, j, l)
    {
      assert (j == i && l == k) || SameSlot(d, n, e, m, j, l);
    }
    forall j: nat, p: nat
      ensures NoHole(e, m, j, p)
      ensures FileByte(d, n, j, p).Some? ==> FileByte(e, m, j, p) == FileByte(d, n, j, p)
    {
      ByteKept(s, d, n, e, m, i, k, b, j, p);
    }
  }

  lemma ByteKept(s: Super, d: Disk, n: Inodes, e: Disk, m: Inodes, i: nat, k: nat, b: nat, j: nat, p: nat)
    requires FsOk(s, d, n) && i in n && k <= 268 && BlockOf(d, n[i], k) == 0
    requires DiskOk(s, e)
    requires m.Keys == n.Keys && (forall j | j in n :: m[j].size == n[j].size)
    requires b != 0 && BlockOf(e, m[i], k) == b
    requires forall j, l {:trigger SameSlot(d, n, e, m, j, l)} | 0 <= l <= 268 && !(j == i && l == k) ::
      SameSlot(d, n, e, m, j, l)
    requires forall c | c in d && s.datastart <= c < s.size && c != BlockOf(d, n[i], 268) :: c in e && e[c] == d[c]
    ensures NoHole(e, m, j, p)
    ensures FileByte(d, n, j, p).Some? ==> FileByte(e, m, j, p) == FileByte(d, n, j, p)
  {
    assert NoHole(d, n, j, p) && InodeOk(n, j);
    var l := p / 1024;
    if j in n && l < 268 {
      assert (j == i && l == k) || SameSlot(d, n, e, m, j, l);
      assert SlotOk(s, d, n, j, l) && Apart(d, n, j, l, i, 268);
    }
  }

  // ---------------------------------------------------------------- writing

  /** A block with `chunk` written over it from byte `at` on. */
  function Overlay(blk: Block, at: nat, chunk: seq<bv8>): (r: Block)
    requires at + |chunk| <= |blk|
    ensures |r| == |blk|
  {
    blk[..at] + chunk + blk[at + |chunk|..]
  }

  predicate ByteIs(d: Disk, n: Inodes, e: Disk, m: Inodes, i: nat, off: nat, src: seq<bv8>, j: nat, p: nat) {
    if j == i && off <= p < off + |src| then FileByte(e, m, j, p) == Some(src[p - off])
    else FileByte(d, n, j, p).Some? ==> FileByte(e, m, j, p) == FileByte(d, n, j, p)
  }

  /** File `i` has `src` from byte `off` on; every other byte of every file is as it was. */
  ghost predicate Wrote(d: Disk, n: Inodes, e: Disk, m: Inodes, i: nat, off: nat, src: seq<bv8>) {
    true == (
      && m.Keys == n.Keys && (forall j | j in n :: m[j].size == n[j].size)
      && forall j, p {:trigger ByteIs(d, n, e, m, i, off, src, j, p)} :: ByteIs(d, n, e, m, i, off, src, j, p))
  }

  lemma WriteStep(s: Super, d: Disk, n: Inodes, i: nat, off: nat, chunk: seq<bv8>)
    requires FsOk(s, d, n) && i in n && off / 1024 < 268 && off % 1024 + |chunk| <= 1024
    requires BlockOf(d, n[i], off / 1024) != 0
    ensures var b := BlockOf(d, n[i], off / 1024);
            && b in d && |d[b]| == 1024
            && var e := d[b := Overlay(d[b], off % 1024, chunk)];
               && FsOk(s, e, n) && Wrote(d, n, e, n, i, off, chunk) && Conserved(s, d, n, e, n)
               && (forall j, l {:trigger SameSlot(d, n, e, n, j, l)} | 0 <= l <= 268 :: SameSlot(d, n, e, n, j, l))
               && forall c {:trigger Used(s, e, c)} | 0 <= c < s.size :: Used(s, e, c) == Used(s, d, c)
  {
    var k := off / 1024;
    var b := BlockOf(d, n[i], k);
    assert SlotOk(s, d, n, i, k) && BlockThere(s, d, b);
    var e := d[b := Overlay(d[b], off % 1024, chunk)];
    DataChange(s, d, e, b);
    forall j | j in n && |n[j].addrs| == 13 && n[j].addrs[12] != 0
      ensures n[j].addrs[12] in d && n[j].addrs[12] in e && e[n[j].addrs[12]] == d[n[j].addrs[12]]
    {
      IndirectIs(s, d, n, j);
      assert Apart(d, n, i, k, j, 268);
    }
    SlotsKept(s, d, e, n);
    OwnersKept(s, d, e, n);
    SameSlotsConserve(s, d, n, e, n);
    forall j: nat, p: nat
      ensures ByteIs(d, n, e, n, i, off, chunk, j, p)
    {
      WriteByte(s, d, n, i, off, chunk, e, j, p);
    }
  }

  lemma WriteByte(s: Super, d: Disk, n: Inodes, i: nat, off: nat, chunk: seq<bv8>, e: Disk, j: nat, p: nat)
    requires FsOk(s, d, n) && i in n && off / 1024 < 268 && off % 1024 + |chunk| <= 1024
    requires var b := BlockOf(d, n[i], off / 1024);
             b != 0 && b in d && |d[b]| == 1024 && e == d[b := Overlay(d[b], off % 1024, chunk)]
    requires forall i, k {:trigger SameSlot(d, n, e, n, i, k)} | 0 <= k <= 268 :: SameSlot(d, n, e, n, i, k)
    ensures ByteIs(d, n, e, n, i, off, chunk, j, p)
  {
    if j in n && p / 1024 < 268 {
      assert SameSlot(d, n, e, n, j, p / 1024) && Apart(d, n, i, off / 1024, j, p / 1024);
    }
    if off <= p < off + |chunk| {
      assert p / 1024 == off / 1024 && p % 1024 == off % 1024 + (p - off);
    }
  }

  lemma KeptThenWrote(d: Disk, n: Inodes, e: Disk, m: Inodes, f: Disk, o: Inodes, i: nat, off: nat, src: seq<bv8>)
    requires FilesKept(d, n, e, m) && Wrote(e, m, f, o, i, off, src)
    ensures Wrote(d, n, f, o, i, off, src)
  {
    forall j: nat, p: nat
      ensures ByteIs(d, n, f, o, i, off, src, j, p)
    {
      assert ByteIs(e, m, f, o, i, off, src, j, p);
      assert FileByte(d, n, j, p).Some? ==> FileByte(e, m, j, p) == FileByte(d, n, j, p);
    }
  }

  lemma WroteMore(d: Disk, n: Inodes, e: Disk, m: Inodes, f: Disk, o: Inodes, i: nat, off: nat, a: seq<bv8>,
                  b: seq<bv8>)
    requires Wrote(d, n, e, m, i, off, a) && Wrote(e, m, f, o, i, off + |a|, b)
    ensures Wrote(d, n, f, o, i, off, a + b)
  {
    forall j: nat, p: nat
      ensures ByteIs(d, n, f, o, i, off, a + b, j, p)
    {
      assert ByteIs(d, n, e, m, i, off, a, j, p) && ByteIs(e, m, f, o, i, off + |a|, b, j, p);
    }
  }

  function Splice(c: seq<bv8>, off: nat, src: seq<bv8>): seq<bv8>
    requires off <= |c|
  {
    c[..off] + src + if off + |src| <= |c| then c[off + |src|..] else []
  }

  /** The inode's size catches up with what was written. */
  function Resized(n: Inodes, i: nat, end: nat): Inodes
    requires i in n
  {
    if end > n[i].size then n[i := n[i].(size := end)] else n
  }

  lemma ResizedConserves(s: Super, d: Disk, n: Inodes, i: nat, end: nat)
    requires i in n
    ensures Conserved(s, d, n, d, Resized(n, i, end))
  {
    SameSlotsConserve(s, d, n, d, Resized(n, i, end));
  }

  /** A file is a byte sequence, and writing is a splice of it. */
  lemma WroteIsSplice(s: Super, d: Disk, n: Inodes, e: Disk, m: Inodes, i: nat, off: nat, src: seq<bv8>)
    requires FsOk(s, d, n) && FsOk(s, e, m) && Wrote(d, n, e, m, i, off, src)
    requires i in n && off <= n[i].size && off + |src| <= 274432
    ensures i in m && var o := Resized(m, i, off + |src|);
            && FsOk(s, e, o) && o.Keys == n.Keys && Content(e, o, i) == Splice(Content(d, n, i), off, src)
            && forall j | j in n && j != i :: Content(e, o, j) == Content(d, n, j)
  {
    var o := Resized(m, i, off + |src|);
    forall j: nat, p: nat
      ensures FileByte(e, o, j, p) == FileByte(e, m, j, p)
    {
    }
    forall j: nat, p: nat | j in n && p < n[j].size
      ensures FileByte(d, n, j, p).Some? && ByteIs(d, n, e, m, i, off, src, j, p)
    {
      HasByte(s, d, n, j, p);
    }
    forall p: nat | off <= p < off + |src|
      ensures FileByte(e, o, i, p) == Some(src[p - off])
    {
      assert ByteIs(d, n, e, m, i, off, src, i, p);
    }
    ResizedOk(s, e, m, i, off + |src|);
  }

  lemma HasByte(s: Super, d: Disk, n: Inodes, i: nat, p: nat)
    requires FsOk(s, d, n) && i in n && p < n[i].size
    ensures FileByte(d, n, i, p).Some?
  {
    assert NoHole(d, n, i, p) && InodeOk(n, i);
    assert SlotOk(s, d, n, i, p / 1024) && BlockThere(s, d, BlockOf(d, n[i], p / 1024));
  }

  lemma ResizedOk(s: Super, d: Disk, n: Inodes, i: nat, end: nat)
    requires FsOk(s, d, n) && i in n && end <= 274432
    requires forall p: nat | n[i].size <= p < end :: FileByte(d, n, i, p).Some?
    ensures FsOk(s, d, Resized(n, i, end))
  {
    var o := Resized(n, i, end);
    forall j: nat
      ensures InodeOk(o, j)
    {
      assert InodeOk(n, j);
    }
    forall j: nat, k: nat | k <= 268
      ensures SlotOk(s, d, o, j, k)
    {
      assert SlotOk(s, d, n, j, k);
    }
    forall j: nat, k: nat, j': nat, k': nat | k <= 268 && k' <= 268
      ensures Apart(d, o, j, k, j', k')
    {
      assert Apart(d, n, j, k, j', k');
    }
    forall j: nat, p: nat
      ensures NoHole(d, o, j, p)
    {
      assert NoHole(d, n, j, p);
      if j == i && n[i].size <= p < end { assert FileByte(d, n, i, p).Some?; }
    }
  }

  // ---------------------------------------------------------------- truncating

  /** `bfree`: the block is marked free. */
  function Unmarked(s: Super, d: Disk, b: nat): Disk
    requires s.bmapstart + b / 8192 in d && |d[s.bmapstart + b / 8192]| == 1024
  {
    var at := s.bmapstart + b / 8192;
    d[at := Bits.Clear(d[at], b % 8192)]
  }

  /** Block `b` is in one of the first `k` slots of an inode. */
  ghost predicate InSlots(d: Disk, ip: Inode, k: nat, b: nat) {
    b != 0 && exists l {:trigger BlockOf(d, ip, l)} :: 0 <= l < k && BlockOf(d, ip, l) == b
  }

  /** The blocks in the first `k` slots of `ip` are marked free, and nothing else changed. */
  ghost predicate Freeing(s: Super, d: Disk, e: Disk, ip: Inode, k: nat) {
    true == (
      && (forall b {:trigger BlockThere(s, e, b)} :: BlockThere(s, e, b))
      && (forall c | c in d && s.datastart <= c :: c in e && e[c] == d[c])
      && (forall b {:trigger Used(s, e, b)} | 0 <= b < s.size ::
            Used(s, e, b) <==> Used(s, d, b) && !InSlots(d, ip, k, b)))
  }

  lemma FreeingStart(s: Super, d: Disk, n: Inodes, ip: Inode)
    requires FsOk(s, d, n)
    ensures Freeing(s, d, d, ip, 0)
  {
  }

  /** Freeing the next slot: its block is marked, so the panic of `bfree` is not reached. */
  lemma FreeStep(s: Super, d: Disk, n: Inodes, i: nat, e: Disk, k: nat)
    requires FsOk(s, d, n) && i in n && k <= 268 && Freeing(s, d, e, n[i], k)
    ensures var b := BlockOf(d, n[i], k);
            && (b == 0 ==> Freeing(s, d, e, n[i], k + 1))
            && (b != 0 ==>
                  && s.datastart <= b < s.size && Used(s, e, b)
                  && Freeing(s, d, Unmarked(s, e, b), n[i], k + 1))
  {
    var b := BlockOf(d, n[i], k);
    assert SlotOk(s, d, n, i, k);
    if b == 0 {
      forall c
        ensures InSlots(d, n[i], k + 1, c) <==> InSlots(d, n[i], k, c)
      {
      }
    } else {
      forall l | 0 <= l < k
        ensures BlockOf(d, n[i], l) != b
      {
        assert Apart(d, n, i, k, i, l);
      }
      assert !InSlots(d, n[i], k, b) && Used(s, e, b);
      forall c
        ensures InSlots(d, n[i], k + 1, c) <==> c == b || InSlots(d, n[i], k, c)
      {
        assert BlockOf(d, n[i], k) == b;
      }
      var f := Unmarked(s, e, b);
      UsedUnmarked(s, e, b);
      forall c
        ensures BlockThere(s, f, c)
      {
        assert BlockThere(s, e, c);
      }
      assert b / 8192 <= s.size / 8192;
    }
  }

  /** Without an indirect block there is nothing beyond the direct ones. */
  lemma NoIndirect(s: Super, d: Disk, e: Disk, ip: Inode)
    requires Freeing(s, d, e, ip, 12) && |ip.addrs| == 13 && ip.addrs[12] == 0
    ensures Freeing(s, d, e, ip, 269)
  {
    forall b
      ensures InSlots(d, ip, 269, b) <==> InSlots(d, ip, 12, b)
    {
      assert forall l | 12 <= l < 269 :: BlockOf(d, ip, l) == 0;
    }
  }

  lemma UsedUnmarked(s: Super, d: Disk, b: nat)
    requires s.bmapstart + b / 8192 in d && |d[s.bmapstart + b / 8192]| == 1024
    ensures forall c: nat {:trigger Used(s, Unmarked(s, d, b), c)} ::
              Used(s, Unmarked(s, d, b), c) <==> c != b && Used(s, d, c)
  {
    var at, e := s.bmapstart + b / 8192, Unmarked(s, d, b);
    forall c: nat
      ensures Used(s, e, c) <==> c != b && Used(s, d, c)
    {
      assert c == c / 8192 * 8192 + c % 8192 && b == b / 8192 * 8192 + b % 8192;
      if c / 8192 == b / 8192 {
        assert e[at] == Bits.Clear(d[at], b % 8192);
        assert c % 8192 / 8 < 1024;
      }
    }
  }

  function Emptied(n: Inodes, i: nat): Inodes {
    n[i := Inode(0, seq(13, _ => 0))]
  }

  lemma SlotFreed(s: Super, d: Disk, n: Inodes, i: nat, e: Disk, j: nat, k: nat)
    requires FsOk(s, d, n) && i in n && Freeing(s, d, e, n[i], 269) && k <= 268
    ensures SlotOk(s, e, Emptied(n, i), j, k)
    ensures j in n ==> BlockOf(e, Emptied(n, i)[j], k) == if j == i then 0 else BlockOf(d, n[j], k)
  {
    if j in n && j != i {
      assert InodeOk(n, j) && SlotOk(s, d, n, j, k);
      if n[j].addrs[12] != 0 { IndirectIs(s, d, n, j); }
      forall l | 0 <= l < 269
        ensures BlockOf(d, n[j], k) != 0 ==> BlockOf(d, n[i], l) != BlockOf(d, n[j], k)
      {
        assert Apart(d, n, j, k, i, l);
      }
      assert !InSlots(d, n[i], 269, BlockOf(d, n[j], k));
    }
  }

  /** The blocks below `datastart` stay in use. */
  lemma MetaFreed(s: Super, d: Disk, n: Inodes, i: nat, e: Disk)
    requires FsOk(s, d, n) && i in n && Freeing(s, d, e, n[i], 269)
    ensures DiskOk(s, e)
  {
    forall b | 0 <= b < s.datastart
      ensures Used(s, e, b)
    {
      forall l | 0 <= l < 269
        ensures b != 0 ==> BlockOf(d, n[i], l) != b
      {
        assert SlotOk(s, d, n, i, l);
      }
      assert Used(s, d, b) && !InSlots(d, n[i], 269, b);
    }
  }

  lemma ByteFreed(s: Super, d: Disk, n: Inodes, i: nat, e: Disk, j: nat, p: nat)
    requires FsOk(s, d, n) && i in n && Freeing(s, d, e, n[i], 269)
    ensures NoHole(e, Emptied(n, i), j, p)
    ensures j in n && j != i && p < n[j].size ==> FileByte(e, Emptied(n, i), j, p) == FileByte(d, n, j, p)
  {
    assert NoHole(d, n, j, p) && InodeOk(n, j);
    if j in n && j != i && p < n[j].size {
      assert SlotOk(s, d, n, j, p / 1024) && BlockThere(s, d, BlockOf(d, n[j], p / 1024));
      SlotFreed(s, d, n, i, e, j, p / 1024);
    }
  }

  lemma OwnersFreed(s: Super, d: Disk, n: Inodes, i: nat, e: Disk)
    requires FsOk(s, d, n) && i in n && Freeing(s, d, e, n[i], 269)
    ensures Owners(s, e, Emptied(n, i))
  {
    var m := Emptied(n, i);
    forall j: nat
      ensures InodeOk(m, j)
    {
      assert InodeOk(n, j);
    }
    forall j: nat, k: nat | k <= 268
      ensures SlotOk(s, e, m, j, k)
    {
      SlotFreed(s, d, n, i, e, j, k);
    }
    forall j: nat, k: nat, j': nat, k': nat | k <= 268 && k' <= 268
      ensures Apart(e, m, j, k, j', k')
    {
      SlotFreed(s, d, n, i, e, j, k);
      SlotFreed(s, d, n, i, e, j', k');
      assert Apart(d, n, j, k, j', k');
    }
  }

  /** With every slot freed and the inode empty, the other files are as they were. */
  lemma FreedAll(s: Super, d: Disk, n: Inodes, i: nat, e: Disk)
    requires FsOk(s, d, n) && i in n && Freeing(s, d, e, n[i], 269)
    ensures FsOk(s, e, Emptied(n, i)) && forall j | j in n && j != i :: Content(e, Emptied(n, i), j) == Content(d, n, j)
  {
    MetaFreed(s, d, n, i, e);
    OwnersFreed(s, d, n, i, e);
    forall j: nat, p: nat
      ensures NoHole(e, Emptied(n, i), j, p)
      ensures j in n && j != i && p < n[j].size ==> FileByte(e, Emptied(n, i), j, p) == FileByte(d, n, j, p)
    {
      ByteFreed(s, d, n, i, e, j, p);
    }
  }

  lemma FreedNoLeak(s: Super, d: Disk, n: Inodes, i: nat, e: Disk)
    requires FsOk(s, d, n) && i in n && Freeing(s, d, e, n[i], 269) && NoLeak(s, d, n)
    ensures NoLeak(s, e, Emptied(n, i))
  {
    var m := Emptied(n, i);
    forall b | s.datastart <= b < s.size && Used(s, e, b)
      ensures HasOwner(e, m, b)
    {
      assert HasOwner(d, n, b);
      var j, k :| j in n && 0 <= k <= 268 && BlockOf(d, n[j], k) == b;
      SlotFreed(s, d, n, i, e, j, k);
      assert j != i;
      assert BlockOf(e, m[j], k) == b;
    }
  }
}
