/** Page-table walks and user memory of kernel/vm.c over the frame allocator of kernel/kalloc.c,
    proved against the flat map of PageTable.

    The free frames are chained through their own first words, as the source chains them. Any
    number of page tables may share the memory: each method says that it changes only its own
    tree's pages and frames it took from the free list. Page numbers stand for page-aligned
    virtual addresses. */
module Vm {
  import opened Options
  import opened PageTable
  import opened Frames
  import opened FreeTree
  import opened PathCount
  import opened UserMap
  import UserCopy

  class Kernel {
    const lo: nat
    const hi: nat
    var mem: Memory
    var freelist: nat
    ghost var free: seq<nat>

    ghost predicate MemOk()
      reads this
    {
      AllocOk(mem, lo, hi, freelist, free)
    }

    // ---------------------------------------------------------------- kalloc.c

    /** `kinit`: every frame of RAM is freed, whatever it holds. */
    constructor (lo: nat, hi: nat, ram: Memory)
      requires IsRam(ram, lo, hi)
      ensures MemOk() && this.lo == lo && this.hi == hi
      ensures forall f :: f in free <==> lo <= f < hi
    {
      this.lo, this.hi := lo, hi;
      mem := ram;
      freelist, free := 0, [];
      new;
      var p := lo;
      while p < hi
        invariant lo <= p <= hi && MemOk() && forall f :: f in free <==> lo <= f < p
      {
        Kfree(p);
        p := p + 1;
      }
    }

    /** `kalloc`: the head of the list, filled with junk, or 0. */
    method Kalloc() returns (f: nat)
      requires MemOk()
      modifies this
      ensures MemOk()
      ensures f == 0 <==> old(free) == []
      ensures f == 0 ==> mem == old(mem) && free == old(free)
      ensures f != 0 ==> f == old(free)[0] && free == old(free)[1..] && f !in free
      ensures f != 0 ==> f in old(mem) && mem == old(mem)[f := Filled(TAKEN)]
    {
      PopFree(mem, lo, hi, freelist, free);
      f := freelist;
      if f != 0 {
        DistinctHead(free);
        freelist := mem[f][0];
        mem := mem[f := Filled(TAKEN)];
        free := free[1..];
      }
    }

    /** `kfree`: its panic of line 52 is this method's precondition. */
    method Kfree(f: nat)
      requires MemOk() && lo <= f < hi && f !in free
      modifies this
      ensures MemOk() && free == [f] + old(free)
      ensures mem.Keys == old(mem).Keys && forall g | g in mem && g != f :: mem[g] == old(mem)[g]
    {
      var p: Page := Filled(FREED)[0 := freelist];
      PushFree(mem, lo, hi, freelist, free, f, p);
      mem := mem[f := p];
      freelist := f;
      free := [f] + free;
    }

    // ---------------------------------------------------------------- walk

    /** `t` is a page table in memory, and none of its pages is on the free list. */
    ghost predicate HasTree(t: Tree)
      reads this
    {
      true == (MemOk() && IsTree(mem, t) && forall n | n in t :: t[n] !in free)
    }

    /** Lines 85-93: from the page-table page of one level to the one below. */
    method WalkDown(pt: nat, level: nat, v: nat, alloc: bool, ghost t: Tree) returns (r: Option<nat>, ghost u: Tree)
      requires HasTree(t) && 1 <= level <= 2 && v < MAXPAGE && NodeAt(level, v) in t && pt == t[NodeAt(level, v)]
      modifies this
      ensures HasTree(u) && Grew(old(mem), mem, t, u, old(free), free)
      ensures forall w :: Lookup(mem, u, w) == Lookup(old(mem), t, w)
      ensures r.Some? ==> NodeAt(level - 1, v) in u && r.value == u[NodeAt(level - 1, v)]
      ensures !alloc ==> u == t && mem == old(mem) && free == old(free) && (r.None? ==> NodeAt(level - 1, v) !in t)
      ensures r.None? ==> u == t && NodeAt(level - 1, v) !in t && (alloc ==> free == old(free) == [])
      ensures r.Some? ==> u.Keys == t.Keys + {NodeAt(level - 1, v)}
      ensures r.Some? ==> |old(free)| == |free| + if NodeAt(level - 1, v) in t then 0 else 1
    {
      u := t;
      ghost var n, child := NodeAt(level, v), NodeAt(level - 1, v);
      var i := Px(level, v);
      assert level == 2 ==> i < 256;
      assert child == Child(n, i);
      assert NodeOk(mem, t, n) && EntryOk(mem, t, n, i);
      var pte := mem[pt][i];
      if IsValid(pte) {
        assert child in t;
        EntryParts(t[child], 1);
        r := Some(FrameOf(pte));
        return;
      }
      if child in t { EntryParts(t[child], 1); }
      if !alloc { return None, t; }
      var f := Kalloc();
      if f == 0 { return None, t; }
      u := t[child := f];
      LinkPage(f, pt, i);
      GrownIs(old(mem), mem, t, n, i, f);
      GrowTree(old(mem), t, n, i, f);
      forall w
        ensures Lookup(mem, u, w) == Lookup(old(mem), t, w)
      {
        GrowLookup(old(mem), t, n, i, f, w);
      }
      ExtendOnce(t, child, old(free));
      r := Some(f);
    }

    /** Lines 91-92: clear a new frame and point entry `i` of `pt` to it. */
    method LinkPage(f: nat, pt: nat, i: nat)
      requires MemOk() && f in mem && f !in free && pt in mem && pt !in free && pt != f && i < 512 && |mem[pt]| == 512
      modifies this`mem
      ensures MemOk()
      ensures f in old(mem) && pt in old(mem)[f := Zeroes()]
      ensures mem == Store(old(mem)[f := Zeroes()], pt, i, Entry(f, 1))
    {
      WriteUsed(mem, lo, hi, freelist, free, f, Zeroes());
      mem := mem[f := Zeroes()];
      WriteUsed(mem, lo, hi, freelist, free, pt, Store(mem, pt, i, Entry(f, 1))[pt]);
      mem := Store(mem, pt, i, Entry(f, 1));
    }

    /** `walk` below MAXVA: the frame that holds the slot of page `v`. Without `alloc` nothing
        changes; with it the tree may grow, and no translation changes. */
    method Walk(root: nat, v: nat, alloc: bool, ghost t: Tree) returns (r: Option<nat>, ghost u: Tree)
      requires HasTree(t) && t[Top] == root && v < MAXPAGE
      modifies this
      ensures HasTree(u) && Grew(old(mem), mem, t, u, old(free), free)
      ensures u[Top] == root && forall w :: Lookup(mem, u, w) == Lookup(old(mem), t, w)
      ensures r.Some? ==> NodeAt(0, v) in u && r.value == u[NodeAt(0, v)]
      ensures !alloc ==> u == t && mem == old(mem) && free == old(free) && (r.Some? <==> NodeAt(0, v) in t)
      ensures alloc ==> (r.Some? <==> |old(free)| >= Missing(t, v, 1))
      ensures alloc && r.Some? ==> Paved(t, u, v, 1, old(free), free)
    {
      u := t;
      var pt, level := root, 2;
      ghost var mid, low := NodeAt(1, v), NodeAt(0, v);
      MissingIs(t, v);
      while level > 0
        invariant 0 <= level <= 2
        invariant HasTree(u) && Grew(old(mem), mem, t, u, old(free), free)
        invariant u[Top] == root && forall w :: Lookup(mem, u, w) == Lookup(old(mem), t, w)
        invariant NodeAt(level, v) in u && pt == u[NodeAt(level, v)]
        invariant !alloc ==> u == t && mem == old(mem) && free == old(free)
        invariant OnWay(t, u, level, mid, low, old(free), free)
      {
        ghost var u1, m1, f1 := u, mem, free;
        r, u := WalkDown(pt, level, v, alloc, u);
        GrewTrans(old(mem), m1, mem, t, u1, u, old(free), f1, free);
        OnWayMore(t, u1, u, level, mid, low, old(free), f1, free, r.Some?);
        if r.None? {
          assert low in u ==> NodeOk(mem, u, low);
          return;
        }
        pt := r.value;
        level := level - 1;
      }
      r := Some(pt);
    }

    /** Writes the slot of page `v`. */
    method SetEntry(pt: nat, v: nat, pte: nat, ghost t: Tree)
      requires HasTree(t) && v < MAXPAGE && NodeAt(0, v) in t && pt == t[NodeAt(0, v)]
      modifies this`mem
      ensures HasTree(t) && OnlyTree(old(mem), mem, t, free)
      ensures forall w | 0 <= w < MAXPAGE :: Lookup(mem, t, w) == if w == v then pte else Lookup(old(mem), t, w)
    {
      WriteSlot(mem, t, v, pte);
      assert pt in t.Values;
      WriteUsed(mem, lo, hi, freelist, free, pt, Store(mem, pt, Px(0, v), pte)[pt]);
      mem := Store(mem, pt, Px(0, v), pte);
    }

    /** Lines 164-168: one page of `mappages`. */
    method MapOne(root: nat, v: nat, pte: nat, ghost t: Tree) returns (r: Outcome, ghost u: Tree)
      requires HasTree(t) && t[Top] == root && v < MAXPAGE
      modifies this
      ensures HasTree(u) && Grew(old(mem), mem, t, u, old(free), free) && u[Top] == root
      ensures Remapped(old(mem), t, mem, u, v, if r == Done then 1 else 0, pte)
      ensures r == Panic <==> r != NoMemory && IsValid(Lookup(old(mem), t, v))
      ensures r == NoMemory <==> |old(free)| < Missing(t, v, 1)
      ensures r != NoMemory ==> Paved(t, u, v, 1, old(free), free)
    {
      var pt: Option<nat>;
      pt, u := Walk(root, v, true, t);
      if pt.None? { return NoMemory, u; }
      assert NodeOk(mem, u, NodeAt(0, v));
      assert Lookup(mem, u, v) == mem[pt.value][Px(0, v)];
      if IsValid(mem[pt.value][Px(0, v)]) { return Panic, u; }
      ghost var m1, f1 := mem, free;
      SetEntry(pt.value, v, pte, u);
      GrewTrans(old(mem), m1, mem, t, u, u, old(free), f1, free);
      r := Done;
    }

    /** `n` pages from `first` on were not mapped in `t` and are now, in `u`; nothing else changed. */
    ghost predicate Mapping(root: nat, first: nat, n: nat, frame: nat, flags: nat, t: Tree, u: Tree,
                            was: Memory, from: seq<nat>)
      requires flags < 1024
      reads this
    {
      true == (
        && HasTree(u) && u[Top] == root && Grew(was, mem, t, u, from, free) && IsTree(was, t)
        && Remapped(was, t, mem, u, first, n, Entry(frame, flags)) && NoneValid(was, t, first, n))
    }

    /** The same page in the middle of a run: `n` pages from `first` on are mapped already. */
    method MapStep(root: nat, a: nat, f: nat, flags: nat, ghost t: Tree, ghost u: Tree,
                   ghost first: nat, ghost n: nat, ghost frame: nat, ghost was: Memory, ghost from: seq<nat>)
      returns (r: Outcome, ghost u': Tree)
      requires a == first + n < MAXPAGE && f == frame + n && flags < 1024
      requires Mapping(root, first, n, frame, flags, t, u, was, from) && Paved(t, u, first, n, from, free)
      modifies this
      ensures Mapping(root, first, if r == Done then n + 1 else n, frame, flags, t, u', was, from)
      ensures r != NoMemory ==> Paved(t, u', first, n + 1, from, free)
      ensures r != Done ==> Stopped(was, t, first, n, |from|, r)
    {
      r, u' := MapOne(root, a, Entry(f, flags), u);
      PavedMore(t, u, u', first, n, a, from, old(free), free);
      if r != Done { MapStops(was, old(mem), t, u, first, n, a, Entry(frame, flags), from, old(free), r); }
      GrewTrans(was, old(mem), mem, t, u, u', from, old(free), free);
      RemappedMore(was, t, old(mem), u, mem, u', first, n, a, if r == Done then 1 else 0, frame, f, flags);
    }

    /** Lines 161-173: maps pages upwards until it is done, memory runs out, or it meets a mapping
        or the end of the address space; `n` pages are new, all others are as they were. */
    method MapRange(root: nat, first: nat, last: nat, frame: nat, flags: nat, ghost t: Tree)
      returns (r: Outcome, ghost n: nat, ghost u: Tree)
      requires HasTree(t) && t[Top] == root && flags < 1024
      modifies this
      ensures Mapping(root, first, n, frame, flags, t, u, old(mem), old(free)) && (n > 0 ==> first + n <= MAXPAGE)
      ensures r == Done ==> 0 < n && first + n == last + 1 <= MAXPAGE && Paved(t, u, first, n, old(free), free)
      ensures r != Done ==> Stopped(old(mem), t, first, n, |old(free)|, r)
      ensures r != Done && first <= last ==> first + n <= last
    {
      var a, f := first, frame;
      u, n := t, 0;
      PavedNone(t, first, free);
      while true
        invariant a == first + n && f == frame + n && (first <= last ==> a <= last) && (n > 0 ==> a <= MAXPAGE)
        invariant Mapping(root, first, n, frame, flags, t, u, old(mem), old(free))
        invariant Paved(t, u, first, n, old(free), free)
        decreases MAXPAGE - a
      {
        if a >= MAXPAGE { return Panic, n, u; }
        r, u := MapStep(root, a, f, flags, t, u, first, n, frame, old(mem), old(free));
        if r != Done { return r, n, u; }
        n := n + 1;
        if a == last { return Done, n, u; }
        a := a + 1;
        f := f + 1;
      }
    }

    /** `mappages` */
    method MapPages(root: nat, va: nat, size: nat, pa: nat, perm: nat, ghost t: Tree)
      returns (r: Outcome, ghost n: nat, ghost u: Tree)
      requires HasTree(t) && t[Top] == root && perm < 1024
      modifies this
      ensures HasTree(u) && Grew(old(mem), mem, t, u, old(free), free) && u[Top] == root
      ensures Remapped(old(mem), t, mem, u, va / 4096, n, Entry(pa / 4096, WithValid(perm)))
      ensures forall w | va / 4096 <= w < va / 4096 + n ::
                && IsValid(Lookup(mem, u, w)) && FlagsOf(Lookup(mem, u, w)) / 2 == perm / 2
                && FrameOf(Lookup(mem, u, w)) == pa / 4096 + (w - va / 4096)
      ensures NoneValid(old(mem), t, va / 4096, n)
      ensures r == Done ==> 0 < n && va / 4096 + n == LastPage(va, size) + 1 <= MAXPAGE
      ensures r == Done ==> Paved(t, u, va / 4096, n, old(free), free)
      ensures r == NoMemory ==> va / 4096 + n < MAXPAGE && |old(free)| < Missing(t, va / 4096, n + 1)
      ensures r == Panic ==> va / 4096 + n >= MAXPAGE || IsValid(Lookup(old(mem), t, va / 4096 + n))
      ensures r != Done && va / 4096 <= LastPage(va, size) ==> va / 4096 + n <= LastPage(va, size)
      ensures |old(free)| >= Missing(t, va / 4096, n)
    {
      r, n, u := MapRange(root, va / 4096, LastPage(va, size), pa / 4096, WithValid(perm), t);
      RemappedMaps(old(mem), t, mem, u, va / 4096, n, pa / 4096, perm);
    }

    // ---------------------------------------------------------------- uvmunmap

    /** Lines 190-202: one page of `uvmunmap`. */
    method UnmapOne(root: nat, v: nat, doFree: bool, ghost t: Tree) returns (r: Outcome)
      requires HasTree(t) && t[Top] == root && v < MAXPAGE
      requires doFree && IsLeaf(Lookup(mem, t, v)) ==> FrameTaken(mem, t, lo, hi, free, v)
      modifies this
      ensures HasTree(t)
      ensures r == (if IsLeaf(Lookup(old(mem), t, v)) then Done else Panic)
      ensures Unmapped(old(mem), mem, t, v, if r == Done then 1 else 0, doFree, old(free), free)
    {
      var pt: Option<nat>;
      ghost var u: Tree;
      pt, u := Walk(root, v, false, t);
      if pt.None? { return Panic; }
      assert NodeOk(mem, t, NodeAt(0, v));
      var pte := mem[pt.value][Px(0, v)];
      assert pte == Lookup(mem, t, v);
      if !IsValid(pte) || FlagsOf(pte) == 1 { return Panic; }
      if doFree { FreeFrame(FrameOf(pte), t); }
      SetEntry(pt.value, v, 0, t);
      assert FramesBack(old(mem), t, v, 1) == [FrameOf(pte)];
      r := Done;
    }

    /** `kfree` of a frame outside a tree. */
    method FreeFrame(f: nat, ghost t: Tree)
      requires HasTree(t) && lo <= f < hi && f !in free && f !in t.Values
      modifies this
      ensures HasTree(t) && free == [f] + old(free) && OnlyTree(old(mem), mem, t, free)
      ensures forall w :: Lookup(mem, t, w) == Lookup(old(mem), t, w)
    {
      forall n | n in t
        ensures t[n] in mem && t[n] in t.Values
      {
        assert NodeOk(mem, t, n);
      }
      Kfree(f);
      TreeKept(old(mem), mem, t);
    }

    /** The same page in the middle of a run: `n` pages of the map `was` are gone. */
    method UnmapStep(root: nat, ghost first: nat, ghost last: nat, a: nat, doFree: bool, ghost t: Tree,
                     ghost n: nat, ghost was: Memory, ghost from: seq<nat>)
      returns (r: Outcome)
      requires HasTree(t) && t[Top] == root && a == first + n < MAXPAGE && (first <= last ==> a <= last)
      requires doFree ==> Owned(was, t, lo, hi, from, first, last)
      requires Unmapped(was, mem, t, first, n, doFree, from, free)
      modifies this
      ensures HasTree(t) && r == (if IsLeaf(Lookup(was, t, a)) then Done else Panic)
      ensures Unmapped(was, mem, t, first, if r == Done then n + 1 else n, doFree, from, free)
    {
      BeforeNext(was, mem, t, lo, hi, first, last, n, a, doFree, from, free);
      r := UnmapOne(root, a, doFree, t);
      if r == Done { UnmapMore(was, old(mem), mem, t, first, n, a, doFree, from, old(free), free); }
    }

    /** Lines 189-207: removes `n` pages, the whole range unless it meets a page that is not a leaf
        or the end of the address space. */
    method UnmapRange(root: nat, first: nat, last: nat, doFree: bool, ghost t: Tree) returns (r: Outcome, ghost n: nat)
      requires HasTree(t) && t[Top] == root
      requires doFree ==> Owned(mem, t, lo, hi, free, first, last)
      modifies this
      ensures HasTree(t) && Unmapped(old(mem), mem, t, first, n, doFree, old(free), free)
      ensures r != NoMemory && (r == Done ==> 0 < n && first + n == last + 1 <= MAXPAGE)
      ensures r == Panic ==> first + n >= MAXPAGE || !IsLeaf(Lookup(old(mem), t, first + n))
      ensures r == Panic && first <= last ==> first + n <= last
    {
      var a := first;
      n := 0;
      while true
        invariant a == first + n && (first <= last ==> a <= last)
        invariant HasTree(t) && Unmapped(old(mem), mem, t, first, n, doFree, old(free), free)
        decreases MAXPAGE - a
      {
        if a >= MAXPAGE { return Panic, n; }
        r := UnmapStep(root, first, last, a, doFree, t, n, old(mem), old(free));
        if r != Done { return r, n; }
        n := n + 1;
        if a == last { return Done, n; }
        a := a + 1;
      }
    }

    /** `uvmunmap` */
    method UvmUnmap(root: nat, va: nat, size: nat, doFree: bool, ghost t: Tree) returns (r: Outcome, ghost n: nat)
      requires HasTree(t) && t[Top] == root
      requires doFree ==> Owned(mem, t, lo, hi, free, va / 4096, LastPage(va, size))
      modifies this
      ensures HasTree(t) && Unmapped(old(mem), mem, t, va / 4096, n, doFree, old(free), free)
      ensures r != NoMemory && (r == Done ==> 0 < n && va / 4096 + n == LastPage(va, size) + 1 <= MAXPAGE)
      ensures r == Panic ==> va / 4096 + n >= MAXPAGE || !IsLeaf(Lookup(old(mem), t, va / 4096 + n))
      ensures r == Panic && va / 4096 <= LastPage(va, size) ==> va / 4096 + n <= LastPage(va, size)
    {
      r, n := UnmapRange(root, va / 4096, LastPage(va, size), doFree, t);
    }

    // ---------------------------------------------------------------- user memory

    /** `uvmcreate`: a page table that translates nothing; 0 stands for its panic. */
    method UvmCreate() returns (f: nat, ghost t: Tree)
      requires MemOk()
      modifies this
      ensures MemOk() && (f == 0 <==> old(free) == [])
      ensures f != 0 ==> old(free) == [f] + free && t == map[Top := f]
      ensures f != 0 ==> HasTree(t) && forall w :: Lookup(mem, t, w) == 0
      ensures mem.Keys == old(mem).Keys && forall g | g in mem && g != f :: mem[g] == old(mem)[g]
    {
      f := Kalloc();
      t := map[Top := f];
      if f != 0 {
        WriteUsed(mem, lo, hi, freelist, free, f, Zeroes());
        mem := mem[f := Zeroes()];
        assert NodeOk(mem, t, Top);
      }
    }

    /** Rewrites a frame that is neither free nor part of the tree. */
    method Fill(f: nat, p: Page, ghost t: Tree)
      requires HasTree(t) && f in mem && f !in free && f !in t.Values && |p| == 512
      modifies this`mem
      ensures HasTree(t) && f in old(mem) && mem == old(mem)[f := p]
      ensures forall w :: Lookup(mem, t, w) == Lookup(old(mem), t, w)
    {
      forall n | n in t
        ensures t[n] in mem && t[n] in t.Values
      {
        assert NodeOk(mem, t, n);
      }
      WriteUsed(mem, lo, hi, freelist, free, f, p);
      mem := mem[f := p];
      TreeKept(old(mem), mem, t);
    }

    /** A frame off the free list, with contents `p`. */
    method TakeFrame(p: Page, ghost t: Tree) returns (f: nat)
      requires HasTree(t) && |p| == 512
      modifies this
      ensures HasTree(t) && (forall w :: Lookup(mem, t, w) == Lookup(old(mem), t, w))
      ensures f == 0 ==> mem == old(mem) && free == old(free) == []
      ensures f != 0 ==> lo <= f < hi && old(free) == [f] + free && f !in free
      ensures f != 0 ==> f !in t.Values && f in mem && mem[f] == p
      ensures f != 0 ==> Grew(old(mem), mem, t, t, old(free), [f] + free)
    {
      forall n | n in t
        ensures t[n] in mem && t[n] !in free
      {
        assert NodeOk(mem, t, n);
      }
      f := Kalloc();
      if f != 0 {
        assert FrameOk(mem, lo, hi, f);
        TreeKept(old(mem), mem, t);
        Fill(f, p, t);
      }
    }

    /** `mappages` of one page. */
    method MapFrame(root: nat, v: nat, f: nat, perm: nat, ghost t: Tree) returns (r: Outcome, ghost u: Tree)
      requires HasTree(t) && t[Top] == root && v < 0x10_0000_0000_0000 && perm < 1024
      modifies this
      ensures HasTree(u) && u[Top] == root && Grew(old(mem), mem, t, u, old(free), free)
      ensures r == Panic <==> !CanMap(old(mem), t, v)
      ensures r == NoMemory <==> CanMap(old(mem), t, v) && |old(free)| < Missing(t, v, 1)
      ensures r == Done ==> Paved(t, u, v, 1, old(free), free)
      ensures Remapped(old(mem), t, mem, u, v, if r == Done then 1 else 0, Entry(f, WithValid(perm)))
    {
      OnePage(v);
      assert f * 4096 / 4096 == f;
      r, u := MapSingle(root, v * 4096, f * 4096, perm, v, f, t);
    }

    method MapSingle(root: nat, va: nat, pa: nat, perm: nat, ghost v: nat, ghost f: nat, ghost t: Tree)
      returns (r: Outcome, ghost u: Tree)
      requires HasTree(t) && t[Top] == root && perm < 1024
      requires va / 4096 == v && LastPage(va, 4096) == v && pa / 4096 == f
      modifies this
      ensures HasTree(u) && u[Top] == root && Grew(old(mem), mem, t, u, old(free), free)
      ensures r == Panic <==> !CanMap(old(mem), t, v)
      ensures r == NoMemory <==> CanMap(old(mem), t, v) && |old(free)| < Missing(t, v, 1)
      ensures r == Done ==> Paved(t, u, v, 1, old(free), free)
      ensures Remapped(old(mem), t, mem, u, v, if r == Done then 1 else 0, Entry(f, WithValid(perm)))
    {
      ghost var n: nat;
      r, n, u := MapPages(root, va, 4096, pa, perm, t);
      SingleOutcome(old(mem), t, v, n, r, |old(free)|, u, old(free), free);
    }

    /** Lines 252-262 and 334-340: a new frame with contents `p` becomes page `v`; or memory runs out,
        and nothing happens but that the tree may have grown; or `mappages` panics. */
    method NewPage(root: nat, v: nat, p: Page, perm: nat, ghost t: Tree)
      returns (r: Outcome, ghost f: nat, ghost u: Tree)
      requires HasTree(t) && t[Top] == root && v < 0x10_0000_0000_0000 && |p| == 512 && perm < 1024
      modifies this
      ensures HasTree(u) && u[Top] == root
      ensures r == Done <==> CanMap(old(mem), t, v) && |old(free)| >= 1 + Missing(t, v, 1)
      ensures r == Panic <==> !CanMap(old(mem), t, v) && old(free) != []
      ensures r == Done ==> Grew(old(mem), mem, t, u, old(free), [f] + free) && Distinct([f] + free) && f !in u.Values
      ensures r == Done ==> f in mem && mem[f] == p && Remapped(old(mem), t, mem, u, v, 1, Entry(f, WithValid(perm)))
      ensures r == Done ==> Paved(t, u, v, 1, old(free), [f] + free)
      ensures r == NoMemory ==> Grew(old(mem), mem, t, u, old(free), free) && Remapped(old(mem), t, mem, u, v, 0, 0)
    {
      u := t;
      var g := TakeFrame(p, t);
      f := g;
      if g == 0 { return NoMemory, f, u; }
      ghost var m1, f1 := mem, free;
      r, u := MapFrame(root, v, g, perm, t);
      if r == Panic { return; }
      GrewFramed(m1, mem, t, u, [g], f1, free);
      GrewTrans(old(mem), m1, mem, t, t, u, old(free), [g] + f1, [g] + free);
      if r != Done {
        ghost var m2 := mem;
        FreeFrame(g, u);
        GrewTrans(old(mem), m2, mem, t, u, u, old(free), free, free);
        return;
      }
      DistinctPush(free, g);
    }

    /** `uvmunmap` of the pages from `first` up to `end`, with their frames. */
    method FreeRange(root: nat, va: nat, size: nat, ghost first: nat, ghost end: nat, ghost t: Tree)
      returns (r: Outcome, ghost n: nat)
      requires HasTree(t) && t[Top] == root && va / 4096 == first < end && LastPage(va, size) == end - 1
      requires Owned(mem, t, lo, hi, free, first, end - 1)
      modifies this
      ensures HasTree(t) && Unmapped(old(mem), mem, t, first, n, true, old(free), free)
      ensures (r == Done && n == end - first) || (r == Panic && n < end - first)
      ensures r == Panic ==> first + n >= MAXPAGE || !IsLeaf(Lookup(old(mem), t, first + n))
    {
      r, n := UvmUnmap(root, va, size, true, t);
    }

    /** `uvmdealloc` */
    method UvmDealloc(root: nat, oldsz: nat, newsz: nat, ghost t: Tree) returns (r: nat, out: Outcome, ghost n: nat)
      requires HasTree(t) && t[Top] == root && oldsz < 0x1_0000_0000_0000_0000
      requires newsz < oldsz && PageUp(newsz) < PageUp(oldsz) ==>
                 Owned(mem, t, lo, hi, free, PageUp(newsz), PageUp(oldsz) - 1)
      modifies this
      ensures r == if newsz < oldsz then newsz else oldsz
      ensures HasTree(t) && Unmapped(old(mem), mem, t, PageUp(newsz), n, true, old(free), free)
      ensures out == Done ==> n == if newsz < oldsz then PagesLost(oldsz, newsz) else 0
      ensures out == Done && oldsz <= MAXPAGE * 4096 ==> ShrunkTo(old(mem), mem, t, oldsz, newsz)
      ensures out != NoMemory
      ensures out == Panic ==> PageUp(newsz) + n >= MAXPAGE || !IsLeaf(Lookup(old(mem), t, PageUp(newsz) + n))
      ensures out == Panic ==> n < PagesLost(oldsz, newsz)
    {
      n := 0;
      if newsz >= oldsz { return oldsz, Done, n; }
      var newup := PageUp(newsz) * 4096;
      out := Done;
      if PageUp(newsz) < PageUp(oldsz) {
        DeallocRange(oldsz, newsz);
        out, n := FreeRange(root, newup, oldsz - newup, PageUp(newsz), PageUp(oldsz), t);
      }
      if out == Done && oldsz <= MAXPAGE * 4096 { ClearedShrinks(old(mem), mem, t, oldsz, newsz, n); }
      r := newsz;
    }

    /** `uvmdealloc` of pages that are all held. */
    method ShrinkBack(root: nat, first: nat, a: nat, ghost was: Memory, ghost t: Tree, ghost u: Tree,
                      ghost pages: seq<UserPage>, ghost from: seq<nat>)
      requires HasTree(u) && u[Top] == root && a == first + |pages| < 0x10_0000_0000_0000
      requires Held(was, mem, t, u, first, pages, from, free) && (pages != [] ==> a <= MAXPAGE)
      modifies this
      ensures HasTree(u) && Grew(was, mem, t, u, from, free) && Undone(was, mem, t, u, first, |pages|)
    {
      WholePages(a);
      WholePages(first);
      if pages != [] { HeldOwned(was, mem, t, u, lo, hi, first, pages, from, free); }
      ghost var m1, f1, n := mem, free, 0;
      var r, out;
      r, out, n := UvmDealloc(root, a * 4096, first * 4096, u);
      HeldUndone(was, m1, mem, t, u, first, pages, from, f1, free);
    }

    /** Lines 252-262 and 334-340: adds a page with contents `p` to the pages that are held. */
    method AddPage(root: nat, a: nat, p: Page, perm: nat, ghost first: nat, ghost t: Tree, ghost u: Tree,
                   ghost pages: seq<UserPage>, ghost was: Memory, ghost from: seq<nat>)
      returns (r: Outcome, ghost pages': seq<UserPage>, ghost u': Tree)
      requires HasTree(u) && u[Top] == root && a == first + |pages| < 0x10_0000_0000_0000
      requires |p| == 512 && perm < 1024 && WithValid(perm) != 1 && (pages != [] ==> a <= MAXPAGE)
      requires Held(was, mem, t, u, first, pages, from, free) && Spent(t, u, first, |pages|, from, free)
      modifies this
      ensures HasTree(u') && u'[Top] == root
      ensures AddsOne(was, t, first, |pages|, a, |from|, r)
      ensures r != Panic ==> Held(was, mem, t, u', first, pages', from, free)
      ensures r == Done ==> Spent(t, u', first, |pages| + 1, from, free)
      ensures r == Done ==> OneMore(pages, pages', WithValid(perm), p)
      ensures r != Done ==> pages' == pages
    {
      HeldElsewhere(was, mem, t, u, first, pages, from, free, a);
      ghost var f: nat;
      r, f, u' := NewPage(root, a, p, perm, u);
      SpentMore(t, u, u', first, |pages|, a, from, old(free), f, free);
      pages' := pages;
      if r == Done {
        ghost var page := UserPage(f, WithValid(perm), p);
        HeldMore(was, old(mem), mem, t, u, u', first, pages, page, from, old(free), free);
        pages' := pages + [page];
      } else if r == NoMemory {
        HeldKept(was, old(mem), mem, t, u, u', first, pages, from, old(free), free);
      }
    }

    /** Lines 254 and 260: the pages added so far, which were not mapped before, are taken away again. */
    method GiveUp(root: nat, first: nat, a: nat, ghost was: Memory, ghost t: Tree, ghost u: Tree,
                  ghost pages: seq<UserPage>, ghost from: seq<nat>)
      requires HasTree(u) && u[Top] == root && a == first + |pages| < 0x10_0000_0000_0000
      requires Held(was, mem, t, u, first, pages, from, free) && (pages != [] ==> a <= MAXPAGE)
      requires AllOk(Takes(was, t), first, |pages|)
      modifies this
      ensures HasTree(u) && Grew(was, mem, t, u, from, free) && Undone(was, mem, t, u, first, |pages|)
      ensures SameMap(was, mem, t, u)
    {
      ShrinkBack(root, first, a, was, t, u, pages, from);
      TakesAll(was, t, first, |pages|);
      UndoneIsSame(was, mem, t, u, first, |pages|);
    }

    /** Lines 250-264: pages from `first` on until `newsz` is reached. */
    method Grow(root: nat, first: nat, newsz: nat, ghost n: nat, ghost t: Tree)
      returns (out: Outcome, ghost pages: seq<UserPage>, ghost u: Tree)
      requires HasTree(t) && t[Top] == root && first < 0x10_0000_0000_0000 && newsz < 0x1_0000_0000_0000_0000
      requires newsz <= (first + n) * 4096 && (n > 0 ==> (first + n - 1) * 4096 < newsz)
      modifies this
      ensures HasTree(u) && u[Top] == root && out == Verdict(old(mem), t, first, n, |old(free)|)
      ensures out == Done ==> Held(old(mem), mem, t, u, first, pages, old(free), free) && |pages| == n
      ensures out == Done ==> AllZero(pages)
      ensures out == NoMemory ==> Grew(old(mem), mem, t, u, old(free), free)
      ensures out == NoMemory ==> Undone(old(mem), mem, t, u, first, |pages|) && |pages| < n
      ensures out == NoMemory ==> SameMap(old(mem), mem, t, u)
    {
      u, pages := t, [];
      HeldNone(mem, t, first, free);
      SpentNone(t, first, free);
      var a := first;
      while a * 4096 < newsz
        invariant a == first + |pages| && |pages| <= n && a < 0x10_0000_0000_0000 + 1 && (pages != [] ==> a <= MAXPAGE)
        invariant HasTree(u) && u[Top] == root && Held(old(mem), mem, t, u, first, pages, old(free), free)
        invariant Spent(t, u, first, |pages|, old(free), free) && AllOk(Takes(old(mem), t), first, |pages|)
        invariant AllZero(pages)
      {
        ghost var was := pages;
        out, pages, u := AddPage(root, a, Zeroes(), 30, first, t, u, pages, old(mem), old(free));
        Settled(old(mem), t, first, n, |was|, a, |old(free)|, out);
        if out == Done { AllZeroMore(was, pages); }
        if out != Done {
          if out == NoMemory { GiveUp(root, first, a, old(mem), t, u, pages, old(free)); }
          return;
        }
        a := a + 1;
      }
      FateDone(Takes(old(mem), t), Cost(t, first), first, n, |old(free)|);
      out := Done;
    }

    /** `uvmalloc`: new zeroed pages in frames of their own, or the user memory as it was, or the panic
        at a page that is mapped or not below MAXVA; which of them, the free frames decide. */
    method UvmAlloc(root: nat, oldsz: nat, newsz: nat, ghost t: Tree)
      returns (r: nat, out: Outcome, ghost pages: seq<UserPage>, ghost u: Tree)
      requires HasTree(t) && t[Top] == root && oldsz < 0x1_0000_0000_0000_0000 && newsz < 0x1_0000_0000_0000_0000
      modifies this
      ensures HasTree(u) && u[Top] == root
      ensures out == if newsz < oldsz then Done
                     else Verdict(old(mem), t, PageUp(oldsz), PagesTo(PageUp(oldsz), newsz), |old(free)|)
      ensures out == Done ==> r == if newsz < oldsz then oldsz else newsz
      ensures out == Done ==> Held(old(mem), mem, t, u, PageUp(oldsz), pages, old(free), free)
      ensures out == Done ==> |pages| == if newsz < oldsz then 0 else PagesTo(PageUp(oldsz), newsz)
      ensures out == Done ==> AllZero(pages)
      ensures out == Done && oldsz <= MAXPAGE * 4096 ==> GrownTo(old(mem), mem, t, u, oldsz, newsz)
      ensures out == NoMemory ==> r == 0 && Grew(old(mem), mem, t, u, old(free), free)
      ensures out == NoMemory ==> Undone(old(mem), mem, t, u, PageUp(oldsz), |pages|)
      ensures out == NoMemory ==> |pages| < PagesTo(PageUp(oldsz), newsz) && SameMap(old(mem), mem, t, u)
    {
      if newsz < oldsz {
        HeldNone(mem, t, PageUp(oldsz), free);
        return oldsz, Done, [], t;
      }
      PagesToIs(PageUp(oldsz), newsz);
      out, pages, u := Grow(root, PageUp(oldsz), newsz, PagesTo(PageUp(oldsz), newsz), t);
      if out == Done && oldsz <= MAXPAGE * 4096 {
        HeldGrows(old(mem), mem, t, u, oldsz, newsz, pages, old(free), free);
      }
      r := if out == Done then newsz else 0;
    }

    /** Lines 328-333: the entry of page `v`, which is there. */
    method ReadEntry(root: nat, v: nat, ghost p: Tree) returns (pte: nat)
      requires HasTree(p) && p[Top] == root && v < MAXPAGE && IsValid(Lookup(mem, p, v))
      modifies this
      ensures pte == Lookup(mem, p, v) && mem == old(mem) && free == old(free) && MemOk()
    {
      var pt: Option<nat>;
      ghost var u: Tree;
      pt, u := Walk(root, v, false, p);
      assert NodeOk(mem, p, NodeAt(0, v));
      pte := mem[pt.value][Px(0, v)];
    }

    /** `walkaddr`: where a user page is, or 0. */
    method WalkAddr(root: nat, va: nat, ghost t: Tree) returns (pa: nat)
      requires HasTree(t) && t[Top] == root
      modifies this
      ensures mem == old(mem) && free == old(free) && HasTree(t)
      ensures pa == UserCopy.FrameFor(va / 4096, Lookup(mem, t, va / 4096)) * 4096
      ensures var pte := Lookup(mem, t, va / 4096);
              pa == if va / 4096 < MAXPAGE && IsValid(pte) && FlagsOf(pte) / 16 % 2 == 1 then FrameOf(pte) * 4096 else 0
    {
      UserCopy.UsableIff(va / 4096, Lookup(mem, t, va / 4096));
      if va >= MAXPAGE * 4096 { return 0; }
      var v := va / 4096;
      var pt: Option<nat>;
      ghost var u: Tree;
      pt, u := Walk(root, v, false, t);
      if pt.None? { return 0; }
      assert NodeOk(mem, t, NodeAt(0, v));
      var pte := mem[pt.value][Px(0, v)];
      if !IsValid(pte) || pte / 16 % 2 == 0 { return 0; }
      pa := FrameOf(pte) * 4096;
    }

    /** Lines 328-340: copies page `i` of the parent, with `i` pages copied so far. */
    method CopyOne(oldRoot: nat, newRoot: nat, i: nat, ghost n: nat, ghost p: Tree, ghost c: Tree, ghost u: Tree,
                   ghost pages: seq<UserPage>, ghost was: Memory, ghost from: seq<nat>)
      returns (done: bool, ghost pages': seq<UserPage>, ghost u': Tree)
      requires IsTree(was, p) && p[Top] == oldRoot && i < n <= MAXPAGE
      requires Copying(newRoot, i, p, c, u, pages, was, from)
      requires Parent(was, p, c, from, n) && NoneValid(was, c, 0, n)
      modifies this
      ensures done <==> |from| >= i + 1 + Missing(c, 0, i + 1)
      ensures done ==> Copying(newRoot, i + 1, p, c, u', pages', was, from)
      ensures !done ==> HasTree(u') && u'[Top] == newRoot && Held(was, mem, c, u', 0, pages', from, free)
      ensures !done ==> pages' == pages && |pages| == i && |from| >= i + Missing(c, 0, i)
    {
      var pte, data := ReadParent(oldRoot, i, n, p, c, u, pages, was, from);
      CanMapNone(was, c, n, i);
      LeafFlags(pte);
      var r;
      r, pages', u' := AddPage(newRoot, i, data, FlagsOf(pte), 0, c, u, pages, was, from);
      done := r == Done;
      if done { AllCopiesMore(was, p, pages, pages', pte); }
    }

    /** Lines 328-333 and 336: page `i` of the parent, which is as it was. */
    method ReadParent(root: nat, i: nat, ghost n: nat, ghost p: Tree, ghost c: Tree, ghost u: Tree,
                      ghost pages: seq<UserPage>, ghost was: Memory, ghost from: seq<nat>)
      returns (pte: nat, data: Page)
      requires MemOk() && IsTree(was, p) && p[Top] == root && i < n <= MAXPAGE
      requires Held(was, mem, c, u, 0, pages, from, free) && Parent(was, p, c, from, n)
      modifies this
      ensures MemOk() && mem == old(mem) && free == old(free)
      ensures (pte, data) == PageOf(was, p, i) && IsLeaf(pte) && |data| == 512
    {
      ParentKept(was, mem, p, c, u, from, FramesOf(pages) + free, n);
      assert ParentPage(was, p, c, from, i) && PageOf(mem, p, i) == PageOf(was, p, i);
      pte := ReadEntry(root, i, p);
      assert FrameOk(mem, lo, hi, FrameOf(pte));
      data := mem[FrameOf(pte)];
    }

    /** `uvmcopy` of a parent's pages into a page table that has none of them. */
    method UvmCopy(oldRoot: nat, newRoot: nat, sz: nat, ghost p: Tree, ghost c: Tree)
      returns (r: Outcome, ghost pages: seq<UserPage>, ghost u: Tree)
      requires HasTree(p) && p[Top] == oldRoot && HasTree(c) && c[Top] == newRoot && sz <= MAXPAGE * 4096
      requires Parent(mem, p, c, free, PageUp(sz)) && NoneValid(mem, c, 0, PageUp(sz))
      modifies this
      ensures HasTree(u) && u[Top] == newRoot && HasTree(p)
      ensures forall w | 0 <= w < PageUp(sz) :: PageOf(mem, p, w) == PageOf(old(mem), p, w)
      ensures r == Done ==> Held(old(mem), mem, c, u, 0, pages, old(free), free) && |pages| == PageUp(sz)
      ensures r == Done ==> AllCopies(old(mem), p, pages) && CopiedTo(old(mem), p, old(free), mem, u, sz)
      ensures r != Done ==> Grew(old(mem), mem, c, u, old(free), free) && Undone(old(mem), mem, c, u, 0, |pages|)
      ensures r != Done ==> |pages| < PageUp(sz) && SameMap(old(mem), mem, c, u)
      ensures r == Done <==> |old(free)| >= PageUp(sz) + Missing(c, 0, PageUp(sz))
      ensures r == Panic <==> sz > 0 && |old(free)| < 1 + Missing(c, 0, 1)
    {
      var done, i;
      PageUpIs(sz);
      done, i, pages, u := CopyPages(oldRoot, newRoot, sz, PageUp(sz), p, c);
      if done {
        ParentKept(old(mem), mem, p, c, u, old(free), FramesOf(pages) + free, PageUp(sz));
        HeldCopies(old(mem), mem, p, c, u, sz, pages, old(free), free);
        if sz > 0 { MissingMono(c, 0, 1, PageUp(sz)); }
        r := Done;
      } else {
        CopyFails(c, i, PageUp(sz), |old(free)|);
        r := DropCopy(newRoot, i, PageUp(sz), old(mem), c, u, pages, old(free));
        ParentKept(old(mem), mem, p, c, u, old(free), free, PageUp(sz));
      }
    }

    /** `i` pages of the parent are copied, at the cost of their frames and of the page-table pages on
        the way to them. */
    ghost predicate Copying(newRoot: nat, i: nat, p: Tree, c: Tree, u: Tree, pages: seq<UserPage>,
                            was: Memory, from: seq<nat>)
      requires IsTree(was, p)
      reads this
    {
      true == (
        && HasTree(u) && u[Top] == newRoot && i == |pages| && Held(was, mem, c, u, 0, pages, from, free)
        && Spent(c, u, 0, i, from, free) && AllCopies(was, p, pages))
    }

    /** The loop of `uvmcopy`, up to where it ends or fails. */
    method CopyPages(oldRoot: nat, newRoot: nat, sz: nat, ghost n: nat, ghost p: Tree, ghost c: Tree)
      returns (done: bool, i: nat, ghost pages: seq<UserPage>, ghost u: Tree)
      requires HasTree(p) && p[Top] == oldRoot && HasTree(c) && c[Top] == newRoot && sz <= MAXPAGE * 4096
      requires n == PageUp(sz) && Parent(mem, p, c, free, n) && NoneValid(mem, c, 0, n)
      modifies this
      ensures done ==> i == n && Copying(newRoot, i, p, c, u, pages, old(mem), old(free))
      ensures !done ==> i == |pages| < n && HasTree(u) && u[Top] == newRoot
      ensures !done ==> Held(old(mem), mem, c, u, 0, pages, old(free), free)
      ensures !done ==> i + Missing(c, 0, i) <= |old(free)| < i + 1 + Missing(c, 0, i + 1)
    {
      u, pages, i := c, [], 0;
      HeldNone(mem, c, 0, free);
      SpentNone(c, 0, free);
      PageUpIs(sz);
      while i * 4096 < sz
        invariant i <= n && Copying(newRoot, i, p, c, u, pages, old(mem), old(free))
      {
        done, pages, u := CopyOne(oldRoot, newRoot, i, n, p, c, u, pages, old(mem), old(free));
        if !done { return; }
        i := i + 1;
      }
      done := true;
    }

    /** Lines 344-345: with nothing copied yet, the size of 0 makes `uvmunmap` panic. */
    method DropCopy(root: nat, i: nat, ghost n: nat, ghost was: Memory, ghost t: Tree, ghost u: Tree,
                    ghost pages: seq<UserPage>, ghost from: seq<nat>)
      returns (r: Outcome)
      requires HasTree(u) && u[Top] == root && i == |pages| < n <= MAXPAGE && NoneValid(was, t, 0, n)
      requires IsTree(was, t) && Held(was, mem, t, u, 0, pages, from, free)
      modifies this
      ensures HasTree(u) && Grew(was, mem, t, u, from, free) && Undone(was, mem, t, u, 0, |pages|)
      ensures SameMap(was, mem, t, u) && r == if i == 0 then Panic else NoMemory
    {
      WholePages(i);
      HeldElsewhere(was, mem, t, u, 0, pages, from, free, i);
      CanMapNone(was, t, n, i);
      if pages != [] {
        HeldOwned(was, mem, t, u, lo, hi, 0, pages, from, free);
      } else {
        OwnedNone(mem, u, lo, hi, free, 0, LastPage(0, 0));
      }
      ghost var m1, f1, k := mem, free, 0;
      r, k := UvmUnmap(root, 0, i * 4096, true, u);
      assert k == |pages| && r == (if i == 0 then Panic else Done);
      HeldUndone(was, m1, mem, t, u, 0, pages, from, f1, free);
      NoneMapped(was, mem, t, u, n, |pages|);
      if r == Done { r := NoMemory; }
    }

    // ---------------------------------------------------------------- freewalk

    /** Lines 291-299: entry `i`, with the subtrees below the entries before it given back. */
    method WalkEntry(pt: nat, i: nat, ghost t: Tree, ghost n: Node, ghost was: Memory, ghost from: seq<nat>)
      requires MemOk() && SpareTree(was, t, from, n) && pt == t[n] && i < 512
      requires Walking(was, mem, t, n, i, from, free)
      modifies this
      ensures MemOk() && Walking(was, mem, t, n, i + 1, from, free)
      ensures pt in mem && |mem[pt]| == 512 && !IsValid(mem[pt][i])
      decreases Height(n), 0
    {
      EntryFound(was, mem, t, n, i, from, free);
      var pte := mem[pt][i];
      if IsValid(pte) && pte / 2 % 8 == 0 {
        ghost var c, m1, f1 := Child(n, i), mem, free;
        ChildSpare(was, mem, t, n, i, from, free);
        FreeWalk(FrameOf(pte), t, c);
        WalkingMore(was, m1, mem, t, n, i, from, f1, free);
        WriteUsed(mem, lo, hi, freelist, free, pt, Store(mem, pt, i, 0)[pt]);
        mem := Store(mem, pt, i, 0);
      } else {
        assert !IsValid(pte);
        WalkingSkip(was, mem, t, n, i, from, free);
      }
    }

    /** `freewalk` of page `n` of a tree without leaves: exactly the frames from `n` down are given
        back, and its panic of line 298 is not reached. */
    method FreeWalk(pt: nat, ghost t: Tree, ghost n: Node)
      requires MemOk() && SpareTree(mem, t, free, n) && pt == t[n]
      modifies this
      ensures MemOk() && Walked(old(mem), mem, t, n, old(free), free)
      decreases Height(n), 1
    {
      assert Spare(mem, t, free, n);
      var i := 0;
      while i < 512
        invariant 0 <= i <= 512 && MemOk() && Walking(old(mem), mem, t, n, i, old(free), free)
      {
        WalkEntry(pt, i, t, n, old(mem), old(free));
        i := i + 1;
      }
      ghost var m1, f1 := mem, free;
      assert FrameOk(mem, lo, hi, pt);
      SelfLast(old(mem), mem, t, n, old(free), free);
      Kfree(pt);
      WalkingEnd(old(mem), m1, mem, t, n, old(free), f1);
    }

    /** `uvmfree` of a process that has the pages up to `sz` and no other: every frame of it, the user
        pages' and the page table's own, is free again. */
    method UvmFree(root: nat, sz: nat, ghost t: Tree)
      requires HasTree(t) && t[Top] == root && 0 < sz <= MAXPAGE * 4096
      requires AllLeaves(mem, t, 0, PageUp(sz)) && Owned(mem, t, lo, hi, free, 0, PageUp(sz) - 1)
      requires forall w | PageUp(sz) <= w < MAXPAGE :: !IsValid(Lookup(mem, t, w))
      modifies this
      ensures MemOk()
      ensures forall f :: f in free <==>
                f in old(free) || f in t.Values || f in FramesBack(old(mem), t, 0, PageUp(sz))
      ensures mem.Keys == old(mem).Keys && forall f | f in mem && f !in free :: mem[f] == old(mem)[f]
    {
      UnmapAll(root, sz, PageUp(sz), t);
      EmptyIsSpare(mem, t, free);
      ghost var f1 := free;
      FreeWalk(root, t, Top);
      forall f
        ensures IsUnder(t, Top, f) <==> f in t.Values
        ensures f in free <==> f in f1 || f in t.Values
      {
        assert IsUnder(t, Top, f) ==> f in free;
      }
    }

    /** Line 309. */
    method UnmapAll(root: nat, sz: nat, ghost n: nat, ghost t: Tree)
      requires HasTree(t) && t[Top] == root && 0 < sz <= MAXPAGE * 4096 && n == PageUp(sz)
      requires AllLeaves(mem, t, 0, n) && Owned(mem, t, lo, hi, free, 0, n - 1)
      modifies this
      ensures HasTree(t) && Unmapped(old(mem), mem, t, 0, n, true, old(free), free)
    {
      WholeRange(sz);
      var r;
      ghost var k;
      r, k := UvmUnmap(root, 0, sz, true, t);
      assert r == Done && k == n;
    }
  }
}
