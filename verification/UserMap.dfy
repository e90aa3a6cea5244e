/** What the operations of kernel/vm.c do to the flat map of a page table: pages added, pages
    removed with their frames given back, and the pages a process holds. */
module UserMap {
  import opened PageTable
  import opened Frames
  import opened PathCount

  /** The last page that `mappages` and `uvmunmap` reach, with the 64-bit wrap of `va + size - 1`. */
  function LastPage(va: nat, size: nat): nat {
    (va + size + 0xFFFF_FFFF_FFFF_FFFF) % 0x1_0000_0000_0000_0000 / 4096
  }

  /** The page that `PGROUNDUP(sz)` starts, with its 64-bit wrap. */
  function PageUp(sz: nat): nat {
    (sz + 4095) % 0x1_0000_0000_0000_0000 / 4096
  }

  lemma PageUpIs(sz: nat)
    requires sz <= MAXPAGE * 4096
    ensures sz <= PageUp(sz) * 4096 < sz + 4096 && PageUp(sz) <= MAXPAGE
  {
  }

  lemma OnePage(v: nat)
    requires v < 0x10_0000_0000_0000
    ensures v * 4096 / 4096 == v && LastPage(v * 4096, 4096) == v
  {
  }

  /** How many pages a process loses when it shrinks. */
  function PagesLost(oldsz: nat, newsz: nat): nat {
    if PageUp(newsz) < PageUp(oldsz) then PageUp(oldsz) - PageUp(newsz) else 0
  }

  lemma WholePages(v: nat)
    requires v < 0x10_0000_0000_0000
    ensures PageUp(v * 4096) == v && (v > 0 ==> LastPage(0, v * 4096) == v - 1)
  {
  }

  lemma WholeRange(sz: nat)
    requires 0 < sz <= MAXPAGE * 4096
    ensures LastPage(0, sz) == PageUp(sz) - 1 && PageUp(sz) <= MAXPAGE
  {
  }

  /** How many pages the loop of `uvmalloc` adds from page `first` on. */
  function PagesTo(first: nat, newsz: nat): nat {
    if first * 4096 < newsz then (newsz + 4095) / 4096 - first else 0
  }

  lemma PagesToIs(first: nat, newsz: nat)
    ensures var n := PagesTo(first, newsz);
            newsz <= (first + n) * 4096 && (n > 0 ==> (first + n - 1) * 4096 < newsz)
  {
  }

  /** The range that `uvmdealloc` passes on ends where the old size did. */
  lemma DeallocRange(oldsz: nat, newsz: nat)
    requires newsz < oldsz < 0x1_0000_0000_0000_0000 && PageUp(newsz) < PageUp(oldsz)
    ensures PageUp(newsz) * 4096 <= oldsz
    ensures LastPage(PageUp(newsz) * 4096, oldsz - PageUp(newsz) * 4096) == PageUp(oldsz) - 1
  {
  }

  // ---------------------------------------------------------------- pages of a range of bytes

  /** `mappages` and `uvmunmap` are about the pages that have a byte in the range. */
  lemma RangePages(va: nat, size: nat, w: nat)
    requires 0 < size && va + size <= 0x1_0000_0000_0000_0000
    ensures va / 4096 <= w <= LastPage(va, size) <==> w * 4096 < va + size && va < (w + 1) * 4096
  {
  }

  lemma LostPages(oldsz: nat, newsz: nat, w: nat)
    requires newsz < oldsz <= MAXPAGE * 4096
    ensures PageUp(newsz) <= w < PageUp(newsz) + PagesLost(oldsz, newsz) <==> newsz <= w * 4096 < oldsz
  {
    PageUpIs(oldsz);
    PageUpIs(newsz);
  }

  lemma AddedPages(oldsz: nat, newsz: nat, w: nat)
    requires oldsz <= newsz && oldsz <= MAXPAGE * 4096
    ensures PageUp(oldsz) <= w < PageUp(oldsz) + PagesTo(PageUp(oldsz), newsz) <==> oldsz <= w * 4096 < newsz
  {
    PageUpIs(oldsz);
    PagesToIs(PageUp(oldsz), newsz);
  }

  /** What shrinking a process does: the pages from the new size up to the old one are gone. */
  ghost predicate ShrunkTo(was: Memory, now: Memory, t: Tree, oldsz: nat, newsz: nat) {
    forall w {:trigger Lookup(now, t, w)} | 0 <= w < MAXPAGE ::
      Lookup(now, t, w) == if newsz <= w * 4096 < oldsz then 0 else Lookup(was, t, w)
  }

  lemma ClearedShrinks(was: Memory, now: Memory, t: Tree, oldsz: nat, newsz: nat, n: nat)
    requires oldsz <= MAXPAGE * 4096 && Cleared(was, now, t, PageUp(newsz), n)
    requires n == if newsz < oldsz then PagesLost(oldsz, newsz) else 0
    ensures ShrunkTo(was, now, t, oldsz, newsz)
  {
    forall w | 0 <= w < MAXPAGE
      ensures Lookup(now, t, w) == if newsz <= w * 4096 < oldsz then 0 else Lookup(was, t, w)
    {
      if newsz < oldsz { LostPages(oldsz, newsz, w); }
    }
  }

  /** What growing a process does: the pages from the old size up to the new one are readable,
      writable and executable user pages of zeroes. */
  ghost predicate GrownTo(was: Memory, now: Memory, t: Tree, u: Tree, oldsz: nat, newsz: nat) {
    forall w {:trigger Lookup(now, u, w)} | 0 <= w < MAXPAGE ::
      if oldsz <= w * 4096 < newsz then ZeroPage(now, Lookup(now, u, w)) else Lookup(now, u, w) == Lookup(was, t, w)
  }

  predicate ZeroPage(mem: Memory, pte: nat) {
    IsValid(pte) && FlagsOf(pte) == 31 && FrameOf(pte) in mem && mem[FrameOf(pte)] == Zeroes()
  }

  lemma HeldGrows(was: Memory, now: Memory, t: Tree, u: Tree, oldsz: nat, newsz: nat, pages: seq<UserPage>,
                  from: seq<nat>, free: seq<nat>)
    requires Held(was, now, t, u, PageUp(oldsz), pages, from, free) && AllZero(pages) && oldsz <= MAXPAGE * 4096
    requires |pages| == if newsz < oldsz then 0 else PagesTo(PageUp(oldsz), newsz)
    ensures GrownTo(was, now, t, u, oldsz, newsz)
  {
    var first := PageUp(oldsz);
    forall w | 0 <= w < MAXPAGE
      ensures if oldsz <= w * 4096 < newsz then ZeroPage(now, Lookup(now, u, w))
              else Lookup(now, u, w) == Lookup(was, t, w)
    {
      if oldsz <= newsz { AddedPages(oldsz, newsz, w); }
      if first <= w < first + |pages| {
        assert PageHeld(now, u, first, pages, w - first);
        EntryParts(pages[w - first].frame, 31);
      }
    }
  }

  /** What a copied process sees: at every page below its size the flags and the contents of its
      parent, in a frame of its own. */
  ghost predicate CopiedTo(was: Memory, p: Tree, from: seq<nat>, now: Memory, u: Tree, sz: nat) {
    forall w {:trigger Lookup(now, u, w)} | 0 <= w && w * 4096 < sz ::
      CopyOf(was, Lookup(was, p, w), from, now, Lookup(now, u, w))
  }

  predicate CopyOf(was: Memory, of: nat, from: seq<nat>, now: Memory, pte: nat) {
    && IsValid(pte) && FlagsOf(pte) == FlagsOf(of) && FrameOf(pte) in from
    && FrameOf(of) in was && FrameOf(pte) in now && now[FrameOf(pte)] == was[FrameOf(of)]
  }

  lemma HeldCopies(was: Memory, now: Memory, p: Tree, c: Tree, u: Tree, sz: nat, pages: seq<UserPage>,
                   from: seq<nat>, free: seq<nat>)
    requires Held(was, now, c, u, 0, pages, from, free) && AllCopies(was, p, pages) && sz <= MAXPAGE * 4096
    requires |pages| == PageUp(sz) && Parent(was, p, c, from, PageUp(sz))
    ensures CopiedTo(was, p, from, now, u, sz)
  {
    forall w | 0 <= w && w * 4096 < sz
      ensures CopyOf(was, Lookup(was, p, w), from, now, Lookup(now, u, w))
    {
      PageUpIs(sz);
      assert PageHeld(now, u, 0, pages, w) && IsCopy(pages[w], PageOf(was, p, w));
      assert ParentPage(was, p, c, from, w);
      EntryParts(pages[w].frame, pages[w].flags);
      assert (FramesOf(pages) + free)[w] == pages[w].frame;
    }
  }

  /** `perm | PTE_V`. */
  function WithValid(perm: nat): (r: nat)
    requires perm < 1024
    ensures r < 1024 && r % 2 == 1 && r / 2 == perm / 2
  {
    if perm % 2 == 1 then perm else perm + 1
  }

  /** The flat map has `n` pages from `first` on mapped to consecutive frames, and is otherwise as it was. */
  ghost predicate Remapped(was: Memory, t: Tree, now: Memory, u: Tree, first: nat, n: nat, pte: nat) {
    true == forall w {:trigger Lookup(now, u, w)} | 0 <= w < MAXPAGE ::
      Lookup(now, u, w) == if first <= w < first + n then pte + (w - first) * 1024 else Lookup(was, t, w)
  }

  /** The entry is valid, and has that frame and those permissions. */
  predicate MapsTo(pte: nat, frame: nat, perm: nat) {
    IsValid(pte) && FrameOf(pte) == frame && FlagsOf(pte) / 2 == perm / 2
  }

  lemma EntryMaps(frame: nat, perm: nat, k: nat)
    requires perm < 1024
    ensures MapsTo(Entry(frame, WithValid(perm)) + k * 1024, frame + k, perm)
  {
    EntryParts(frame + k, WithValid(perm));
  }

  lemma RemappedMaps(was: Memory, t: Tree, now: Memory, u: Tree, first: nat, n: nat, frame: nat, perm: nat)
    requires perm < 1024 && Remapped(was, t, now, u, first, n, Entry(frame, WithValid(perm)))
    ensures forall w | first <= w < first + n && w < MAXPAGE :: MapsTo(Lookup(now, u, w), frame + (w - first), perm)
  {
    forall w | first <= w < first + n && w < MAXPAGE
      ensures MapsTo(Lookup(now, u, w), frame + (w - first), perm)
    {
      EntryMaps(frame, perm, w - first);
    }
  }

  ghost predicate NoneValid(mem: Memory, t: Tree, first: nat, n: nat) {
    true == forall w {:trigger Lookup(mem, t, w)} | first <= w < first + n :: !IsValid(Lookup(mem, t, w))
  }

  /** Where one page of `mappages` stops, the whole stops. */
  lemma MapStops(was: Memory, mid: Memory, t: Tree, u: Tree, first: nat, n: nat, a: nat, pte: nat, from: seq<nat>,
                 f1: seq<nat>, r: Outcome)
    requires Paved(t, u, first, n, from, f1) && Remapped(was, t, mid, u, first, n, pte) && a == first + n < MAXPAGE
    requires r == NoMemory ==> |f1| < Missing(u, a, 1)
    requires r == Panic ==> IsValid(Lookup(mid, u, a))
    ensures Stopped(was, t, first, n, |from|, r)
  {
    PavedMore(t, u, u, first, n, a, from, f1, f1);
  }

  lemma RemappedMore(m0: Memory, t: Tree, m1: Memory, u: Tree, m2: Memory, w: Tree,
                     first: nat, n: nat, a: nat, k: nat, frame: nat, f: nat, flags: nat)
    requires flags < 1024 && k <= 1 && a == first + n < MAXPAGE && f == frame + n
    requires Remapped(m0, t, m1, u, first, n, Entry(frame, flags)) && NoneValid(m0, t, first, n)
    requires Remapped(m1, u, m2, w, a, k, Entry(f, flags))
    requires k == 1 ==> !IsValid(Lookup(m1, u, a))
    ensures Remapped(m0, t, m2, w, first, n + k, Entry(frame, flags)) && NoneValid(m0, t, first, n + k)
    ensures Lookup(m1, u, a) == Lookup(m0, t, a)
  {
  }

  predicate IsLeaf(pte: nat) { IsValid(pte) && FlagsOf(pte) != 1 }

  lemma LeafFlags(pte: nat)
    requires IsLeaf(pte)
    ensures WithValid(FlagsOf(pte)) == FlagsOf(pte) != 1
  {
  }

  ghost predicate AllLeaves(mem: Memory, t: Tree, first: nat, n: nat) {
    forall w {:trigger Lookup(mem, t, w)} | first <= w < first + n :: IsLeaf(Lookup(mem, t, w))
  }

  /** The flat map with `n` pages from `first` on removed. */
  ghost predicate Cleared(was: Memory, now: Memory, t: Tree, first: nat, n: nat) {
    true == forall w {:trigger Lookup(now, t, w)} | 0 <= w < MAXPAGE ::
      Lookup(now, t, w) == if first <= w < first + n then 0 else Lookup(was, t, w)
  }

  /** The frames of `n` pages from `first` on, last page first. */
  ghost function FramesBack(mem: Memory, t: Tree, first: nat, n: nat): seq<nat> {
    if n == 0 then [] else [FrameOf(Lookup(mem, t, first + n - 1))] + FramesBack(mem, t, first, n - 1)
  }

  lemma {:induction false} InFramesBack(mem: Memory, t: Tree, first: nat, n: nat, f: nat)
    ensures f in FramesBack(mem, t, first, n) <==> exists w :: first <= w < first + n && f == FrameOf(Lookup(mem, t, w))
  {
    if n > 0 { InFramesBack(mem, t, first, n - 1, f); }
  }

  /** `uvmunmap` gets to page `w`: it is in the range and so far every page is a leaf. */
  ghost predicate Reached(mem: Memory, t: Tree, first: nat, last: nat, w: nat) {
    first <= w < MAXPAGE && (first <= last ==> w <= last) && AllLeaves(mem, t, first, w + 1 - first)
  }

  ghost predicate FrameTaken(mem: Memory, t: Tree, lo: nat, hi: nat, free: seq<nat>, w: nat) {
    var f := FrameOf(Lookup(mem, t, w));
    lo <= f < hi && f !in free && f !in t.Values
  }

  predicate FramesApart(mem: Memory, t: Tree, v: nat, w: nat) {
    v != w ==> FrameOf(Lookup(mem, t, v)) != FrameOf(Lookup(mem, t, w))
  }

  /** The frames that `uvmunmap` gives back are in use, and each is given back once. */
  ghost predicate Owned(mem: Memory, t: Tree, lo: nat, hi: nat, free: seq<nat>, first: nat, last: nat) {
    true == (
      && (forall w {:trigger FrameTaken(mem, t, lo, hi, free, w)} |
            Reached(mem, t, first, last, w) :: FrameTaken(mem, t, lo, hi, free, w))
      && (forall v, w {:trigger FramesApart(mem, t, v, w)} |
            Reached(mem, t, first, last, v) && Reached(mem, t, first, last, w) :: FramesApart(mem, t, v, w)))
  }

  /** `n` leaf pages from `first` on are gone, and their frames are free if `doFree`; nothing else changed. */
  ghost predicate Unmapped(was: Memory, now: Memory, t: Tree, first: nat, n: nat, doFree: bool, from: seq<nat>,
                           to: seq<nat>) {
    true == (
      && Cleared(was, now, t, first, n) && AllLeaves(was, t, first, n) && OnlyTree(was, now, t, to)
      && to == (if doFree then FramesBack(was, t, first, n) else []) + from)
  }

  lemma OnlyTreeMore(m0: Memory, m1: Memory, m2: Memory, t: Tree, f1: seq<nat>, f2: seq<nat>)
    requires OnlyTree(m0, m1, t, f1) && OnlyTree(m1, m2, t, f2) && forall f | f in f1 :: f in f2
    ensures OnlyTree(m0, m2, t, f2)
  {
  }

  lemma LeavesMore(m0: Memory, m1: Memory, m2: Memory, t: Tree, first: nat, n: nat, a: nat)
    requires Cleared(m0, m1, t, first, n) && AllLeaves(m0, t, first, n) && a == first + n < MAXPAGE
    requires Cleared(m1, m2, t, a, 1) && AllLeaves(m1, t, a, 1)
    ensures Cleared(m0, m2, t, first, n + 1) && AllLeaves(m0, t, first, n + 1)
    ensures Lookup(m1, t, a) == Lookup(m0, t, a)
  {
    assert Lookup(m1, t, a) == Lookup(m0, t, a);
  }

  lemma BackMore(m0: Memory, m1: Memory, t: Tree, first: nat, n: nat, a: nat, doFree: bool,
                 f0: seq<nat>, f1: seq<nat>, f2: seq<nat>)
    requires a == first + n && Lookup(m1, t, a) == Lookup(m0, t, a)
    requires f1 == (if doFree then FramesBack(m0, t, first, n) else []) + f0
    requires f2 == (if doFree then FramesBack(m1, t, a, 1) else []) + f1
    ensures f2 == (if doFree then FramesBack(m0, t, first, n + 1) else []) + f0 && forall f | f in f1 :: f in f2
  {
    var f := FrameOf(Lookup(m0, t, a));
    assert FramesBack(m1, t, a, 1) == [f];
    assert [f] + (FramesBack(m0, t, first, n) + f0) == [f] + FramesBack(m0, t, first, n) + f0;
  }

  lemma UnmapMore(m0: Memory, m1: Memory, m2: Memory, t: Tree, first: nat, n: nat, a: nat, doFree: bool,
                  f0: seq<nat>, f1: seq<nat>, f2: seq<nat>)
    requires Unmapped(m0, m1, t, first, n, doFree, f0, f1) && a == first + n < MAXPAGE
    requires Unmapped(m1, m2, t, a, 1, doFree, f1, f2)
    ensures Unmapped(m0, m2, t, first, n + 1, doFree, f0, f2)
  {
    LeavesMore(m0, m1, m2, t, first, n, a);
    BackMore(m0, m1, t, first, n, a, doFree, f0, f1, f2);
    OnlyTreeMore(m0, m1, m2, t, f1, f2);
  }

  /** The next frame to give back is not among those given back already. */
  lemma NextTaken(mem: Memory, t: Tree, lo: nat, hi: nat, free: seq<nat>, first: nat, last: nat, n: nat)
    requires Owned(mem, t, lo, hi, free, first, last) && AllLeaves(mem, t, first, n + 1)
    requires first + n < MAXPAGE && (first <= last ==> first + n <= last)
    ensures FrameTaken(mem, t, lo, hi, FramesBack(mem, t, first, n) + free, first + n)
  {
    var w := first + n;
    assert Reached(mem, t, first, last, w) && FrameTaken(mem, t, lo, hi, free, w);
    InFramesBack(mem, t, first, n, FrameOf(Lookup(mem, t, w)));
    forall v | first <= v < w
      ensures FrameOf(Lookup(mem, t, v)) != FrameOf(Lookup(mem, t, w))
    {
      assert Reached(mem, t, first, last, v) && FramesApart(mem, t, v, w);
    }
  }

  /** Before each page: the flat map is still the first one there, and the frame can be given back. */
  lemma BeforeNext(was: Memory, now: Memory, t: Tree, lo: nat, hi: nat, first: nat, last: nat, n: nat, a: nat,
                   doFree: bool,
                   from: seq<nat>, to: seq<nat>)
    requires doFree ==> Owned(was, t, lo, hi, from, first, last)
    requires Unmapped(was, now, t, first, n, doFree, from, to)
    requires a == first + n < MAXPAGE && (first <= last ==> a <= last)
    ensures Lookup(now, t, a) == Lookup(was, t, a)
    ensures doFree && IsLeaf(Lookup(now, t, a)) ==> FrameTaken(now, t, lo, hi, to, a)
  {
    if doFree && IsLeaf(Lookup(now, t, first + n)) {
      NextTaken(was, t, lo, hi, from, first, last, n);
    }
  }

  // ---------------------------------------------------------------- pages that are held

  /** A user page: its frame, its flags and what it holds. */
  datatype UserPage = UserPage(frame: nat, flags: nat, data: Page)

  function FramesOf(pages: seq<UserPage>): (r: seq<nat>)
    ensures |r| == |pages| && forall i | 0 <= i < |pages| :: r[i] == pages[i].frame
  {
    seq(|pages|, i requires 0 <= i < |pages| => pages[i].frame)
  }

  /** One page more, at the end. */
  predicate OneMore(pages: seq<UserPage>, now: seq<UserPage>, flags: nat, data: Page) {
    |now| == |pages| + 1 && now[..|pages|] == pages && now[|pages|].flags == flags && now[|pages|].data == data
  }

  /** Readable, writable, executable user pages of zeroes. */
  ghost predicate AllZero(pages: seq<UserPage>) {
    forall i | 0 <= i < |pages| :: pages[i].flags == 31 && pages[i].data == Zeroes()
  }

  lemma AllZeroMore(pages: seq<UserPage>, now: seq<UserPage>)
    requires AllZero(pages) && OneMore(pages, now, 31, Zeroes())
    ensures AllZero(now)
  {
    forall i | 0 <= i < |now|
      ensures now[i].flags == 31 && now[i].data == Zeroes()
    {
      if i < |pages| { assert now[i] == now[..|pages|][i]; }
    }
  }

  /** What `mappages` reports about a range of one page. */
  lemma SingleOutcome(mem: Memory, t: Tree, v: nat, n: nat, r: Outcome, frames: nat, u: Tree, from: seq<nat>,
                      left: seq<nat>)
    requires IsTree(mem, t) && frames == |from| && NoneValid(mem, t, v, n)
    requires r == Done ==> v + n == v + 1 <= MAXPAGE && Paved(t, u, v, n, from, left)
    requires r == NoMemory ==> v + n < MAXPAGE && frames < Missing(t, v, n + 1)
    requires r == Panic ==> v + n >= MAXPAGE || IsValid(Lookup(mem, t, v + n))
    requires r != Done ==> v + n <= v
    ensures n == (if r == Done then 1 else 0) && (r == Panic <==> !CanMap(mem, t, v))
    ensures r == NoMemory <==> CanMap(mem, t, v) && frames < Missing(t, v, 1)
  {
    if IsValid(Lookup(mem, t, v)) { ValidIsPaved(mem, t, v); }
  }

  lemma CanMapNone(mem: Memory, t: Tree, n: nat, i: nat)
    requires NoneValid(mem, t, 0, n) && i < n <= MAXPAGE
    ensures CanMap(mem, t, i)
  {
    assert !IsValid(Lookup(mem, t, i));
  }

  /** Page `i` is a leaf with the frame, flags and contents that it should have. */
  ghost predicate PageHeld(mem: Memory, t: Tree, first: nat, pages: seq<UserPage>, i: nat)
    requires i < |pages|
  {
    && pages[i].flags < 1024 && IsLeaf(Lookup(mem, t, first + i))
    && Lookup(mem, t, first + i) == Entry(pages[i].frame, pages[i].flags)
    && pages[i].frame !in t.Values && pages[i].frame in mem && mem[pages[i].frame] == pages[i].data
  }

  /** `pages` were added from `first` on, in frames of their own out of `from`; the tree may have
      grown, the rest of the flat map and of memory is as it was, and `free` is what is left. */
  ghost predicate Held(was: Memory, now: Memory, t: Tree, u: Tree, first: nat, pages: seq<UserPage>,
                       from: seq<nat>, free: seq<nat>)
  {
    true == (
      && Grew(was, now, t, u, from, FramesOf(pages) + free) && Distinct(FramesOf(pages) + free)
      && (forall i {:trigger PageHeld(now, u, first, pages, i)} | 0 <= i < |pages| :: PageHeld(now, u, first, pages, i))
      && (forall w {:trigger Lookup(now, u, w)} | 0 <= w < MAXPAGE ::
            first <= w < first + |pages| || Lookup(now, u, w) == Lookup(was, t, w)))
  }

  lemma HeldNone(mem: Memory, t: Tree, first: nat, free: seq<nat>)
    requires Distinct(free)
    ensures Held(mem, mem, t, t, first, [], free, free)
  {
    assert FramesOf([]) + free == free;
  }

  /** The pages stay held while the tree grows and their own frames are left alone. */
  lemma HeldKept(m0: Memory, m1: Memory, m2: Memory, t: Tree, u: Tree, w: Tree, first: nat,
                 pages: seq<UserPage>, f0: seq<nat>, f1: seq<nat>, f2: seq<nat>)
    requires Held(m0, m1, t, u, first, pages, f0, f1) && (pages != [] ==> first + |pages| <= MAXPAGE)
    requires Grew(m1, m2, u, w, f1, f2) && Distinct(f2) && Remapped(m1, u, m2, w, first + |pages|, 0, 0)
    ensures Held(m0, m2, t, w, first, pages, f0, f2)
  {
    var held := FramesOf(pages);
    DistinctApart(held, f1);
    GrewFramed(m1, m2, u, w, held, f1, f2);
    GrewTrans(m0, m1, m2, t, u, w, f0, held + f1, held + f2);
    DistinctSwap(held, f1, f2);
    forall i | 0 <= i < |pages|
      ensures PageHeld(m2, w, first, pages, i)
    {
      assert PageHeld(m1, u, first, pages, i) && held[i] in held;
      assert Lookup(m2, w, first + i) == Lookup(m1, u, first + i);
    }
  }

  lemma HeldMore(m0: Memory, m1: Memory, m2: Memory, t: Tree, u: Tree, w: Tree, first: nat,
                 pages: seq<UserPage>, page: UserPage, f0: seq<nat>, f1: seq<nat>, f2: seq<nat>)
    requires Held(m0, m1, t, u, first, pages, f0, f1) && first + |pages| < MAXPAGE
    requires Grew(m1, m2, u, w, f1, [page.frame] + f2) && Distinct([page.frame] + f2)
    requires page.flags < 1024 && page.flags % 2 == 1 && page.flags != 1
    requires Remapped(m1, u, m2, w, first + |pages|, 1, Entry(page.frame, page.flags))
    requires page.frame !in w.Values && page.frame in m2 && m2[page.frame] == page.data
    ensures Held(m0, m2, t, w, first, pages + [page], f0, f2)
  {
    var held, more := FramesOf(pages), pages + [page];
    DistinctApart(held, f1);
    GrewFramed(m1, m2, u, w, held, f1, [page.frame] + f2);
    GrewTrans(m0, m1, m2, t, u, w, f0, held + f1, held + ([page.frame] + f2));
    DistinctSwap(held, f1, [page.frame] + f2);
    assert FramesOf(more) + f2 == held + ([page.frame] + f2);
    EntryParts(page.frame, page.flags);
    forall i | 0 <= i < |more|
      ensures PageHeld(m2, w, first, more, i)
    {
      assert Lookup(m2, w, first + i) == Lookup(m2, w, first + i);
      if i < |pages| {
        assert PageHeld(m1, u, first, pages, i) && held[i] in held;
      }
    }
  }

  /** Whether the next page can be mapped is not changed by the pages that are held. */
  lemma HeldElsewhere(was: Memory, now: Memory, t: Tree, u: Tree, first: nat, pages: seq<UserPage>,
                      from: seq<nat>, free: seq<nat>, a: nat)
    requires Held(was, now, t, u, first, pages, from, free) && a == first + |pages|
    ensures CanMap(now, u, a) == CanMap(was, t, a)
  {
    if a < MAXPAGE { assert Lookup(now, u, a) == Lookup(was, t, a); }
  }

  lemma HeldOwned(was: Memory, now: Memory, t: Tree, u: Tree, lo: nat, hi: nat, first: nat,
                  pages: seq<UserPage>, from: seq<nat>, free: seq<nat>)
    requires Held(was, now, t, u, first, pages, from, free) && IsRam(now, lo, hi) && pages != []
    ensures Owned(now, u, lo, hi, free, first, first + |pages| - 1) && AllLeaves(now, u, first, |pages|)
  {
    var last, held := first + |pages| - 1, FramesOf(pages);
    DistinctApart(held, free);
    forall w | first <= w <= last
      ensures FrameTaken(now, u, lo, hi, free, w) && IsLeaf(Lookup(now, u, w))
    {
      assert PageHeld(now, u, first, pages, w - first) && held[w - first] in held;
      EntryParts(held[w - first], pages[w - first].flags);
      assert FrameOk(now, lo, hi, held[w - first]);
    }
    forall v, w | first <= v <= last && first <= w <= last
      ensures FramesApart(now, u, v, w)
    {
      HeldFrame(was, now, t, u, first, pages, from, free, v);
      HeldFrame(was, now, t, u, first, pages, from, free, w);
      if v < w { assert Differ(held + free, v - first, w - first); }
      if w < v { assert Differ(held + free, w - first, v - first); }
    }
  }

  lemma HeldFrame(was: Memory, now: Memory, t: Tree, u: Tree, first: nat, pages: seq<UserPage>,
                  from: seq<nat>, free: seq<nat>, w: nat)
    requires Held(was, now, t, u, first, pages, from, free) && first <= w < first + |pages|
    ensures FrameOf(Lookup(now, u, w)) == pages[w - first].frame
  {
    assert PageHeld(now, u, first, pages, w - first);
    EntryParts(pages[w - first].frame, pages[w - first].flags);
  }

  /** Giving the pages back: every frame is free again but for the tree's own pages. */
  lemma HeldUndone(was: Memory, now: Memory, end: Memory, t: Tree, u: Tree, first: nat,
                   pages: seq<UserPage>, from: seq<nat>, free: seq<nat>, to: seq<nat>)
    requires Held(was, now, t, u, first, pages, from, free)
    requires Unmapped(now, end, u, first, |pages|, true, free, to)
    ensures Grew(was, end, t, u, from, to) && Undone(was, end, t, u, first, |pages|)
  {
    var held := FramesOf(pages);
    forall f
      ensures f in to <==> f in held + free
    {
      InFramesBack(now, u, first, |pages|, f);
      forall w | first <= w < first + |pages|
        ensures FrameOf(Lookup(now, u, w)) == held[w - first]
      {
        HeldFrame(was, now, t, u, first, pages, from, free, w);
      }
      if f in held {
        var i :| 0 <= i < |held| && held[i] == f;
        assert f == FrameOf(Lookup(now, u, first + i));
      }
    }
  }

  /** The flat map is as it was, but that the `n` pages from `first` on are zero. */
  ghost predicate Undone(was: Memory, now: Memory, t: Tree, u: Tree, first: nat, n: nat) {
    true == forall w {:trigger Lookup(now, u, w)} | 0 <= w < MAXPAGE ::
      Lookup(now, u, w) == if first <= w < first + n then 0 else Lookup(was, t, w)
  }

  /** Every mapping is as it was, and there is no other. */
  ghost predicate SameMap(was: Memory, now: Memory, t: Tree, u: Tree) {
    true == forall w {:trigger Lookup(now, u, w)} | 0 <= w < MAXPAGE ::
      && (IsValid(Lookup(now, u, w)) <==> IsValid(Lookup(was, t, w)))
      && (IsValid(Lookup(was, t, w)) ==> Lookup(now, u, w) == Lookup(was, t, w))
  }

  /** Pages that were not mapped before are taken away again. */
  lemma UndoneIsSame(was: Memory, now: Memory, t: Tree, u: Tree, first: nat, n: nat)
    requires Undone(was, now, t, u, first, n) && CanMapAll(was, t, first, n)
    ensures SameMap(was, now, t, u)
  {
    forall w | 0 <= w < MAXPAGE
      ensures IsValid(Lookup(now, u, w)) <==> IsValid(Lookup(was, t, w))
      ensures IsValid(Lookup(was, t, w)) ==> Lookup(now, u, w) == Lookup(was, t, w)
    {
      if first <= w < first + n { assert CanMap(was, t, w); }
    }
  }

  lemma NoneMapped(was: Memory, now: Memory, t: Tree, u: Tree, n: nat, k: nat)
    requires Undone(was, now, t, u, 0, k) && NoneValid(was, t, 0, n) && k <= n <= MAXPAGE
    ensures SameMap(was, now, t, u)
  {
    UndoneIsSame(was, now, t, u, 0, k);
  }

  lemma OwnedNone(mem: Memory, t: Tree, lo: nat, hi: nat, free: seq<nat>, first: nat, last: nat)
    requires !IsLeaf(Lookup(mem, t, first))
    ensures Owned(mem, t, lo, hi, free, first, last)
  {
    assert forall w :: Reached(mem, t, first, last, w) ==> IsLeaf(Lookup(mem, t, first));
  }

  // ---------------------------------------------------------------- another process

  ghost predicate ParentPage(mem: Memory, p: Tree, c: Tree, free: seq<nat>, w: nat) {
    var f := FrameOf(Lookup(mem, p, w));
    IsLeaf(Lookup(mem, p, w)) && f in mem && f !in free && f !in c.Values
  }

  /** Page table `p` has `n` user pages, and shares nothing with `c` or the free frames. */
  ghost predicate Parent(mem: Memory, p: Tree, c: Tree, free: seq<nat>, n: nat) {
    true == (
      && (forall m | m in p :: p[m] !in c.Values && p[m] !in free)
      && (forall w {:trigger ParentPage(mem, p, c, free, w)} | 0 <= w < n :: ParentPage(mem, p, c, free, w)))
  }

  /** Page `w` of `p`: its entry and the contents of its frame. */
  function PageOf(mem: Memory, p: Tree, w: nat): (nat, Page) {
    var f := FrameOf(Lookup(mem, p, w));
    (Lookup(mem, p, w), if f in mem then mem[f] else [])
  }

  predicate IsCopy(page: UserPage, of: (nat, Page)) {
    page.flags == FlagsOf(of.0) && page.data == of.1
  }

  /** The flags and contents of the parent's first pages. */
  ghost predicate AllCopies(mem: Memory, p: Tree, pages: seq<UserPage>) {
    forall i | 0 <= i < |pages| :: IsCopy(pages[i], PageOf(mem, p, i))
  }

  lemma AllCopiesMore(mem: Memory, p: Tree, pages: seq<UserPage>, now: seq<UserPage>, pte: nat)
    requires AllCopies(mem, p, pages) && pte == PageOf(mem, p, |pages|).0
    requires OneMore(pages, now, FlagsOf(pte), PageOf(mem, p, |pages|).1)
    ensures AllCopies(mem, p, now)
  {
    forall i | 0 <= i < |now|
      ensures IsCopy(now[i], PageOf(mem, p, i))
    {
      if i < |pages| { assert now[i] == now[..|pages|][i]; }
    }
  }

  /** Whatever happens to `c`, the parent sees nothing of it. */
  lemma ParentKept(was: Memory, now: Memory, p: Tree, c: Tree, u: Tree, from: seq<nat>, left: seq<nat>, n: nat)
    requires IsTree(was, p) && Parent(was, p, c, from, n) && Grew(was, now, c, u, from, left)
    ensures IsTree(now, p) && forall m | m in p :: p[m] !in left
    ensures forall w | 0 <= w < n :: ParentPage(was, p, c, from, w) && PageOf(now, p, w) == PageOf(was, p, w)
  {
    forall m | m in p
      ensures p[m] in was && p[m] in now && now[p[m]] == was[p[m]]
    {
      assert NodeOk(was, p, m);
    }
    TreeKept(was, now, p);
    forall w | 0 <= w < n
      ensures ParentPage(was, p, c, from, w) && PageOf(now, p, w) == PageOf(was, p, w)
    {
      assert ParentPage(was, p, c, from, w);
    }
  }
}
