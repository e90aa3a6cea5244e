/** The three-level Sv39 page tables of kernel/vm.c (sections 4.3.2 and 4.4 of the RISC-V
    Privileged Architecture) as a tree of frames, and the flat map from page number to page-table
    entry that the tree stands for.

    Physical memory is a map from frame number to the 512 words of the frame; an address is a
    frame number times 4096. An entry holds a frame number and ten flag bits. */
module PageTable {

  type Page = seq<nat>
  type Memory = map<nat, Page>

  const MAXPAGE: nat := 0x400_0000   // MAXVA / PGSIZE

  // ---------------------------------------------------------------- entries

  /** `PA2PTE(pa) | flags` for a frame, and its two inverses `PTE2PA` and `PTE_FLAGS`. */
  function Entry(frame: nat, flags: nat): nat
    requires flags < 1024
  {
    frame * 1024 + flags
  }

  function FrameOf(pte: nat): nat { pte / 1024 }

  function FlagsOf(pte: nat): (r: nat)
    ensures r < 1024
  {
    pte % 1024
  }

  predicate IsValid(pte: nat) { pte % 2 == 1 }

  lemma EntryParts(frame: nat, flags: nat)
    requires flags < 1024
    ensures FrameOf(Entry(frame, flags)) == frame && FlagsOf(Entry(frame, flags)) == flags
    ensures IsValid(Entry(frame, flags)) <==> flags % 2 == 1
  {
  }

  // ---------------------------------------------------------------- the tree

  /** A page-table page: the root, the one below root entry `i`, or below entry `j` of that. */
  datatype Node = Top | Mid(i: nat) | Low(i: nat, j: nat)

  /** The frame of every page-table page. */
  type Tree = map<Node, nat>

  /** `PX(level, va)` of the page with number `v`. */
  function Px(level: nat, v: nat): (r: nat)
    requires level <= 2
    ensures r < 512
  {
    if level == 0 then v % 512 else if level == 1 then v / 512 % 512 else v / 262144 % 512
  }

  function NodeAt(level: nat, v: nat): Node
    requires level <= 2
  {
    if level == 2 then Top else if level == 1 then Mid(Px(2, v)) else Low(Px(2, v), Px(1, v))
  }

  function Child(n: Node, i: nat): Node
    requires !n.Low?
  {
    if n.Top? then Mid(i) else Low(n.i, i)
  }

  /** Addresses stay below MAXVA, so only the lower half of the root is ever used. */
  predicate NodeOk(mem: Memory, t: Tree, n: Node)
    requires n in t
  {
    && t[n] in mem && |mem[t[n]]| == 512
    && (n.Mid? ==> n.i < 256) && (n.Low? ==> n.i < 256 && n.j < 512 && Mid(n.i) in t)
  }

  /** An entry above the lowest level points to the page below it, or is zero. */
  predicate EntryOk(mem: Memory, t: Tree, n: Node, i: nat)
    requires n in t && !n.Low? && t[n] in mem && |mem[t[n]]| == 512 && i < 512
  {
    mem[t[n]][i] == if Child(n, i) in t then Entry(t[Child(n, i)], 1) else 0
  }

  predicate NodesApart(t: Tree, m: Node, n: Node)
    requires m in t && n in t
  {
    t[m] == t[n] ==> m == n
  }

  ghost predicate IsTree(mem: Memory, t: Tree) {
    true == (
      && Top in t
      && (forall n {:trigger NodeOk(mem, t, n)} | n in t :: NodeOk(mem, t, n))
      && (forall n, i {:trigger EntryOk(mem, t, n, i)} |
            n in t && !n.Low? && t[n] in mem && |mem[t[n]]| == 512 && 0 <= i < 512 :: EntryOk(mem, t, n, i))
      && (forall m, n {:trigger NodesApart(t, m, n)} | m in t && n in t :: NodesApart(t, m, n)))
  }

  /** The flat map: the entry for page `v`, zero where the tree has none. */
  function Lookup(mem: Memory, t: Tree, v: nat): nat {
    var n := NodeAt(0, v);
    if n in t && t[n] in mem && |mem[t[n]]| == 512 then mem[t[n]][Px(0, v)] else 0
  }

  lemma PxSplit(v: nat)
    requires v < MAXPAGE
    ensures v == Px(2, v) * 262144 + Px(1, v) * 512 + Px(0, v)
  {
    assert v / 262144 == v / 512 / 512;
  }

  /** Pages below MAXVA have distinct slots, each in a page-table page of its own tree. */
  lemma SlotsDistinct(mem: Memory, t: Tree, v: nat, w: nat)
    requires IsTree(mem, t) && v < MAXPAGE && w < MAXPAGE && NodeAt(0, v) in t && NodeAt(0, w) in t
    requires t[NodeAt(0, v)] == t[NodeAt(0, w)] && Px(0, v) == Px(0, w)
    ensures v == w
  {
    assert NodesApart(t, NodeAt(0, v), NodeAt(0, w));
    PxSplit(v);
    PxSplit(w);
  }

  // ---------------------------------------------------------------- changes

  /** Memory with word `i` of frame `f` set to `pte`. */
  function Store(mem: Memory, f: nat, i: nat, pte: nat): Memory
    requires f in mem && i < |mem[f]|
  {
    var p: Page := mem[f][i := pte];
    mem[f := p]
  }

  /** Memory that is the same on the tree's pages holds the same tree and the same flat map. */
  lemma TreeKept(mem: Memory, now: Memory, t: Tree)
    requires IsTree(mem, t)
    requires forall n | n in t :: t[n] in mem && t[n] in now && now[t[n]] == mem[t[n]]
    ensures IsTree(now, t) && forall v :: Lookup(now, t, v) == Lookup(mem, t, v)
  {
    forall n | n in t
      ensures NodeOk(now, t, n)
    {
      assert NodeOk(mem, t, n);
    }
    forall n, i | n in t && !n.Low? && t[n] in now && |now[t[n]]| == 512 && 0 <= i < 512
      ensures EntryOk(now, t, n, i)
    {
      assert EntryOk(mem, t, n, i);
    }
    forall v
      ensures Lookup(now, t, v) == Lookup(mem, t, v)
    {
      if NodeAt(0, v) in t { assert NodeOk(mem, t, NodeAt(0, v)); }
    }
  }

  /** Lines 89-92: a cleared frame becomes the missing page below entry `i` of `n`. */
  function Grown(mem: Memory, t: Tree, n: Node, i: nat, f: nat): Memory
    requires n in t && t[n] in mem && i < |mem[t[n]]|
  {
    var cleared := mem[f := Zeroes()];
    if t[n] == f then cleared else Store(cleared, t[n], i, Entry(f, 1))
  }

  function Zeroes(): Page {
    seq(512, _ => 0)
  }

  lemma GrowTree(mem: Memory, t: Tree, n: Node, i: nat, f: nat)
    requires IsTree(mem, t) && n in t && !n.Low? && i < 512 && (n.Top? ==> i < 256) && Child(n, i) !in t
    requires f in mem && forall m | m in t :: t[m] != f
    requires t[n] in mem && |mem[t[n]]| == 512
    ensures IsTree(Grown(mem, t, n, i, f), t[Child(n, i) := f])
  {
    var now, u, c := Grown(mem, t, n, i, f), t[Child(n, i) := f], Child(n, i);
    assert NodeOk(mem, t, n);
    forall m | m in u
      ensures NodeOk(now, u, m)
    {
      if m != c { assert NodeOk(mem, t, m) && NodesApart(t, m, n); }
    }
    forall m, k | m in u && !m.Low? && u[m] in now && |now[u[m]]| == 512 && 0 <= k < 512
      ensures EntryOk(now, u, m, k)
    {
      if m != c {
        assert NodeOk(mem, t, m) && NodesApart(t, m, n) && EntryOk(mem, t, m, k);
        assert Child(m, k) == c ==> m == n && k == i;
      } else {
        assert Low(i, k) in t ==> NodeOk(mem, t, Low(i, k));
      }
    }
    forall m, m' | m in u && m' in u
      ensures NodesApart(u, m, m')
    {
      if m != c && m' != c { assert NodesApart(t, m, m'); }
    }
  }

  /** Growing the tree changes no translation. */
  lemma GrowLookup(mem: Memory, t: Tree, n: Node, i: nat, f: nat, v: nat)
    requires IsTree(mem, t) && n in t && !n.Low? && i < 512 && Child(n, i) !in t
    requires f in mem && forall m | m in t :: t[m] != f
    requires t[n] in mem && |mem[t[n]]| == 512
    ensures Lookup(Grown(mem, t, n, i, f), t[Child(n, i) := f], v) == Lookup(mem, t, v)
  {
    var l := NodeAt(0, v);
    if l in t { assert NodesApart(t, l, n) && NodeOk(mem, t, l); }
  }

  /** Writing the slot of page `v` changes the flat map there and nowhere else. */
  lemma WriteSlot(mem: Memory, t: Tree, v: nat, pte: nat)
    requires IsTree(mem, t) && v < MAXPAGE && NodeAt(0, v) in t
    ensures var f := t[NodeAt(0, v)];
            && f in mem && |mem[f]| == 512
            && var now := Store(mem, f, Px(0, v), pte);
               IsTree(now, t) && forall w | 0 <= w < MAXPAGE ::
                 Lookup(now, t, w) == if w == v then pte else Lookup(mem, t, w)
  {
    var l := NodeAt(0, v);
    assert NodeOk(mem, t, l);
    var now := Store(mem, t[l], Px(0, v), pte);
    forall n | n in t
      ensures NodeOk(now, t, n)
    {
      assert NodeOk(mem, t, n);
    }
    forall n, i | n in t && !n.Low? && t[n] in now && |now[t[n]]| == 512 && 0 <= i < 512
      ensures EntryOk(now, t, n, i)
    {
      assert NodeOk(mem, t, n) && EntryOk(mem, t, n, i) && NodesApart(t, n, l);
    }
    forall w | 0 <= w < MAXPAGE
      ensures Lookup(now, t, w) == if w == v then pte else Lookup(mem, t, w)
    {
      var m := NodeAt(0, w);
      if m in t {
        assert NodeOk(mem, t, m);
        if t[m] == t[l] && Px(0, w) == Px(0, v) { SlotsDistinct(mem, t, v, w); }
      }
    }
  }
}
