/** The physical frames of kernel/kalloc.c: RAM, the free list that is chained through the first
    words of the free frames, and how page tables grow out of it. */
module Frames {
  import opened PageTable

  predicate Differ(s: seq<nat>, i: nat, j: nat)
    requires i < |s| && j < |s|
  {
    s[i] != s[j]
  }

  ghost predicate Distinct(s: seq<nat>) {
    forall i, j {:trigger Differ(s, i, j)} | 0 <= i < j < |s| :: Differ(s, i, j)
  }

  lemma DistinctHead(s: seq<nat>)
    requires Distinct(s) && s != []
    ensures Distinct(s[1..]) && s[0] !in s[1..]
  {
    var rest := s[1..];
    forall i, j | 0 <= i < j < |rest|
      ensures Differ(rest, i, j)
    {
      assert Differ(s, i + 1, j + 1);
    }
    forall i | 0 <= i < |rest|
      ensures rest[i] != s[0]
    {
      assert Differ(s, 0, i + 1);
    }
  }

  lemma DistinctPush(s: seq<nat>, x: nat)
    requires Distinct(s) && x !in s
    ensures Distinct([x] + s)
  {
    var all := [x] + s;
    forall i, j | 0 <= i < j < |all|
      ensures Differ(all, i, j)
    {
      if i > 0 { assert Differ(s, i - 1, j - 1); }
    }
  }

  /** `u` is `t` with pages added, all of them from `from`, and `left` is what `from` keeps. */
  ghost predicate Extends(t: Tree, u: Tree, from: seq<nat>, left: seq<nat>) {
    true == (
      && (forall n | n in t :: n in u && u[n] == t[n])
      && (forall n | n in u && n !in t :: u[n] in from && u[n] !in left)
      && (forall f | f in left :: f in from)
      && (forall f | f in from && f !in left :: f in u.Values && f !in t.Values))
  }

  /** Nothing changed outside a tree's pages and the free frames. */
  ghost predicate OnlyTree(was: Memory, now: Memory, t: Tree, free: seq<nat>) {
    true == (
      && now.Keys == was.Keys
      && forall f | f in was && f !in t.Values && f !in free :: now[f] == was[f])
  }

  predicate FrameOk(mem: Memory, lo: nat, hi: nat, f: nat) {
    (f in mem <==> lo <= f < hi) && (f in mem ==> |mem[f]| == 512)
  }

  /** RAM is the frames from `lo` up to `hi`. Frame 0 is not among them, so 0 is the null pointer. */
  ghost predicate IsRam(mem: Memory, lo: nat, hi: nat) {
    0 < lo <= hi && forall f {:trigger FrameOk(mem, lo, hi, f)} :: FrameOk(mem, lo, hi, f)
  }

  predicate LinkOk(mem: Memory, free: seq<nat>, i: nat)
    requires i < |free|
  {
    free[i] in mem && |mem[free[i]]| == 512 && mem[free[i]][0] == if i + 1 < |free| then free[i + 1] else 0
  }

  /** The free frames, chained through their first words. */
  ghost predicate IsFreeList(mem: Memory, freelist: nat, free: seq<nat>) {
    && Distinct(free) && freelist == (if free == [] then 0 else free[0])
    && (forall i {:trigger LinkOk(mem, free, i)} | 0 <= i < |free| :: LinkOk(mem, free, i))
  }

  ghost predicate AllocOk(mem: Memory, lo: nat, hi: nat, freelist: nat, free: seq<nat>) {
    true == (IsRam(mem, lo, hi) && IsFreeList(mem, freelist, free))
  }

  /** What `kfree` and `kalloc` fill a frame with, as words. */
  const FREED: nat := 0x0101_0101_0101_0101
  const TAKEN: nat := 0x0505_0505_0505_0505

  function Filled(x: nat): (r: Page)
    ensures |r| == 512
  {
    seq(512, _ => x)
  }

  lemma RamKept(mem: Memory, now: Memory, lo: nat, hi: nat, f: nat)
    requires IsRam(mem, lo, hi) && f in mem && now.Keys == mem.Keys && |now[f]| == 512
    requires forall g | g in mem && g != f :: now[g] == mem[g]
    ensures IsRam(now, lo, hi)
  {
    forall g
      ensures FrameOk(now, lo, hi, g)
    {
      assert FrameOk(mem, lo, hi, g);
    }
  }

  lemma PopFree(mem: Memory, lo: nat, hi: nat, freelist: nat, free: seq<nat>)
    requires AllocOk(mem, lo, hi, freelist, free)
    ensures freelist == 0 <==> free == []
    ensures free != [] ==>
              && freelist in mem && |mem[freelist]| == 512
              && forall p: Page | |p| == 512 :: AllocOk(mem[freelist := p], lo, hi, mem[freelist][0], free[1..])
  {
    if free != [] {
      DistinctHead(free);
      assert LinkOk(mem, free, 0) && FrameOk(mem, lo, hi, free[0]);
      forall p: Page | |p| == 512
        ensures AllocOk(mem[freelist := p], lo, hi, mem[freelist][0], free[1..])
      {
        var now, rest := mem[freelist := p], free[1..];
        RamKept(mem, now, lo, hi, freelist);
        forall i | 0 <= i < |rest|
          ensures LinkOk(now, rest, i)
        {
          assert LinkOk(mem, free, i + 1);
        }
      }
    }
  }

  lemma PushFree(mem: Memory, lo: nat, hi: nat, freelist: nat, free: seq<nat>, f: nat, p: Page)
    requires AllocOk(mem, lo, hi, freelist, free) && lo <= f < hi && f !in free && |p| == 512 && p[0] == freelist
    ensures f in mem && AllocOk(mem[f := p], lo, hi, f, [f] + free)
  {
    assert FrameOk(mem, lo, hi, f);
    var now, all := mem[f := p], [f] + free;
    DistinctPush(free, f);
    RamKept(mem, now, lo, hi, f);
    forall i | 0 <= i < |all|
      ensures LinkOk(now, all, i)
    {
      if i > 0 { assert LinkOk(mem, free, i - 1); }
    }
  }

  /** Frames that are not free can be rewritten. */
  lemma WriteUsed(mem: Memory, lo: nat, hi: nat, freelist: nat, free: seq<nat>, f: nat, p: Page)
    requires AllocOk(mem, lo, hi, freelist, free) && f in mem && f !in free && |p| == 512
    ensures AllocOk(mem[f := p], lo, hi, freelist, free)
  {
    var now := mem[f := p];
    RamKept(mem, now, lo, hi, f);
    forall i | 0 <= i < |free|
      ensures LinkOk(now, free, i)
    {
      assert LinkOk(mem, free, i);
    }
  }

  lemma GrownIs(was: Memory, now: Memory, t: Tree, n: Node, i: nat, f: nat)
    requires f in was && n in t && t[n] in was && i < |was[t[n]]| && t[n] != f
    requires now == Store(was[f := Filled(TAKEN)][f := Zeroes()], t[n], i, Entry(f, 1))
    ensures now == Grown(was, t, n, i, f)
  {
    assert was[f := Filled(TAKEN)][f := Zeroes()] == was[f := Zeroes()];
  }

  lemma ExtendOnce(t: Tree, n: Node, free: seq<nat>)
    requires Distinct(free) && free != [] && n !in t && forall m | m in t :: t[m] !in free
    ensures Extends(t, t[n := free[0]], free, free[1..])
  {
    var u := t[n := free[0]];
    DistinctHead(free);
    assert u[n] in u.Values;
  }

  /** A tree that grew, with nothing else touched. */
  ghost predicate Grew(was: Memory, now: Memory, t: Tree, u: Tree, from: seq<nat>, left: seq<nat>) {
    Extends(t, u, from, left) && OnlyTree(was, now, t, from)
  }

  lemma GrewTrans(m0: Memory, m1: Memory, m2: Memory, t: Tree, u: Tree, w: Tree, f0: seq<nat>, f1: seq<nat>,
                  f2: seq<nat>)
    requires Grew(m0, m1, t, u, f0, f1) && Grew(m1, m2, u, w, f1, f2)
    ensures Grew(m0, m2, t, w, f0, f2)
  {
    forall f | f in f0 && f !in f2
      ensures f in w.Values && f !in t.Values
    {
      if f !in f1 {
        var n :| n in u && u[n] == f;
        assert w[n] == f;
      }
    }
  }

  /** Frames that are set aside make no difference. */
  lemma GrewFramed(was: Memory, now: Memory, t: Tree, u: Tree, aside: seq<nat>, from: seq<nat>, left: seq<nat>)
    requires Grew(was, now, t, u, from, left) && forall f | f in aside :: f !in from
    ensures Grew(was, now, t, u, aside + from, aside + left)
  {
  }

  lemma DistinctSwap(a: seq<nat>, b: seq<nat>, c: seq<nat>)
    requires Distinct(a + b) && Distinct(c) && forall x | x in c :: x in b
    ensures Distinct(a + c)
  {
    var was, now := a + b, a + c;
    forall i, j | 0 <= i < j < |now|
      ensures Differ(now, i, j)
    {
      if j < |a| {
        assert Differ(was, i, j);
      } else if i < |a| {
        assert now[j] == c[j - |a|] && c[j - |a|] in b;
        var k :| 0 <= k < |b| && b[k] == now[j];
        assert Differ(was, i, |a| + k);
      } else {
        assert Differ(c, i - |a|, j - |a|);
      }
    }
  }

  lemma DistinctApart(a: seq<nat>, b: seq<nat>)
    requires Distinct(a + b)
    ensures forall f | f in a :: f !in b
  {
    forall i, j | 0 <= i < |a| && 0 <= j < |b|
      ensures a[i] != b[j]
    {
      assert Differ(a + b, i, |a| + j);
    }
  }
}
