/** The part of a page table below one of its pages, which `freewalk` of kernel/vm.c gives back. */
module FreeTree {
  import opened PageTable
  import opened Frames

  /** `m` is `n` or below it. */
  predicate Under(m: Node, n: Node) {
    n.Top? || m == n || (n.Mid? && m.Low? && m.i == n.i)
  }

  /** The entry of `n` that leads to `m`. */
  function Branch(m: Node, n: Node): nat
    requires Under(m, n) && m != n
  {
    if n.Top? then m.i else m.j
  }

  /** `m` is below one of the first `i` entries of `n`. */
  predicate Before(m: Node, n: Node, i: nat) {
    Under(m, n) && m != n && Branch(m, n) < i
  }

  function Height(n: Node): nat {
    if n.Top? then 2 else if n.Mid? then 1 else 0
  }

  lemma BeforeSplit(m: Node, n: Node, i: nat)
    ensures n.Low? ==> !Before(m, n, i + 1)
    ensures !n.Low? ==> (Before(m, n, i + 1) <==> Before(m, n, i) || Under(m, Child(n, i)))
    ensures !n.Low? ==> !(Before(m, n, i) && Under(m, Child(n, i)))
  {
  }

  /** A page that can be given back: not free, no valid entries at the lowest level. */
  ghost predicate Spare(mem: Memory, t: Tree, free: seq<nat>, m: Node)
    requires m in t
  {
    && NodeOk(mem, t, m) && t[m] !in free
    && (!m.Low? ==> forall i {:trigger EntryOk(mem, t, m, i)} | 0 <= i < 512 :: EntryOk(mem, t, m, i))
    && (m.Low? ==> forall i | 0 <= i < 512 :: !IsValid(mem[t[m]][i]))
  }

  /** Everything from `n` down can be given back. */
  ghost predicate SpareTree(mem: Memory, t: Tree, free: seq<nat>, n: Node) {
    true == (
      && n in t
      && (forall m {:trigger Spare(mem, t, free, m)} | m in t && Under(m, n) :: Spare(mem, t, free, m))
      && (forall m, k {:trigger NodesApart(t, m, k)} | m in t && k in t :: NodesApart(t, m, k)))
  }

  /** `f` is a page below one of the first `i` entries of `n`. */
  ghost predicate Gone(t: Tree, n: Node, i: nat, f: nat) {
    exists m {:trigger t[m]} :: m in t && Before(m, n, i) && t[m] == f
  }

  ghost predicate IsUnder(t: Tree, n: Node, f: nat) {
    exists m {:trigger t[m]} :: m in t && Under(m, n) && t[m] == f
  }

  /** The state of `freewalk` at page `n` before entry `i`. */
  ghost predicate Walking(was: Memory, now: Memory, t: Tree, n: Node, i: nat, from: seq<nat>, to: seq<nat>) {
    true == (
      && n in t && t[n] in was && t[n] in now && now.Keys == was.Keys && |now[t[n]]| == |was[t[n]]|
      && (forall k | i <= k < |was[t[n]]| :: now[t[n]][k] == was[t[n]][k])
      && (forall f {:trigger Gone(t, n, i, f)} :: f in to <==> f in from || Gone(t, n, i, f))
      && (forall f {:trigger f in was} | f in was && f != t[n] && !Gone(t, n, i, f) :: now[f] == was[f]))
  }

  ghost predicate Walked(was: Memory, now: Memory, t: Tree, n: Node, from: seq<nat>, to: seq<nat>) {
    true == (
      && now.Keys == was.Keys
      && (forall f {:trigger IsUnder(t, n, f)} :: f in to <==> f in from || IsUnder(t, n, f))
      && (forall f {:trigger f in was} | f in was && !IsUnder(t, n, f) :: now[f] == was[f]))
  }

  /** The subtree below entry `i` is still whole when `freewalk` gets there. */
  lemma ChildSpare(was: Memory, now: Memory, t: Tree, n: Node, i: nat, from: seq<nat>, to: seq<nat>)
    requires SpareTree(was, t, from, n) && Walking(was, now, t, n, i, from, to)
    requires !n.Low? && i < 512 && Child(n, i) in t
    ensures SpareTree(now, t, to, Child(n, i))
  {
    var c := Child(n, i);
    forall m | m in t && Under(m, c)
      ensures Spare(now, t, to, m)
    {
      assert Under(m, n) && Spare(was, t, from, m) && NodesApart(t, m, n);
      forall k | k in t && Before(k, n, i)
        ensures t[k] != t[m]
      {
        BeforeSplit(m, n, i);
        assert NodesApart(t, k, m);
      }
      assert !Gone(t, n, i, t[m]);
      assert m != n && now[t[m]] == was[t[m]];
      if !m.Low? {
        forall k | 0 <= k < 512
          ensures EntryOk(now, t, m, k)
        {
          assert EntryOk(was, t, m, k);
        }
      }
    }
  }

  lemma TableEntry(frame: nat)
    ensures IsValid(Entry(frame, 1)) && Entry(frame, 1) / 2 % 8 == 0 && FrameOf(Entry(frame, 1)) == frame
  {
  }

  /** What `freewalk` finds in entry `i`: the page below it, or nothing valid. */
  lemma EntryFound(was: Memory, now: Memory, t: Tree, n: Node, i: nat, from: seq<nat>, to: seq<nat>)
    requires SpareTree(was, t, from, n) && Walking(was, now, t, n, i, from, to) && i < 512
    ensures t[n] in now && |now[t[n]]| == 512
    ensures var pte := now[t[n]][i];
            && (IsValid(pte) <==> !n.Low? && Child(n, i) in t)
            && (IsValid(pte) ==> pte / 2 % 8 == 0 && FrameOf(pte) == t[Child(n, i)])
  {
    assert Spare(was, t, from, n);
    if !n.Low? {
      assert EntryOk(was, t, n, i);
      if Child(n, i) in t { TableEntry(t[Child(n, i)]); }
    }
  }

  /** An entry that leads nowhere is passed over. */
  lemma WalkingSkip(was: Memory, now: Memory, t: Tree, n: Node, i: nat, from: seq<nat>, to: seq<nat>)
    requires SpareTree(was, t, from, n) && Walking(was, now, t, n, i, from, to) && (n.Low? || Child(n, i) !in t)
    ensures Walking(was, now, t, n, i + 1, from, to)
  {
    forall m | m in t
      ensures Before(m, n, i + 1) <==> Before(m, n, i)
    {
      BeforeSplit(m, n, i);
      assert Under(m, n) ==> Spare(was, t, from, m);
    }
    forall f
      ensures Gone(t, n, i + 1, f) <==> Gone(t, n, i, f)
      ensures f in to <==> f in from || Gone(t, n, i + 1, f)
    {
      assert Gone(t, n, i, f) ==> f in to;
    }
  }

  /** A child that was given back. */
  lemma WalkingMore(was: Memory, m1: Memory, m2: Memory, t: Tree, n: Node, i: nat, from: seq<nat>, f1: seq<nat>,
                    f2: seq<nat>)
    requires SpareTree(was, t, from, n) && Walking(was, m1, t, n, i, from, f1)
    requires !n.Low? && i < 512 && Walked(m1, m2, t, Child(n, i), f1, f2)
    ensures t[n] in m2 && |m2[t[n]]| == 512 && t[n] !in f2 && Walking(was, Store(m2, t[n], i, 0), t, n, i + 1, from, f2)
  {
    var c := Child(n, i);
    assert Spare(was, t, from, n);
    forall f
      ensures Gone(t, n, i + 1, f) <==> Gone(t, n, i, f) || IsUnder(t, c, f)
      ensures f in f2 <==> f in from || Gone(t, n, i + 1, f)
    {
      forall m | m in t
        ensures Before(m, n, i + 1) <==> Before(m, n, i) || Under(m, c)
      {
        BeforeSplit(m, n, i);
      }
      assert Gone(t, n, i, f) ==> f in f1;
      assert IsUnder(t, c, f) ==> f in f2;
    }
    forall m | m in t && t[m] == t[n]
      ensures m == n
    {
      assert NodesApart(t, m, n);
    }
    assert !Under(n, c) && !Before(n, n, i);
    assert !IsUnder(t, c, t[n]) && !Gone(t, n, i, t[n]);
  }

  /** The page itself is not given back before its subtrees. */
  lemma SelfLast(was: Memory, now: Memory, t: Tree, n: Node, from: seq<nat>, to: seq<nat>)
    requires SpareTree(was, t, from, n) && Walking(was, now, t, n, 512, from, to)
    ensures t[n] !in to
  {
    assert Spare(was, t, from, n);
    forall m | m in t && t[m] == t[n]
      ensures m == n
    {
      assert NodesApart(t, m, n);
    }
    assert !Gone(t, n, 512, t[n]);
  }

  /** A page table that translates nothing can be given back whole. */
  lemma EmptyIsSpare(mem: Memory, t: Tree, free: seq<nat>)
    requires IsTree(mem, t) && (forall n | n in t :: t[n] !in free)
    requires forall w | 0 <= w < MAXPAGE :: !IsValid(Lookup(mem, t, w))
    ensures SpareTree(mem, t, free, Top)
  {
    forall m | m in t
      ensures Spare(mem, t, free, m)
    {
      assert NodeOk(mem, t, m);
      if m.Low? {
        forall k | 0 <= k < 512
          ensures !IsValid(mem[t[m]][k])
        {
          SlotPage(m.i, m.j, k);
          assert !IsValid(Lookup(mem, t, m.i * 262144 + m.j * 512 + k));
        }
      }
    }
  }

  /** Every slot of a lowest page is the slot of a page below MAXVA. */
  lemma SlotPage(i: nat, j: nat, k: nat)
    requires i < 256 && j < 512 && k < 512
    ensures var w := i * 262144 + j * 512 + k; w < MAXPAGE && NodeAt(0, w) == Low(i, j) && Px(0, w) == k
  {
    var w := i * 262144 + j * 512 + k;
    assert w % 512 == k && w / 512 == i * 512 + j;
    assert (i * 512 + j) % 512 == j && (i * 512 + j) / 512 == i;
    assert w / 262144 == i;
  }

  /** The page itself, last. */
  lemma WalkingEnd(was: Memory, m1: Memory, m2: Memory, t: Tree, n: Node, from: seq<nat>, f1: seq<nat>)
    requires SpareTree(was, t, from, n) && Walking(was, m1, t, n, 512, from, f1)
    requires m2.Keys == m1.Keys && forall f | f in m1 && f != t[n] :: m2[f] == m1[f]
    ensures Walked(was, m2, t, n, from, [t[n]] + f1)
  {
    forall f
      ensures IsUnder(t, n, f) <==> f == t[n] || Gone(t, n, 512, f)
    {
      forall m | m in t && Under(m, n) && m != n
        ensures Before(m, n, 512)
      {
        assert Spare(was, t, from, m);
      }
    }
  }
}
