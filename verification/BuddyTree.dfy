/** The tree that kernel/buddy.c encodes in its alloc and split bits and its free lists: what
    every step of `bd_malloc` and `bd_free` does to it, and the invariant every step keeps.

    Addresses are offsets from `bd_base`. A block is a size `k` and an index `i` at that size. */
module BuddyTree {
  import opened List

  // ---------------------------------------------------------------- geometry

  const LEAF_SIZE := 16

  function Pow2(k: nat): (r: nat)
    ensures r >= 1
  {
    if k == 0 then 1 else 2 * Pow2(k - 1)
  }

  function BlkSize(k: nat): (r: nat)
    ensures r >= LEAF_SIZE
  {
    LEAF_SIZE * Pow2(k)
  }

  datatype Blk = Blk(k: nat, i: nat)

  function Addr(b: Blk): nat {
    b.i * BlkSize(b.k)
  }

  /** The block of size `k` holding address `p`; its index is `blk_index(k, p)`. */
  function BlkAt(k: nat, p: nat): Blk {
    Blk(k, Quotient(p, BlkSize(k)))
  }

  function Quotient(p: nat, s: nat): nat
    requires s > 0
  {
    p / s
  }

  function Parent(b: Blk): Blk {
    Blk(b.k + 1, b.i / 2)
  }

  function Left(b: Blk): Blk
    requires b.k >= 1
  {
    Blk(b.k - 1, 2 * b.i)
  }

  function Right(b: Blk): Blk
    requires b.k >= 1
  {
    Blk(b.k - 1, 2 * b.i + 1)
  }

  function Buddy(b: Blk): Blk {
    Blk(b.k, if b.i % 2 == 0 then b.i + 1 else b.i - 1)
  }

  predicate Covers(b: Blk, x: nat) {
    Addr(b) <= x < Addr(b) + BlkSize(b.k)
  }

  ghost predicate Disjoint(b: Blk, c: Blk) {
    forall x: nat :: !(Covers(b, x) && Covers(c, x))
  }

  lemma MulMono(a: nat, b: nat, s: nat)
    requires a <= b
    ensures a * s <= b * s
  {
  }

  lemma QuotientIs(p: nat, s: nat, q: nat)
    requires s > 0 && q * s <= p < q * s + s
    ensures Quotient(p, s) == q
  {
    var d := p / s;
    assert p == d * s + p % s;
    if d < q {
      MulMono(d + 1, q, s);
    } else if d > q {
      MulMono(q + 1, d, s);
    }
  }

  lemma QuotientBounds(p: nat, s: nat)
    requires s > 0
    ensures Quotient(p, s) * s <= p < Quotient(p, s) * s + s
  {
    assert p == (p / s) * s + p % s;
  }

  lemma CoversAt(b: Blk, x: nat)
    ensures Covers(b, x) <==> BlkAt(b.k, x) == b
  {
    QuotientBounds(x, BlkSize(b.k));
    if Covers(b, x) {
      QuotientIs(x, BlkSize(b.k), b.i);
    }
  }

  lemma AtAddr(b: Blk)
    ensures BlkAt(b.k, Addr(b)) == b
  {
    CoversAt(b, Addr(b));
  }

  lemma HalveQuotient(p: nat, s: nat)
    requires s > 0
    ensures Quotient(p, 2 * s) == Quotient(p, s) / 2
  {
    QuotientBounds(p, s);
    var q := Quotient(p, s);
    var h, r := q / 2, q % 2;
    assert q * s == h * (2 * s) + r * s by {
      assert q == 2 * h + r;
    }
    assert r * s <= s;
    QuotientIs(p, 2 * s, h);
  }

  lemma ParentAt(k: nat, p: nat)
    ensures Parent(BlkAt(k, p)) == BlkAt(k + 1, p)
  {
    HalveQuotient(p, BlkSize(k));
  }

  lemma ChildAddr(b: Blk)
    requires b.k >= 1
    ensures BlkSize(b.k) == 2 * BlkSize(b.k - 1)
    ensures Addr(Left(b)) == Addr(b)
    ensures Addr(Right(b)) == Addr(b) + BlkSize(b.k - 1)
  {
    var s := BlkSize(b.k - 1);
    assert b.i * (2 * s) == (2 * b.i) * s;
    assert (2 * b.i + 1) * s == (2 * b.i) * s + s;
  }

  // ---------------------------------------------------------------- state and invariant

  /** `top` is MAXSIZE; `alloc` and `split` hold the blocks whose bit is set; `free[k]` lists
      the indices of the blocks on the free list of size `k`, head first. */
  datatype State = State(top: nat, alloc: set<Blk>, split: set<Blk>, free: seq<seq<nat>>)

  /** A block that exists at the moment: the root, or a child of a split block. */
  predicate InTree(top: nat, split: set<Blk>, b: Blk) {
    if b.k == top then b.i == 0 else b.k < top && Parent(b) in split
  }

  predicate OnList(s: State, b: Blk) {
    b.k < |s.free| && b.i in s.free[b.k]
  }

  /** Handed out, or holding metadata: allocated and not split any further. */
  function Live(s: State): set<Blk> {
    s.alloc - s.split
  }

  ghost predicate NoDup(l: seq<nat>) {
    forall i, j | 0 <= i < j < |l| :: l[i] != l[j]
  }

  ghost predicate TreeShape(s: State) {
    && s.top >= 1
    && |s.free| == s.top + 1
    && s.split <= s.alloc
    && (forall b {:trigger InTree(s.top, s.split, b)} | b in s.alloc :: InTree(s.top, s.split, b))
    && (forall b {:trigger b in s.split} | b in s.split :: b.k >= 1)
  }

  /** The first leaf holds allocator metadata, so every block above it stays split. */
  ghost predicate MetaKept(s: State) {
    && Blk(0, 0) in s.alloc
    && forall k | 1 <= k <= s.top :: SpineAt(s.split, k)
  }

  ghost predicate SpineAt(split: set<Blk>, k: nat) {
    Blk(k, 0) in split
  }

  /** Two buddies are never both free. */
  ghost predicate Coalesced(s: State) {
    forall b {:trigger HalfUsed(s.alloc, b)} | b in s.split && b.k >= 1 :: HalfUsed(s.alloc, b)
  }

  ghost predicate HalfUsed(alloc: set<Blk>, b: Blk)
    requires b.k >= 1
  {
    Left(b) in alloc || Right(b) in alloc
  }

  /** A block is on its free list exactly when it exists and its alloc bit is clear. */
  ghost predicate ListsAgree(s: State) {
    forall b: Blk {:trigger OnList(s, b)} :: OnList(s, b) <==> InTree(s.top, s.split, b) && b !in s.alloc
  }

  ghost predicate ListsDistinct(s: State) {
    forall k | 0 <= k < |s.free| :: NoDup(s.free[k])
  }

  ghost predicate Wf(s: State) {
    TreeShape(s) && MetaKept(s) && Coalesced(s) && ListsAgree(s) && ListsDistinct(s)
  }

  // ---------------------------------------------------------------- single steps

  /** Lines 141-142: pop the head of free list `k`. */
  function Pop(s: State, k: nat): State
    requires k < |s.free| && s.free[k] != []
  {
    s.(alloc := s.alloc + {Blk(k, s.free[k][0])}, free := s.free[k := s.free[k][1..]])
  }

  /** Lines 146-149: split `b`, keep its left half, free its right half. */
  function Split(s: State, b: Blk): State
    requires 1 <= b.k <= |s.free|
  {
    s.(split := s.split + {b},
       alloc := s.alloc + {Left(b)},
       free := s.free[b.k - 1 := [Right(b).i] + s.free[b.k - 1]])
  }

  /** Lines 178-190: `b` is given back and its buddy is free, so both become their parent. */
  function Merge(s: State, b: Blk): State
    requires b.k < |s.free|
  {
    s.(alloc := s.alloc - {b},
       free := s.free[b.k := Remove(s.free[b.k], Buddy(b).i)],
       split := s.split - {Parent(b)})
  }

  /** Lines 178 and 192: `b` is given back and its buddy is not free. */
  function Release(s: State, b: Blk): State
    requires b.k < |s.free|
  {
    s.(alloc := s.alloc - {b}, free := s.free[b.k := [b.i] + s.free[b.k]])
  }

  /** Setting more bits keeps what only asks for set bits. */
  lemma SetMoreBits(s: State, t: State)
    requires s.top == t.top && s.alloc <= t.alloc && s.split <= t.split
    requires MetaKept(s)
    ensures MetaKept(t)
    ensures forall b {:trigger InTree(t.top, t.split, b)} :: InTree(s.top, s.split, b) ==> InTree(t.top, t.split, b)
    ensures forall b: Blk {:trigger HalfUsed(t.alloc, b)} | b.k >= 1 :: HalfUsed(s.alloc, b) ==> HalfUsed(t.alloc, b)
  {
    forall k | 1 <= k <= t.top
      ensures SpineAt(t.split, k)
    {
      assert SpineAt(s.split, k);
    }
  }

  lemma PopStep(s: State, k: nat)
    requires Wf(s) && k <= s.top && s.free[k] != []
    ensures var b := Blk(k, s.free[k][0]);
            Wf(Pop(s, k)) && b !in Live(s) && Live(Pop(s, k)) == Live(s) + {b} && k < s.top
  {
    var b, t := Blk(k, s.free[k][0]), Pop(s, k);
    assert OnList(s, b);
    assert SpineAt(s.split, s.top);
    SetMoreBits(s, t);
    assert b !in s.split && Live(t) == Live(s) + {b};
    assert ListsAgree(t) by {
      forall c: Blk
        ensures OnList(t, c) <==> InTree(t.top, t.split, c) && c !in t.alloc
      {
        assert OnList(s, c) <==> InTree(s.top, s.split, c) && c !in s.alloc;
        PopList(s.free[k], c.i);
      }
    }
  }

  lemma PopList(l: seq<nat>, x: nat)
    requires NoDup(l) && l != []
    ensures NoDup(l[1..])
    ensures x in l[1..] <==> x in l && x != l[0]
  {
    if x in l && x != l[0] {
      var j :| 0 <= j < |l| && l[j] == x;
      assert l[1..][j - 1] == x;
    }
  }

  lemma SplitStep(s: State, b: Blk)
    requires Wf(s) && b in Live(s) && 1 <= b.k <= s.top
    ensures Wf(Split(s, b)) && Live(Split(s, b)) == Live(s) - {b} + {Left(b)}
    ensures Left(b) !in s.alloc && Right(b) !in s.alloc && Left(b) != Blk(0, 0)
  {
    var t := Split(s, b);
    SetMoreBits(s, t);
    assert InTree(s.top, s.split, b);
    assert Parent(Left(b)) == b && Parent(Right(b)) == b;
    assert !InTree(s.top, s.split, Left(b)) && !InTree(s.top, s.split, Right(b));
    assert Live(t) == Live(s) - {b} + {Left(b)} by {
      assert Left(b) !in s.split;
    }
    assert ListsAgree(t) by {
      forall c: Blk
        ensures OnList(t, c) <==> InTree(t.top, t.split, c) && c !in t.alloc
      {
        assert OnList(s, c) <==> InTree(s.top, s.split, c) && c !in s.alloc;
        assert Parent(c) == b ==> c == Left(b) || c == Right(b);
      }
    }
    assert ListsDistinct(t) by {
      assert !OnList(s, Right(b));
    }
  }

  lemma RemoveFrom(l: seq<nat>, x: nat)
    requires NoDup(l) && x in l
    ensures NoDup(Remove(l, x)) && |Remove(l, x)| == |l| - 1
    ensures forall y :: y in Remove(l, x) <==> y in l && y != x
  {
    var j :| 0 <= j < |l| && l[j] == x;
    RemoveAt(l, j);
    forall y | y in l && y != x
      ensures y in Remove(l, x)
    {
      var i :| 0 <= i < |l| && l[i] == y;
      assert Remove(l, x)[if i < j then i else i - 1] == y;
    }
  }

  lemma Siblings(b: Blk, c: Blk)
    ensures Parent(c) == Parent(b) <==> c == b || c == Buddy(b)
    ensures Parent(c) == b && b.k >= 1 <==> b.k >= 1 && (c == Left(b) || c == Right(b))
  {
  }

  lemma MergeStep(s: State, b: Blk)
    requires Wf(s) && b in Live(s) && b != Blk(0, 0) && b.k < s.top && Buddy(b) !in s.alloc
    ensures OnList(s, Buddy(b))
    ensures Wf(Merge(s, b)) && Live(Merge(s, b)) == Live(s) - {b} + {Parent(b)}
    ensures Parent(b) !in Live(s) && Parent(b) != Blk(0, 0)
  {
    var t, u, p := Merge(s, b), Buddy(b), Parent(b);
    assert Parent(u) == p;
    assert InTree(s.top, s.split, b) && InTree(s.top, s.split, u);
    assert OnList(s, u);
    RemoveFrom(s.free[b.k], u.i);
    MergeKeepsMeta(s, b);
    assert Live(t) == Live(s) - {b} + {p};
    assert TreeShape(t) by {
      forall c | c in t.alloc
        ensures InTree(t.top, t.split, c)
      {
        assert InTree(s.top, s.split, c);
        Siblings(b, c);
      }
    }
    assert Coalesced(t) by {
      forall c | c in t.split && c.k >= 1
        ensures HalfUsed(t.alloc, c)
      {
        assert HalfUsed(s.alloc, c);
        assert Parent(Left(c)) == c && Parent(Right(c)) == c;
      }
    }
    MergeLists(s, b);
  }

  lemma MergeKeepsMeta(s: State, b: Blk)
    requires Wf(s) && b in Live(s) && b != Blk(0, 0) && b.k < s.top && Buddy(b) !in s.alloc
    ensures Parent(b).i != 0 && MetaKept(Merge(s, b))
  {
    var t := Merge(s, b);
    if b.k > 0 {
      assert SpineAt(s.split, b.k);
    }
    assert b != Blk(0, 0);
    forall k | 1 <= k <= s.top
      ensures SpineAt(t.split, k)
    {
      assert SpineAt(s.split, k);
    }
  }

  lemma MergeLists(s: State, b: Blk)
    requires Wf(s) && b in Live(s) && b.k < s.top && OnList(s, Buddy(b))
    ensures ListsAgree(Merge(s, b)) && ListsDistinct(Merge(s, b))
  {
    var t, u := Merge(s, b), Buddy(b);
    RemoveFrom(s.free[b.k], u.i);
    forall c: Blk
      ensures OnList(t, c) <==> InTree(t.top, t.split, c) && c !in t.alloc
    {
      assert OnList(s, c) <==> InTree(s.top, s.split, c) && c !in s.alloc;
      assert OnList(t, c) <==> OnList(s, c) && c != u;
      assert InTree(s.top, s.split, b);
      Siblings(b, c);
    }
  }

  lemma ReleaseStep(s: State, b: Blk)
    requires Wf(s) && b in Live(s) && b != Blk(0, 0) && b.k < s.top && Buddy(b) in s.alloc
    ensures Wf(Release(s, b)) && Live(Release(s, b)) == Live(s) - {b}
  {
    var t := Release(s, b);
    assert InTree(s.top, s.split, b) && !OnList(s, b);
    assert MetaKept(t) by {
      forall k | 1 <= k <= s.top
        ensures SpineAt(t.split, k)
      {
        assert SpineAt(s.split, k);
      }
    }
    assert Coalesced(t) by {
      forall c | c in t.split && c.k >= 1
        ensures HalfUsed(t.alloc, c)
      {
        assert HalfUsed(s.alloc, c);
        assert Left(c) == b ==> Right(c) == Buddy(b);
        assert Right(c) == b ==> Left(c) == Buddy(b);
      }
    }
    assert ListsAgree(t) by {
      forall c: Blk
        ensures OnList(t, c) <==> InTree(t.top, t.split, c) && c !in t.alloc
      {
        assert OnList(s, c) <==> InTree(s.top, s.split, c) && c !in s.alloc;
      }
    }
  }
}
