/** The storage allocator of user/umalloc.c: `free`, `morecore` and `malloc` on a circular list of
    free blocks in address order.

    Addresses count headers (16 bytes), as the source's pointer arithmetic does. A block is its
    header and the units that follow, `n` units in all. Address 0 is the null pointer. */
module Umalloc {
  import opened Options

  datatype Blk = Blk(a: nat, n: nat)

  function Next(i: nat, len: nat): nat
    requires i < len
  {
    if i + 1 < len then i + 1 else 0
  }

  // ---------------------------------------------------------------- the free list as a sequence

  /** Block `i` ends below the next one, or touches it if `lo <= i < hi`. */
  ghost predicate StepUp(ring: seq<Blk>, i: nat, lo: nat, hi: nat) {
    i + 1 < |ring| ==>
      ring[i].a + ring[i].n < ring[i + 1].a || (lo <= i < hi && ring[i].a + ring[i].n == ring[i + 1].a)
  }

  ghost predicate Ordered(ring: seq<Blk>, lo: nat, hi: nat) {
    forall i: nat :: StepUp(ring, i, lo, hi)
  }

  /** Address order, and coalesced: no two blocks touch. */
  ghost predicate Sorted(ring: seq<Blk>) {
    Ordered(ring, 0, 0)
  }

  lemma {:induction false} SortedPair(ring: seq<Blk>, i: nat, j: nat)
    requires Sorted(ring) && i < j < |ring|
    ensures ring[i].a + ring[i].n < ring[j].a
    decreases j
  {
    assert StepUp(ring, j - 1, 0, 0);
    if i + 1 < j { SortedPair(ring, i, j - 1); }
  }

  predicate Apart(b: Blk, c: Blk) {
    b.a + b.n <= c.a || c.a + c.n <= b.a
  }

  ghost predicate ApartFromAll(b: Blk, ring: seq<Blk>) {
    forall i | 0 <= i < |ring| :: Apart(b, ring[i])
  }

  function Units(ring: seq<Blk>): nat {
    if ring == [] then 0 else Units(ring[..|ring| - 1]) + ring[|ring| - 1].n
  }

  /** The place of an address: the last block of the ring that starts below it. */
  ghost predicate IsPlace(ring: seq<Blk>, a: nat, j: nat) {
    && j < |ring|
    && ring[j].a < a
    && (j + 1 < |ring| ==> a < ring[j + 1].a)
  }

  lemma {:induction false} PlaceExists(ring: seq<Blk>, a: nat) returns (j: nat)
    requires ring != [] && Sorted(ring) && ring[0].a < a
    requires forall i | 0 <= i < |ring| :: ring[i].a != a
    ensures IsPlace(ring, a, j)
  {
    j := 0;
    while j + 1 < |ring| && ring[j + 1].a < a
      invariant j < |ring| && ring[j].a < a
    {
      j := j + 1;
    }
  }

  // ---------------------------------------------------------------- freeing

  function Put(ring: seq<Blk>, b: Blk, j: nat): seq<Blk>
    requires j < |ring|
  {
    ring[..j + 1] + [b] + ring[j + 1..]
  }

  predicate Touch(ring: seq<Blk>, i: nat) {
    i + 1 < |ring| && ring[i].a + ring[i].n == ring[i + 1].a
  }

  /** Block `i` swallows its upper neighbour if they touch. */
  function Join(ring: seq<Blk>, i: nat): seq<Blk> {
    if Touch(ring, i) then ring[..i] + [Blk(ring[i].a, ring[i].n + ring[i + 1].n)] + ring[i + 2..] else ring
  }

  /** Lines 33-37: put `b` after position `j` and join it with its upper neighbour. */
  function Upper(ring: seq<Blk>, b: Blk, j: nat): seq<Blk>
    requires j < |ring|
  {
    Join(Put(ring, b, j), j + 1)
  }

  /** Lines 33-42: and then with its lower neighbour. */
  function Insert(ring: seq<Blk>, b: Blk, j: nat): seq<Blk>
    requires j < |ring|
  {
    Join(Upper(ring, b, j), j)
  }

  lemma PutOrdered(ring: seq<Blk>, b: Blk, j: nat)
    requires Sorted(ring) && IsPlace(ring, b.a, j) && b.n > 0 && ApartFromAll(b, ring)
    ensures Ordered(Put(ring, b, j), j, j + 2)
  {
    assert Apart(b, ring[j]);
    if j + 1 < |ring| { assert Apart(b, ring[j + 1]); }
    var put, hi := Put(ring, b, j), j + 2;
    forall i: nat
      ensures StepUp(put, i, j, hi)
    {
      assert StepUp(ring, if i <= j then i else i - 1, 0, 0);
    }
  }

  lemma JoinOrdered(ring: seq<Blk>, lo: nat, i: nat)
    requires Ordered(ring, lo, i + 1) && lo <= i < |ring|
    ensures Ordered(Join(ring, i), lo, i)
  {
    forall k: nat
      ensures StepUp(Join(ring, i), k, lo, i)
    {
      var o := if Touch(ring, i) && k >= i then k + 1 else k;
      assert StepUp(ring, o, lo, i + 1);
      assert StepUp(ring, i, lo, i + 1);
    }
  }

  lemma JoinApart(ring: seq<Blk>, i: nat, c: Blk)
    requires ApartFromAll(c, ring) && c.n > 0
    ensures ApartFromAll(c, Join(ring, i))
  {
    if Touch(ring, i) {
      assert Apart(c, ring[i]) && Apart(c, ring[i + 1]);
    }
  }

  lemma {:induction false} UnitsAppend(lo: seq<Blk>, hi: seq<Blk>)
    ensures Units(lo + hi) == Units(lo) + Units(hi)
    decreases |hi|
  {
    if hi == [] {
      assert lo + hi == lo;
    } else {
      var last, all := |hi| - 1, lo + hi;
      assert all[..|all| - 1] == lo + hi[..last];
      UnitsAppend(lo, hi[..last]);
    }
  }

  lemma UnitsAround(lo: seq<Blk>, b: Blk, hi: seq<Blk>)
    ensures Units(lo + [b] + hi) == Units(lo) + b.n + Units(hi)
  {
    assert (lo + [b])[..|lo|] == lo;
    UnitsAppend(lo + [b], hi);
  }

  lemma JoinUnits(ring: seq<Blk>, i: nat)
    ensures Units(Join(ring, i)) == Units(ring)
  {
    if Touch(ring, i) {
      var lo, hi := ring[..i], ring[i + 2..];
      UnitsAround(lo, Blk(ring[i].a, ring[i].n + ring[i + 1].n), hi);
      assert ring == (lo + [ring[i]]) + [ring[i + 1]] + hi && lo + [ring[i]] + [] == lo + [ring[i]];
      UnitsAround(lo, ring[i], []);
      UnitsAround(lo + [ring[i]], ring[i + 1], hi);
    }
  }

  lemma InsertSorted(ring: seq<Blk>, b: Blk, j: nat)
    requires Sorted(ring) && IsPlace(ring, b.a, j) && b.n > 0 && ApartFromAll(b, ring)
    ensures Sorted(Insert(ring, b, j))
  {
    PutOrdered(ring, b, j);
    JoinOrdered(Put(ring, b, j), j, j + 1);
    JoinOrdered(Upper(ring, b, j), j, j);
    var r := Insert(ring, b, j);
    forall i: nat
      ensures StepUp(r, i, 0, 0)
    {
      assert StepUp(r, i, j, j);
    }
  }

  lemma {:induction false} PutUnits(ring: seq<Blk>, b: Blk, j: nat)
    requires j < |ring|
    ensures Units(Put(ring, b, j)) == Units(ring) + b.n
  {
    var last, now := |ring| - 1, Put(ring, b, j);
    if j < last {
      PutUnits(ring[..last], b, j);
      assert now[..|now| - 1] == Put(ring[..last], b, j);
    } else {
      assert now[..|now| - 1] == ring;
    }
  }

  lemma InsertUnits(ring: seq<Blk>, b: Blk, j: nat)
    requires j < |ring|
    ensures Units(Insert(ring, b, j)) == Units(ring) + b.n
  {
    PutUnits(ring, b, j);
    JoinUnits(Put(ring, b, j), j + 1);
    JoinUnits(Upper(ring, b, j), j);
  }

  /** A block clear of `b` and of the whole ring stays clear of the ring with `b` in it. */
  lemma InsertApart(ring: seq<Blk>, b: Blk, j: nat, c: Blk)
    requires j < |ring| && ApartFromAll(c, ring) && Apart(c, b) && c.n > 0
    ensures ApartFromAll(c, Insert(ring, b, j))
  {
    assert ApartFromAll(c, Put(ring, b, j));
    JoinApart(Put(ring, b, j), j + 1, c);
    JoinApart(Upper(ring, b, j), j, c);
  }

  // ---------------------------------------------------------------- allocating

  /** Lines 76-82: take `n` units from the end of block `i`. */
  function Take(ring: seq<Blk>, i: nat, n: nat): seq<Blk>
    requires i < |ring| && ring[i].n >= n
  {
    if ring[i].n == n then ring[..i] + ring[i + 1..]
    else ring[i := Blk(ring[i].a, ring[i].n - n)]
  }

  function Taken(ring: seq<Blk>, i: nat, n: nat): Blk
    requires i < |ring| && ring[i].n >= n
  {
    Blk(ring[i].a + ring[i].n - n, n)
  }

  lemma TakeSorted(ring: seq<Blk>, i: nat, n: nat)
    requires Sorted(ring) && i < |ring| && ring[i].n >= n
    ensures Sorted(Take(ring, i, n))
  {
    forall k: nat
      ensures StepUp(Take(ring, i, n), k, 0, 0)
    {
      var o := if ring[i].n == n && k >= i then k + 1 else k;
      assert StepUp(ring, k, 0, 0) && StepUp(ring, k + 1, 0, 0) && StepUp(ring, o, 0, 0);
    }
  }

  lemma {:induction false} TakeUnits(ring: seq<Blk>, i: nat, n: nat)
    requires i < |ring| && ring[i].n >= n
    ensures Units(Take(ring, i, n)) == Units(ring) - n
  {
    var last, now := |ring| - 1, Take(ring, i, n);
    if i < last {
      TakeUnits(ring[..last], i, n);
      assert now[..|now| - 1] == Take(ring[..last], i, n);
    } else if ring[i].n == n {
      assert now == ring[..last];
    } else {
      assert now[..last] == ring[..last];
    }
  }

  lemma TakeApart(ring: seq<Blk>, i: nat, n: nat, c: Blk)
    requires Sorted(ring) && i < |ring| && ring[i].n >= n > 0 && ApartFromAll(c, ring)
    ensures ApartFromAll(c, Take(ring, i, n)) && Apart(c, Taken(ring, i, n))
    ensures ApartFromAll(Taken(ring, i, n), Take(ring, i, n))
  {
    assert Apart(c, ring[i]);
    var t := Taken(ring, i, n);
    forall k | 0 <= k < |ring| && k != i
      ensures Apart(t, ring[k])
    {
      if k < i { SortedPair(ring, k, i); } else { SortedPair(ring, i, k); }
    }
  }

  // ---------------------------------------------------------------- the units on the free list

  predicate In(b: Blk, x: nat) {
    b.a <= x < b.a + b.n
  }

  /** The unit at `x` is free. */
  ghost predicate Covers(ring: seq<Blk>, x: nat) {
    exists i | 0 <= i < |ring| :: In(ring[i], x)
  }

  lemma CoversSplit(ring: seq<Blk>, i: nat, x: nat)
    requires i <= |ring|
    ensures Covers(ring, x) <==> Covers(ring[..i], x) || Covers(ring[i..], x)
  {
    if k :| 0 <= k < |ring| && In(ring[k], x) {
      assert if k < i then In(ring[..i][k], x) else In(ring[i..][k - i], x);
    }
  }

  lemma CoversOne(b: Blk, rest: seq<Blk>, x: nat)
    ensures Covers([b] + rest, x) <==> In(b, x) || Covers(rest, x)
  {
    var all := [b] + rest;
    assert all[0] == b && all[1..] == rest;
    CoversSplit(all, 1, x);
  }

  lemma CoversAround(lo: seq<Blk>, b: Blk, hi: seq<Blk>, x: nat)
    ensures Covers(lo + [b] + hi, x) <==> Covers(lo, x) || In(b, x) || Covers(hi, x)
  {
    var all := lo + [b] + hi;
    assert all[..|lo|] == lo && all[|lo|..] == [b] + hi;
    CoversSplit(all, |lo|, x);
    CoversOne(b, hi, x);
  }

  lemma JoinCovers(ring: seq<Blk>, i: nat, x: nat)
    ensures Covers(Join(ring, i), x) <==> Covers(ring, x)
  {
    if Touch(ring, i) {
      CoversAround(ring[..i], Blk(ring[i].a, ring[i].n + ring[i + 1].n), ring[i + 2..], x);
      assert ring[i..] == [ring[i]] + ring[i + 1..] && ring[i + 1..] == [ring[i + 1]] + ring[i + 2..];
      CoversSplit(ring, i, x);
      CoversOne(ring[i], ring[i + 1..], x);
      CoversOne(ring[i + 1], ring[i + 2..], x);
    }
  }

  /** Freeing a block makes its units free, and no others. */
  lemma InsertCovers(ring: seq<Blk>, b: Blk, j: nat, x: nat)
    requires j < |ring|
    ensures Covers(Insert(ring, b, j), x) <==> Covers(ring, x) || In(b, x)
  {
    CoversAround(ring[..j + 1], b, ring[j + 1..], x);
    CoversSplit(ring, j + 1, x);
    JoinCovers(Put(ring, b, j), j + 1, x);
    JoinCovers(Upper(ring, b, j), j, x);
  }

  /** The units given out were free, and all the others stay free. */
  lemma TakeCovers(ring: seq<Blk>, i: nat, n: nat, x: nat)
    requires i < |ring| && ring[i].n >= n
    ensures Covers(ring, x) <==> Covers(Take(ring, i, n), x) || In(Taken(ring, i, n), x)
  {
    assert ring == ring[..i] + [ring[i]] + ring[i + 1..];
    CoversAround(ring[..i], ring[i], ring[i + 1..], x);
    if ring[i].n == n {
      CoversSplit(Take(ring, i, n), i, x);
    } else {
      assert Take(ring, i, n) == ring[..i] + [Blk(ring[i].a, ring[i].n - n)] + ring[i + 1..];
      CoversAround(ring[..i], Blk(ring[i].a, ring[i].n - n), ring[i + 1..], x);
    }
  }

  // ---------------------------------------------------------------- the invariant

  ghost function LiveUnits(live: map<nat, nat>): nat {
    if live == map[] then 0
    else var a :| a in live; LiveUnits(live - {a}) + live[a]
  }

  lemma LiveUnitsAdd(live: map<nat, nat>, a: nat, n: nat)
    requires a !in live
    ensures LiveUnits(live[a := n]) == LiveUnits(live) + n
    decreases |live|
  {
    var all := live[a := n];
    assert a in all;
    var c :| c in all && LiveUnits(all) == LiveUnits(all - {c}) + all[c];
    if c == a {
      assert all - {c} == live;
    } else {
      assert all - {c} == (live - {c})[a := n];
      LiveUnitsAdd(live - {c}, a, n);
      assert live == (live - {c})[c := live[c]];
      LiveUnitsAdd(live - {c}, c, live[c]);
    }
  }

  lemma LiveUnitsRemove(live: map<nat, nat>, a: nat)
    requires a in live
    ensures LiveUnits(live - {a}) == LiveUnits(live) - live[a]
  {
    LiveUnitsAdd(live - {a}, a, live[a]);
    assert (live - {a})[a := live[a]] == live;
  }

  /** The ring and the blocks in use: every unit obtained from `sbrk` is in exactly one of them. */
  datatype Core = Core(base: nat, ring: seq<Blk>, live: map<nat, nat>, limit: nat, obtained: nat)

  ghost predicate LiveOk(c: Core, a: nat)
    requires a in c.live
  {
    c.base < a && c.live[a] > 0 && a + c.live[a] <= c.limit && ApartFromAll(Blk(a, c.live[a]), c.ring)
  }

  ghost predicate Inv(c: Core) {
    && c.base < c.limit && c.ring != [] && c.ring[0] == Blk(c.base, 0) && Sorted(c.ring)
    && (forall i | 0 <= i < |c.ring| :: (i > 0 ==> c.ring[i].n > 0) && c.ring[i].a + c.ring[i].n <= c.limit)
    && (forall a | a in c.live :: LiveOk(c, a))
    && (forall a, b | a in c.live && b in c.live && a != b :: Apart(Blk(a, c.live[a]), Blk(b, c.live[b])))
    && Units(c.ring) + LiveUnits(c.live) == c.obtained
  }

  function Freed(c: Core, a: nat, j: nat): Core
    requires a in c.live && j < |c.ring|
  {
    c.(ring := Insert(c.ring, Blk(a, c.live[a]), j), live := c.live - {a})
  }

  function Given(c: Core, i: nat, n: nat): Core
    requires i < |c.ring| && c.ring[i].n >= n
  {
    c.(ring := Take(c.ring, i, n), live := c.live[Taken(c.ring, i, n).a := n])
  }

  function Grown(c: Core, p: nat, n: nat): Core {
    c.(live := c.live[p := n], limit := p + n, obtained := c.obtained + n)
  }

  lemma InsertKeeps(c: Core, b: Blk, j: nat)
    requires Inv(c) && IsPlace(c.ring, b.a, j) && b.n > 0 && b.a + b.n <= c.limit && ApartFromAll(b, c.ring)
    ensures var r := Insert(c.ring, b, j);
            r != [] && r[0] == c.ring[0] &&
            forall i | 0 <= i < |r| :: (i > 0 ==> r[i].n > 0) && r[i].a + r[i].n <= c.limit
  {
    var put, mid := Put(c.ring, b, j), Upper(c.ring, b, j);
    assert InBounds(c.ring, c.limit) && InBounds(put, c.limit);
    JoinInBounds(put, j + 1, c.limit);
    JoinInBounds(mid, j, c.limit);
    assert mid[0] == c.ring[0] && mid[j + 1].a == b.a && mid[j].a == c.ring[j].a;
  }

  ghost predicate InBounds(ring: seq<Blk>, limit: nat) {
    forall i | 0 <= i < |ring| :: (i > 0 ==> ring[i].n > 0) && ring[i].a + ring[i].n <= limit
  }

  lemma JoinInBounds(ring: seq<Blk>, i: nat, limit: nat)
    requires InBounds(ring, limit)
    ensures InBounds(Join(ring, i), limit)
  {
    if Touch(ring, i) {
      var now := Join(ring, i);
      forall k | 0 <= k < |now|
        ensures (k > 0 ==> now[k].n > 0) && now[k].a + now[k].n <= limit
      {
        assert k < i ==> now[k] == ring[k];
        assert k > i ==> now[k] == ring[k + 1];
      }
    }
  }

  lemma InsertPlace(ring: seq<Blk>, b: Blk, j: nat)
    requires j < |ring|
    ensures j < |Insert(ring, b, j)| && Insert(ring, b, j)[j].a == ring[j].a
  {
    assert Upper(ring, b, j)[j] == ring[j];
  }

  lemma InsertBig(ring: seq<Blk>, b: Blk, j: nat)
    requires j < |ring|
    ensures HasRoom(Insert(ring, b, j), b.n)
  {
    var mid, r := Upper(ring, b, j), Insert(ring, b, j);
    assert mid[j + 1].n >= b.n;
    assert RoomAt(r, if Touch(mid, j) then j else j + 1, b.n);
  }

  predicate RoomAt(ring: seq<Blk>, i: nat, n: nat) {
    i < |ring| && ring[i].n >= n
  }

  ghost predicate HasRoom(ring: seq<Blk>, n: nat) {
    exists i {:trigger RoomAt(ring, i, n)} :: RoomAt(ring, i, n)
  }

  lemma LiveOffRing(c: Core, j: nat)
    requires Inv(c) && j < |c.ring|
    ensures c.ring[j].a !in c.live
  {
    if c.ring[j].a in c.live { LiveNotInRing(c, c.ring[j].a); }
  }

  lemma FreedInv(c: Core, a: nat, j: nat)
    requires Inv(c) && a in c.live && IsPlace(c.ring, a, j)
    ensures Inv(Freed(c, a, j))
  {
    var b, d := Blk(a, c.live[a]), Freed(c, a, j);
    assert LiveOk(c, a);
    InsertSorted(c.ring, b, j);
    InsertUnits(c.ring, b, j);
    LiveUnitsRemove(c.live, a);
    InsertKeeps(c, b, j);
    forall x | x in d.live
      ensures LiveOk(d, x)
    {
      assert LiveOk(c, x);
      InsertApart(c.ring, b, j, Blk(x, c.live[x]));
    }
  }

  lemma FreedCovers(c: Core, a: nat, j: nat)
    requires a in c.live && j < |c.ring|
    ensures forall x: nat :: Covers(Freed(c, a, j).ring, x) <==> Covers(c.ring, x) || In(Blk(a, c.live[a]), x)
  {
    forall x: nat
      ensures Covers(Freed(c, a, j).ring, x) <==> Covers(c.ring, x) || In(Blk(a, c.live[a]), x)
    {
      InsertCovers(c.ring, Blk(a, c.live[a]), j, x);
    }
  }

  lemma GivenApart(c: Core, i: nat, n: nat, x: nat)
    requires Inv(c) && 0 < i < |c.ring| && c.ring[i].n >= n > 0 && x in c.live
    ensures var t := Taken(c.ring, i, n);
            && x != t.a && Apart(Blk(x, c.live[x]), t) && Apart(t, Blk(x, c.live[x]))
            && LiveOk(Given(c, i, n), x)
  {
    assert LiveOk(c, x);
    TakeApart(c.ring, i, n, Blk(x, c.live[x]));
  }

  lemma TakenOk(c: Core, i: nat, n: nat)
    requires Inv(c) && 0 < i < |c.ring| && c.ring[i].n >= n > 0
    ensures LiveOk(Given(c, i, n), Taken(c.ring, i, n).a)
  {
    SortedPair(c.ring, 0, i);
    TakeApart(c.ring, i, n, Blk(c.limit, 1));
  }

  lemma GivenInv(c: Core, i: nat, n: nat)
    requires Inv(c) && 0 < i < |c.ring| && c.ring[i].n >= n > 0
    ensures Inv(Given(c, i, n)) && Taken(c.ring, i, n).a !in c.live
  {
    var t, d := Taken(c.ring, i, n), Given(c, i, n);
    TakeSorted(c.ring, i, n);
    TakeUnits(c.ring, i, n);
    forall x | x in c.live
      ensures x != t.a && Apart(Blk(x, c.live[x]), t) && Apart(t, Blk(x, c.live[x])) && LiveOk(d, x)
    {
      GivenApart(c, i, n, x);
    }
    TakenOk(c, i, n);
    LiveUnitsAdd(c.live, t.a, n);
  }

  lemma GrownInv(c: Core, p: nat, n: nat)
    requires Inv(c) && p >= c.limit && p > c.base && n > 0
    ensures Inv(Grown(c, p, n)) && p !in c.live
  {
    var d := Grown(c, p, n);
    forall x | x in c.live
      ensures x != p && LiveOk(d, x) && Apart(Blk(x, d.live[x]), Blk(p, n)) && Apart(Blk(p, n), Blk(x, d.live[x]))
    {
      assert LiveOk(c, x);
    }
    assert LiveOk(d, p);
    LiveUnitsAdd(c.live, p, n);
  }

  // ---------------------------------------------------------------- the list is determined by its units

  ghost predicate AllPositive(ring: seq<Blk>) {
    forall i | 0 <= i < |ring| :: ring[i].n > 0
  }

  lemma SortedTail(ring: seq<Blk>)
    requires ring != [] && Sorted(ring)
    ensures Sorted(ring[1..])
  {
    forall i: nat
      ensures StepUp(ring[1..], i, 0, 0)
    {
      assert StepUp(ring, i + 1, 0, 0);
    }
  }

  /** The first block is where the free units begin, and it ends where the first gap does. */
  lemma FirstBlock(ring: seq<Blk>, x: nat)
    requires ring != [] && Sorted(ring) && AllPositive(ring)
    ensures Covers(ring, ring[0].a) && !Covers(ring, ring[0].a + ring[0].n)
    ensures Covers(ring, x) ==> x >= ring[0].a
    ensures Covers(ring[1..], x) <==> Covers(ring, x) && !In(ring[0], x)
  {
    assert In(ring[0], ring[0].a);
    forall i | 0 < i < |ring|
      ensures ring[0].a + ring[0].n < ring[i].a
    {
      SortedPair(ring, 0, i);
    }
    assert ring == [ring[0]] + ring[1..];
    CoversOne(ring[0], ring[1..], x);
  }

  /** One coalesced list for each set of free units. */
  lemma {:induction false} SameUnitsSameList(r: seq<Blk>, q: seq<Blk>)
    requires Sorted(r) && AllPositive(r) && Sorted(q) && AllPositive(q)
    requires forall x: nat :: Covers(r, x) <==> Covers(q, x)
    ensures r == q
    decreases |r|
  {
    if r == [] {
      if q != [] { FirstBlock(q, 0); }
    } else {
      FirstBlock(r, 0);
      assert q != [];
      FirstBlock(q, r[0].a);
      FirstBlock(r, q[0].a);
      assert r[0].a == q[0].a;
      FirstBlock(q, r[0].a + r[0].n);
      FirstBlock(r, q[0].a + q[0].n);
      assert !In(q[0], r[0].a + r[0].n) && !In(r[0], q[0].a + q[0].n);
      assert r[0] == q[0];
      forall x: nat
        ensures Covers(r[1..], x) <==> Covers(q[1..], x)
      {
        FirstBlock(r, x);
        FirstBlock(q, x);
      }
      SortedTail(r);
      SortedTail(q);
      SameUnitsSameList(r[1..], q[1..]);
      assert r == [r[0]] + r[1..] && q == [q[0]] + q[1..];
    }
  }

  lemma SameUnitsSameRing(c: Core, d: Core)
    requires Inv(c) && Inv(d) && c.base == d.base && forall x: nat :: Covers(c.ring, x) <==> Covers(d.ring, x)
    ensures c.ring == d.ring
  {
    assert c.ring == [Blk(c.base, 0)] + c.ring[1..] && d.ring == [Blk(c.base, 0)] + d.ring[1..];
    forall x: nat
      ensures Covers(c.ring[1..], x) <==> Covers(d.ring[1..], x)
    {
      CoversOne(Blk(c.base, 0), c.ring[1..], x);
      CoversOne(Blk(c.base, 0), d.ring[1..], x);
    }
    SortedTail(c.ring);
    SortedTail(d.ring);
    SameUnitsSameList(c.ring[1..], d.ring[1..]);
  }

  /** A block that is freed right after it was given out leaves everything as it was. */
  lemma FreeUndoesGive(c: Core, i: nat, n: nat, j: nat)
    requires Inv(c) && 0 < i < |c.ring| && c.ring[i].n >= n > 0
    requires IsPlace(Given(c, i, n).ring, Taken(c.ring, i, n).a, j)
    ensures Freed(Given(c, i, n), Taken(c.ring, i, n).a, j) == c
  {
    var d, t := Given(c, i, n), Taken(c.ring, i, n);
    GivenInv(c, i, n);
    FreedInv(d, t.a, j);
    var e := Freed(d, t.a, j);
    forall x: nat
      ensures Covers(e.ring, x) <==> Covers(c.ring, x)
    {
      InsertCovers(d.ring, t, j, x);
      TakeCovers(c.ring, i, n, x);
    }
    SameUnitsSameRing(e, c);
    assert e.live == c.live;
  }

  // ---------------------------------------------------------------- headers in memory

  ghost predicate LinkAt(ring: seq<Blk>, ptr: map<nat, nat>, size: map<nat, nat>, i: nat) {
    i < |ring| ==>
      && ring[i].a in ptr && ptr[ring[i].a] == ring[Next(i, |ring|)].a
      && ring[i].a in size && size[ring[i].a] == ring[i].n
  }

  /** The `s.ptr` and `s.size` fields chain the ring into a cycle. */
  ghost predicate Linked(ring: seq<Blk>, ptr: map<nat, nat>, size: map<nat, nat>) {
    forall i: nat :: LinkAt(ring, ptr, size, i)
  }

  ghost predicate LinkedBut(ring: seq<Blk>, ptr: map<nat, nat>, size: map<nat, nat>, j: nat) {
    forall i: nat | i != j :: LinkAt(ring, ptr, size, i)
  }

  lemma SortedInj(ring: seq<Blk>)
    requires Sorted(ring)
    ensures forall i, j | 0 <= i < |ring| && 0 <= j < |ring| && ring[i].a == ring[j].a :: i == j
  {
    forall i, j | 0 <= i < j < |ring|
      ensures ring[i].a != ring[j].a
    {
      SortedPair(ring, i, j);
    }
  }

  /** Lines 33-37: `b` is linked to what follows it; position `j` still points past it. */
  lemma LinkUpper(ring: seq<Blk>, ptr: map<nat, nat>, size: map<nat, nat>, b: Blk, j: nat, i: nat)
    requires Sorted(ring) && Linked(ring, ptr, size) && IsPlace(ring, b.a, j) && i != j
    requires forall k | 0 <= k < |ring| :: ring[k].a != b.a
    ensures var r := Upper(ring, b, j);
            var n := Next(j, |ring|);
            if Touch(Put(ring, b, j), j + 1)
            then LinkAt(r, ptr[b.a := ring[Next(n, |ring|)].a], size[b.a := b.n + ring[n].n], i)
            else LinkAt(r, ptr[b.a := ring[n].a], size[b.a := b.n], i)
  {
    var o := if i <= j + 1 then j + 1 else if Touch(Put(ring, b, j), j + 1) then i else i - 1;
    assert LinkAt(ring, ptr, size, i) && LinkAt(ring, ptr, size, o) && LinkAt(ring, ptr, size, j);
    SortedInj(ring);
  }

  lemma UpperLinked(ring: seq<Blk>, ptr: map<nat, nat>, size: map<nat, nat>, b: Blk, j: nat,
                    ptr': map<nat, nat>, size': map<nat, nat>)
    requires Sorted(ring) && Linked(ring, ptr, size) && IsPlace(ring, b.a, j)
    requires forall k | 0 <= k < |ring| :: ring[k].a != b.a
    requires var n := Next(j, |ring|);
             if b.a + b.n == ring[n].a
             then ptr' == ptr[b.a := ring[Next(n, |ring|)].a] && size' == size[b.a := b.n + ring[n].n]
             else ptr' == ptr[b.a := ring[n].a] && size' == size[b.a := b.n]
    requires ring[0].a < b.a
    ensures LinkedBut(Upper(ring, b, j), ptr', size', j)
  {
    var r := Upper(ring, b, j);
    assert Touch(Put(ring, b, j), j + 1) <==> b.a + b.n == ring[Next(j, |ring|)].a;
    forall i: nat | i != j
      ensures LinkAt(r, ptr', size', i)
    {
      LinkUpper(ring, ptr, size, b, j, i);
    }
  }

  lemma UpperInj(ring: seq<Blk>, b: Blk, j: nat)
    requires Sorted(ring) && j < |ring| && forall k | 0 <= k < |ring| :: ring[k].a != b.a
    ensures var r := Upper(ring, b, j);
            forall k, l | 0 <= k < |r| && 0 <= l < |r| && r[k].a == r[l].a :: k == l
  {
    SortedInj(ring);
    var r := Upper(ring, b, j);
    var d := if Touch(Put(ring, b, j), j + 1) then 0 else 1;
    assert forall k | j + 1 < k < |r| :: r[k] == ring[k - d];
  }

  /** Lines 38-42: position `j` is joined with `b`, or linked to it. */
  lemma LinkLower(ring: seq<Blk>, ptr: map<nat, nat>, size: map<nat, nat>, j: nat, i: nat)
    requires j + 1 < |ring|
    requires LinkedBut(ring, ptr, size, j)
    requires forall k, l | 0 <= k < |ring| && 0 <= l < |ring| && ring[k].a == ring[l].a :: k == l
    requires ring[j].a in size && size[ring[j].a] == ring[j].n
    ensures var p, b := ring[j].a, ring[j + 1].a;
            && b in ptr && b in size
            && (if Touch(ring, j)
                then LinkAt(Join(ring, j), ptr[p := ptr[b]], size[p := size[p] + size[b]], i)
                else LinkAt(Join(ring, j), ptr[p := b], size, i))
  {
    assert LinkAt(ring, ptr, size, j + 1);
    if Touch(ring, j) {
      LinkJoined(ring, ptr, size, j, i);
    } else if i != j {
      assert LinkAt(ring, ptr, size, i);
    }
  }

  lemma LinkJoined(ring: seq<Blk>, ptr: map<nat, nat>, size: map<nat, nat>, j: nat, i: nat)
    requires Touch(ring, j) && LinkedBut(ring, ptr, size, j) && LinkAt(ring, ptr, size, j + 1)
    requires forall k, l | 0 <= k < |ring| && 0 <= l < |ring| && ring[k].a == ring[l].a :: k == l
    requires ring[j].a in size && size[ring[j].a] == ring[j].n
    ensures var p, b := ring[j].a, ring[j + 1].a;
            LinkAt(Join(ring, j), ptr[p := ptr[b]], size[p := size[p] + size[b]], i)
  {
    if i != j { assert LinkAt(ring, ptr, size, if i > j then i + 1 else i); }
  }

  lemma LinkTake(ring: seq<Blk>, ptr: map<nat, nat>, size: map<nat, nat>, i: nat, n: nat, k: nat)
    requires Sorted(ring) && Linked(ring, ptr, size) && 0 < i < |ring| && ring[i].n >= n > 0
    ensures var p, t := ring[i].a, Taken(ring, i, n).a;
            if ring[i].n == n
            then LinkAt(Take(ring, i, n), ptr[ring[i - 1].a := ring[Next(i, |ring|)].a], size, k)
            else LinkAt(Take(ring, i, n), ptr, size[p := ring[i].n - n][t := n], k)
  {
    var o := if ring[i].n == n && k >= i then k + 1 else k;
    assert LinkAt(ring, ptr, size, k) && LinkAt(ring, ptr, size, o) && LinkAt(ring, ptr, size, i);
    SortedInj(ring);
    forall x | 0 <= x < |ring| && ring[i].n > n
      ensures ring[x].a != Taken(ring, i, n).a
    {
      if x > i { SortedPair(ring, i, x); } else if x < i { SortedPair(ring, x, i); }
    }
  }

  lemma LiveNotInRing(c: Core, a: nat)
    requires Inv(c) && a in c.live
    ensures forall i | 0 <= i < |c.ring| :: c.ring[i].a != a
  {
    assert LiveOk(c, a);
    forall i | 0 <= i < |c.ring|
      ensures c.ring[i].a != a
    {
      assert Apart(Blk(a, c.live[a]), c.ring[i]);
    }
  }

  /** The scan of `free` stops exactly at the place of the block. */
  lemma StopsAtPlace(ring: seq<Blk>, a: nat, j: nat, i: nat)
    requires Sorted(ring) && IsPlace(ring, a, j) && i < |ring| && ring[0].a < a
    requires forall k | 0 <= k < |ring| :: ring[k].a != a
    ensures var p, q := ring[i].a, ring[Next(i, |ring|)].a;
            (p < a < q) || (p >= q && (a > p || a < q)) <==> i == j
  {
    if i < j { SortedPair(ring, i, j); }
    if i > j { SortedPair(ring, j, i); if i > j + 1 { SortedPair(ring, j + 1, i); } }
    if i + 1 < |ring| { SortedPair(ring, i, i + 1); } else if i > 0 { SortedPair(ring, 0, i); }
    if i + 1 < j { SortedPair(ring, i + 1, j); }
  }

  function NUnits(nbytes: nat): (r: nat)
    ensures nbytes <= 16 * (r - 1) < nbytes + 16
  {
    (nbytes + 15) / 16 + 1
  }

  function Chunk(units: nat): (r: nat)
    ensures r >= units && r >= 4096 && (r == units || r == 4096)
  {
    if units < 4096 then 4096 else units
  }

  function Wrap(x: nat, len: nat): nat {
    if x < len then x else x - len
  }

  /** The `d` blocks after position `f`, going round, are all too small. */
  ghost predicate AllSmall(ring: seq<Blk>, f: nat, d: nat, n: nat)
    requires f < |ring| && d <= |ring|
  {
    forall e: nat | e < d :: SmallAt(ring, f, e, n)
  }

  ghost predicate SmallAt(ring: seq<Blk>, f: nat, e: nat, n: nat)
    requires f < |ring| && e < |ring|
  {
    ring[Wrap(f + 1 + e, |ring|)].n < n
  }

  lemma AllSmallEnd(ring: seq<Blk>, f: nat, n: nat)
    requires f < |ring| && AllSmall(ring, f, |ring|, n)
    ensures !HasRoom(ring, n)
  {
    forall i: nat
      ensures !RoomAt(ring, i, n)
    {
      var e := if i > f then i - f - 1 else i + |ring| - f - 1;
      if i < |ring| { assert SmallAt(ring, f, e, n); }
    }
  }

  lemma GrownThenFreed(c: Core, hp: nat, nu: nat, j: nat, units: nat)
    requires hp !in c.live && j < |c.ring| && units <= nu
    ensures var d := Freed(Grown(c, hp, nu), hp, j);
            d.live == c.live && d.obtained == c.obtained + nu && HasRoom(d.ring, units)
  {
    InsertBig(c.ring, Blk(hp, nu), j);
    var r := Insert(c.ring, Blk(hp, nu), j);
    var i :| RoomAt(r, i, nu);
    assert RoomAt(r, i, units);
    assert c.live[hp := nu] - {hp} == c.live;
  }

  lemma StartInv(base: nat)
    requires base > 0
    ensures Inv(Core(base, [Blk(base, 0)], map[], base + 1, 0))
  {
    var r: seq<Blk>, live: map<nat, nat> := [Blk(base, 0)], map[];
    assert Units(r) == 0 by { assert r[..0] == []; }
    assert LiveUnits(live) == 0;
    assert Sorted(r);
  }

  lemma StartRoom(base: nat, n: nat)
    requires n > 0
    ensures !HasRoom([Blk(base, 0)], n) && !HasRoom([], n)
  {
  }

  /** `now` is `was` with the memory at `hp` added to the list, and `from` the block below it. */
  ghost predicate Extended(was: Core, now: Core, hp: nat, nu: nat, from: nat) {
    exists j: nat :: IsPlace(was.ring, hp, j) && now == Freed(Grown(was, hp, nu), hp, j) && from == was.ring[j].a
  }

  lemma ExtendedCovers(was: Core, now: Core, hp: nat, nu: nat, from: nat, x: nat)
    requires Extended(was, now, hp, nu, from)
    ensures Covers(now.ring, x) <==> Covers(was.ring, x) || In(Blk(hp, nu), x)
  {
    var j: nat :| IsPlace(was.ring, hp, j) && now == Freed(Grown(was, hp, nu), hp, j) && from == was.ring[j].a;
    InsertCovers(was.ring, Blk(hp, nu), j, x);
  }

  /** Nothing is given out yet; the heap has grown only if nothing fitted before, and then something fits. */
  ghost predicate Searching(was: Core, start: nat, now: Core, from: nat, sbrk: Option<nat>, n: nat, grew: bool) {
    true == (
      && now.live == was.live && now.obtained == was.obtained + (if grew then Chunk(n) else 0)
      && (grew ==> sbrk.Some? && !HasRoom(was.ring, n) && HasRoom(now.ring, n))
      && (grew ==> Extended(was, now, sbrk.value, Chunk(n), from))
      && (!grew ==> now == was && from == start))
  }

  /** Where a search found its block: it started after block `f` of `mid`, at address `from`, and
      passed `d` blocks. */
  datatype Fit = Fit(mid: Core, from: nat, f: nat, d: nat)

  /** The first block that is large enough, going round, gave its last `n` units to the caller, and
      the next search starts from the block before it. */
  ghost predicate FirstFit(t: Fit, now: Core, freep: nat, n: nat, ap: nat) {
    && t.f < |t.mid.ring| && t.d < |t.mid.ring| && t.mid.ring[t.f].a == t.from && AllSmall(t.mid.ring, t.f, t.d, n)
    && ap > 0 && freep == t.mid.ring[Wrap(t.f + t.d, |t.mid.ring|)].a
    && var k := Wrap(t.f + 1 + t.d, |t.mid.ring|);
       t.mid.ring[k].n >= n && now == Given(t.mid, k, n) && ap - 1 + n == t.mid.ring[k].a + t.mid.ring[k].n
  }

  /** The list that was searched: the old one, or that with the new memory in it. */
  ghost predicate SearchedList(was: Core, start: nat, t: Fit, sbrk: Option<nat>, n: nat, grew: bool) {
    if grew then sbrk.Some? && Extended(was, t.mid, sbrk.value, Chunk(n), t.from) else t.mid == was && t.from == start
  }

  /** The free units after a search, with those given out, are those before it, with the new ones. */
  lemma SearchCovers(was: Core, start: nat, t: Fit, sbrk: Option<nat>, n: nat, grew: bool, now: Core, freep: nat,
                     ap: nat, x: nat)
    requires SearchedList(was, start, t, sbrk, n, grew) && FirstFit(t, now, freep, n, ap)
    ensures Covers(now.ring, x) || In(Blk(ap - 1, n), x) <==>
            Covers(was.ring, x) || (grew && In(Blk(sbrk.value, Chunk(n)), x))
  {
    TakeCovers(t.mid.ring, Wrap(t.f + 1 + t.d, |t.mid.ring|), n, x);
    if grew { ExtendedCovers(was, t.mid, sbrk.value, Chunk(n), t.from, x); }
  }

  /** Lines 70-73: the list a first call sets up. */
  function Started(c: Core): Core {
    if c.ring == [] then c.(ring := [Blk(c.base, 0)]) else c
  }

  class Allocator {
    const base: nat
    var ptr: map<nat, nat>
    var size: map<nat, nat>
    var freep: nat
    ghost var c: Core

    ghost predicate SizesHold()
      reads this
    {
      forall a | a in c.live :: a in size && size[a] == c.live[a]
    }

    ghost predicate OnRing(p: nat)
      reads this
    {
      exists f | 0 <= f < |c.ring| :: c.ring[f].a == p
    }

    ghost predicate Valid()
      reads this
    {
      && base > 0 && c.base == base
      && (freep == 0 ==> c == Core(base, [], map[], base + 1, 0))
      && (freep != 0 ==> Inv(c) && Linked(c.ring, ptr, size) && SizesHold() && OnRing(freep))
    }

    /** The static `base` and a null `freep`; the program break lies above. */
    constructor (b: nat)
      requires b > 0
      ensures Valid() && freep == 0 && c.limit == b + 1
    {
      base := b;
      ptr, size, freep := map[], map[], 0;
      c := Core(b, [], map[], b + 1, 0);
    }

    /** `j` is where in address order the block went. */
    method Free(ap: nat) returns (ghost j: nat)
      requires Valid() && freep != 0 && ap >= 1 && ap - 1 in c.live
      modifies this
      ensures Valid() && freep != 0
      ensures IsPlace(old(c).ring, ap - 1, j) && c == Freed(old(c), ap - 1, j) && freep == old(c).ring[j].a
      ensures forall x: nat :: Covers(c.ring, x) <==> Covers(old(c).ring, x) || In(Blk(ap - 1, old(c).live[ap - 1]), x)
    {
      var bp := ap - 1;
      LiveNotInRing(c, bp);
      assert LiveOk(c, bp);
      j := PlaceExists(c.ring, bp);
      ghost var i: nat :| i < |c.ring| && c.ring[i].a == freep;
      var p := freep;
      assert LinkAt(c.ring, ptr, size, i);
      while !(bp > p && bp < ptr[p])
        invariant i < |c.ring| && c.ring[i].a == p && LinkAt(c.ring, ptr, size, i)
        modifies {}
        decreases if i <= j then j - i else |c.ring| - i + j
      {
        StopsAtPlace(c.ring, bp, j, i);
        if p >= ptr[p] && (bp > p || bp < ptr[p]) { break; }
        p := ptr[p];
        i := Next(i, |c.ring|);
        assert LinkAt(c.ring, ptr, size, i);
      }
      StopsAtPlace(c.ring, bp, j, i);
      FreedCovers(c, bp, j);
      JoinIn(bp, p, j);
    }

    /** Lines 33-43. */
    method JoinIn(bp: nat, p: nat, ghost j: nat)
      requires Valid() && freep != 0 && bp in c.live && IsPlace(c.ring, bp, j) && p == c.ring[j].a
      modifies this
      ensures Valid() && freep == p && p != 0 && c == Freed(old(c), bp, j)
    {
      ghost var b, d := Blk(bp, c.live[bp]), Freed(c, bp, j);
      LiveNotInRing(c, bp);
      LiveOffRing(c, j);
      if j > 0 { SortedPair(c.ring, 0, j); }
      InsertPlace(c.ring, b, j);
      FreedInv(c, bp, j);
      assert LiveOk(c, bp) && LinkAt(c.ring, ptr, size, j);
      LinkUp(bp, p, c.ring, b, j);
      LinkDown(bp, p, c.ring, b, j);
      freep := p;
      c := d;
    }

    /** Lines 33-37. */
    method LinkUp(bp: nat, p: nat, ghost ring: seq<Blk>, ghost b: Blk, ghost j: nat)
      requires Sorted(ring) && Linked(ring, ptr, size) && IsPlace(ring, b.a, j) && bp == b.a && p == ring[j].a
      requires ring[0].a < b.a && forall k | 0 <= k < |ring| :: ring[k].a != b.a
      requires bp in size && size[bp] == b.n
      modifies this`ptr, this`size
      ensures LinkedBut(Upper(ring, b, j), ptr, size, j)
      ensures size.Keys == old(size).Keys && forall a | a in size && a != bp :: size[a] == old(size)[a]
    {
      ghost var ptr0, size0, n := ptr, size, Next(j, |ring|);
      assert LinkAt(ring, ptr, size, j) && LinkAt(ring, ptr, size, n);
      if bp + size[bp] == ptr[p] {
        var q := ptr[p];
        size := size[bp := size[bp] + size[q]];
        ptr := ptr[bp := ptr[q]];
      } else {
        ptr := ptr[bp := ptr[p]];
        assert size0[bp := b.n] == size;
      }
      UpperLinked(ring, ptr0, size0, b, j, ptr, size);
    }

    /** Lines 38-42. */
    method LinkDown(bp: nat, p: nat, ghost ring: seq<Blk>, ghost b: Blk, ghost j: nat)
      requires Sorted(ring) && IsPlace(ring, b.a, j) && bp == b.a && p == ring[j].a
      requires b.n > 0 && ApartFromAll(b, ring) && forall k | 0 <= k < |ring| :: ring[k].a != b.a
      requires LinkedBut(Upper(ring, b, j), ptr, size, j)
      requires p in size && size[p] == ring[j].n
      modifies this`ptr, this`size
      ensures Linked(Insert(ring, b, j), ptr, size)
      ensures size.Keys == old(size).Keys && forall a | a in size && a != p :: size[a] == old(size)[a]
    {
      ghost var mid := Upper(ring, b, j);
      ghost var ptr0, size0, r := ptr, size, Insert(ring, b, j);
      assert mid[j] == ring[j] && mid[j + 1].a == bp;
      UpperInj(ring, b, j);
      assert LinkAt(mid, ptr, size, j + 1);
      if p + size[p] == bp {
        size := size[p := size[p] + size[bp]];
        ptr := ptr[p := ptr[bp]];
      } else {
        ptr := ptr[p := bp];
      }
      forall i: nat
        ensures LinkAt(r, ptr, size, i)
      {
        LinkLower(mid, ptr0, size0, j, i);
      }
    }

    ghost function IndexOf(p: nat): (f: nat)
      requires OnRing(p)
      reads this
      ensures f < |c.ring| && c.ring[f].a == p
    {
      var f :| 0 <= f < |c.ring| && c.ring[f].a == p;
      f
    }

    /** Lines 76-84: take `n` units from the block at `p`. */
    method Carve(prevp: nat, p: nat, n: nat, ghost i: nat) returns (ap: nat)
      requires Valid() && freep != 0 && n > 0
      requires 0 < i < |c.ring| && c.ring[i].a == p && c.ring[i - 1].a == prevp && c.ring[i].n >= n
      modifies this
      ensures Valid() && freep == prevp && freep != 0
      ensures c == Given(old(c), i, n) && ap == Taken(old(c).ring, i, n).a + 1
      ensures ap - 1 !in old(c).live
    {
      GivenInv(c, i, n);
      LiveOffRing(c, i);
      if i > 1 { SortedPair(c.ring, 0, i - 1); }
      var q := Cut(prevp, p, n, i);
      freep := prevp;
      c := Given(c, i, n);
      assert c.ring[i - 1].a == prevp;
      ap := q + 1;
    }

    /** Lines 76-82. */
    method Cut(prevp: nat, p: nat, n: nat, ghost i: nat) returns (q: nat)
      requires Sorted(c.ring) && Linked(c.ring, ptr, size) && n > 0
      requires 0 < i < |c.ring| && c.ring[i].a == p && c.ring[i - 1].a == prevp && c.ring[i].n >= n
      modifies this`ptr, this`size
      ensures Linked(Take(c.ring, i, n), ptr, size) && q == Taken(c.ring, i, n).a
      ensures q in size && size[q] == n
      ensures forall a | a in old(size) && a != p && a != q :: a in size && size[a] == old(size)[a]
    {
      ghost var ptr0, size0, r := ptr, size, Take(c.ring, i, n);
      assert LinkAt(c.ring, ptr, size, i);
      q := p;
      if size[q] == n {
        ptr := ptr[prevp := ptr[q]];
      } else {
        size := size[q := size[q] - n];
        q := q + size[q];
        size := size[q := n];
      }
      forall k: nat
        ensures LinkAt(r, ptr, size, k)
      {
        LinkTake(c.ring, ptr0, size0, i, n, k);
      }
    }

    /** `sbrk` is what the kernel would answer: the new memory's address, at or above everything
        obtained so far, or failure. */
    method Morecore(units: nat, sbrk: Option<nat>) returns (p: nat)
      requires Valid() && freep != 0 && units > 0
      requires sbrk.Some? ==> sbrk.value >= c.limit
      modifies this
      ensures Valid() && freep != 0
      ensures p == 0 <==> sbrk.None?
      ensures p == 0 ==> c == old(c) && freep == old(freep)
      ensures p != 0 ==> p == freep && c.live == old(c).live && HasRoom(c.ring, units)
      ensures p != 0 ==> c.obtained == old(c).obtained + Chunk(units)
      ensures p != 0 ==> Extended(old(c), c, sbrk.value, Chunk(units), freep)
    {
      var nu := units;
      if nu < 4096 { nu := 4096; }
      if sbrk.None? { return 0; }
      var hp := sbrk.value;
      ghost var was := c;
      AddCore(hp, nu);
      ghost var j := Free(hp + 1);
      GrownThenFreed(was, hp, nu, j, units);
      p := freep;
    }

    /** Lines 57-58: the new memory, for a moment a block in use. */
    method AddCore(hp: nat, nu: nat)
      requires Valid() && freep != 0 && hp >= c.limit && nu > 0
      modifies this`size, this`c
      ensures Valid() && c == Grown(old(c), hp, nu) && hp !in old(c).live
    {
      GrownInv(c, hp, nu);
      size := size[hp := nu];
      c := Grown(c, hp, nu);
      LiveNotInRing(c, hp);
      forall i: nat
        ensures LinkAt(c.ring, ptr, size, i)
      {
        assert LinkAt(c.ring, ptr, old(size), i);
      }
    }

    /** Lines 70-73: an empty list on the first call. */
    method Start()
      requires Valid()
      modifies this
      ensures Valid() && freep != 0
      ensures c == Started(old(c)) && (old(freep) != 0 ==> freep == old(freep))
    {
      if freep == 0 {
        ptr := ptr[base := base];
        freep := base;
        size := size[base := 0];
        c := c.(ring := [Blk(base, 0)]);
        StartInv(base);
        assert c.ring[0].a == freep;
      }
    }

    /** The scan stands `d` blocks past `freep`, at `p`, and all it passed are too small. */
    ghost predicate Scanned(f: nat, d: nat, prevp: nat, p: nat, n: nat)
      reads this
    {
      && f < |c.ring| && d < |c.ring| && c.ring[f].a == freep
      && p == c.ring[Wrap(f + 1 + d, |c.ring|)].a && prevp == c.ring[Wrap(f + d, |c.ring|)].a
      && AllSmall(c.ring, f, d, n)
    }

    lemma ScanStart(n: nat) returns (f: nat)
      requires Valid() && freep != 0
      ensures freep in ptr && Scanned(f, 0, freep, ptr[freep], n)
    {
      f := IndexOf(freep);
      assert LinkAt(c.ring, ptr, size, f);
    }

    lemma ScanSize(f: nat, d: nat, prevp: nat, p: nat, n: nat)
      requires Valid() && freep != 0 && Scanned(f, d, prevp, p, n)
      ensures p in size && size[p] == c.ring[Wrap(f + 1 + d, |c.ring|)].n
    {
      assert LinkAt(c.ring, ptr, size, Wrap(f + 1 + d, |c.ring|));
    }

    /** Lines 74 and 86: after a block that is too small, either the scan is back at `freep` and
        nothing fits, or it moves on. */
    lemma ScanStep(f: nat, d: nat, prevp: nat, p: nat, n: nat)
      requires Valid() && freep != 0 && Scanned(f, d, prevp, p, n)
      requires c.ring[Wrap(f + 1 + d, |c.ring|)].n < n
      ensures p in ptr
      ensures p == freep ==> !HasRoom(c.ring, n)
      ensures p != freep ==> Scanned(f, d + 1, p, ptr[p], n)
    {
      assert SmallAt(c.ring, f, d, n);
      assert LinkAt(c.ring, ptr, size, Wrap(f + 1 + d, |c.ring|));
      SortedInj(c.ring);
      if p == freep {
        assert d + 1 == |c.ring|;
        AllSmallEnd(c.ring, f, n);
      }
    }

    lemma AfterSearch(old0: Core, was: Core, start: nat, sbrk: Option<nat>, n: nat, ap: nat, grew: bool, t: Fit)
      requires Searched(was, start, sbrk, n, ap, grew, t) && was == Started(old0)
      ensures forall x: nat :: Covers(c.ring, x) || (ap != 0 && In(Blk(ap - 1, n), x)) <==>
                Covers(old0.ring, x) || (grew && In(Blk(sbrk.value, Chunk(n)), x))
    {
      forall x: nat
        ensures Covers(c.ring, x) || (ap != 0 && In(Blk(ap - 1, n), x)) <==>
                Covers(old0.ring, x) || (grew && In(Blk(sbrk.value, Chunk(n)), x))
      {
        if ap != 0 { SearchCovers(was, start, t, sbrk, n, grew, c, freep, ap, x); }
      }
    }

    /** First fit from `freep`, growing the heap at most once. A request gets the least number `u` of
        units that holds a header and `nbytes`. It fails exactly when no free block has as many and the
        kernel gives nothing. */
    method Malloc(nbytes: nat, sbrk: Option<nat>) returns (ap: nat, grew: bool, ghost u: nat, ghost t: Fit)
      requires Valid()
      requires sbrk.Some? ==> sbrk.value >= c.limit
      modifies this
      ensures Valid() && freep != 0 && nbytes <= 16 * (u - 1) < nbytes + 16
      ensures ap == 0 <==> !HasRoom(old(c).ring, u) && sbrk.None?
      ensures grew <==> !HasRoom(old(c).ring, u) && sbrk.Some?
      ensures c.obtained == old(c).obtained + if !grew then 0 else if u < 4096 then 4096 else u
      ensures ap == 0 ==> c.live == old(c).live
      ensures ap != 0 ==> ap - 1 !in old(c).live && c.live == old(c).live[ap - 1 := u]
      ensures ap != 0 ==> nbytes <= 16 * (c.live[ap - 1] - 1) < nbytes + 16
      ensures ap != 0 ==> SearchedList(Started(old(c)), old(freep), t, sbrk, u, grew) && FirstFit(t, c, freep, u, ap)
      ensures forall x: nat :: Covers(c.ring, x) || (ap != 0 && In(Blk(ap - 1, u), x)) <==>
                Covers(old(c).ring, x) || (grew && In(Blk(sbrk.value, if u < 4096 then 4096 else u), x))
    {
      var n := NUnits(nbytes);
      u := n;
      StartRoom(base, n);
      Start();
      ghost var was := c;
      ap, grew, t := Search(n, sbrk);
      AfterSearch(old(c), was, old(freep), sbrk, n, ap, grew, t);
    }

    /** In the middle of a search that began in `was`: `left` blocks are still to be looked at. */
    ghost predicate InSearch(was: Core, start: nat, sbrk: Option<nat>, n: nat, prevp: nat, p: nat, grew: bool,
                             left: nat)
      reads this
    {
      true == (
        && Valid() && freep != 0 && Searching(was, start, c, freep, sbrk, n, grew)
        && exists f, d | 0 <= f && 0 <= d <= |c.ring| :: left == |c.ring| - d && Scanned(f, d, prevp, p, n))
    }

    /** The search that began in `was` is over. */
    ghost predicate Searched(was: Core, start: nat, sbrk: Option<nat>, n: nat, ap: nat, grew: bool, t: Fit)
      reads this
    {
      true == (
        && Valid() && freep != 0
        && (ap == 0 <==> !HasRoom(was.ring, n) && sbrk.None?)
        && (grew <==> !HasRoom(was.ring, n) && sbrk.Some?)
        && c.obtained == was.obtained + (if grew then Chunk(n) else 0)
        && (ap == 0 ==> c == was)
        && (ap != 0 ==> SearchedList(was, start, t, sbrk, n, grew) && FirstFit(t, c, freep, n, ap))
        && (ap != 0 ==> ap - 1 !in was.live && c.live == was.live[ap - 1 := n]))
    }

    /** Lines 74-89: the search for `n` units. */
    method Search(n: nat, sbrk: Option<nat>) returns (ap: nat, grew: bool, ghost t: Fit)
      requires Valid() && freep != 0 && n > 0
      requires sbrk.Some? ==> sbrk.value >= c.limit
      modifies this
      ensures Searched(old(c), old(freep), sbrk, n, ap, grew, t)
    {
      ghost var left := SearchStart(sbrk, n);
      var prevp := freep;
      var p := ptr[prevp];
      var done := false;
      ap, grew, t := 0, false, Fit(c, freep, 0, 0);
      while !done
        invariant done ==> Searched(old(c), old(freep), sbrk, n, ap, grew, t)
        invariant !done ==> InSearch(old(c), old(freep), sbrk, n, prevp, p, grew, left)
        decreases !done, !grew, left
      {
        done, ap, prevp, p, grew, left, t := SearchRound(n, sbrk, prevp, p, grew, left, old(c), old(freep));
      }
    }

    lemma SearchStart(sbrk: Option<nat>, n: nat) returns (left: nat)
      requires Valid() && freep != 0
      ensures freep in ptr && InSearch(c, freep, sbrk, n, freep, ptr[freep], false, left)
    {
      var f := ScanStart(n);
      left := |c.ring|;
    }

    /** One block of the search. */
    method SearchRound(n: nat, sbrk: Option<nat>, prevp0: nat, p0: nat, grew0: bool, ghost left0: nat, ghost was: Core,
                       ghost start: nat)
      returns (done: bool, ap: nat, prevp: nat, p: nat, grew: bool, ghost left: nat, ghost t: Fit)
      requires InSearch(was, start, sbrk, n, prevp0, p0, grew0, left0) && n > 0
      requires sbrk.Some? ==> sbrk.value >= was.limit
      modifies this
      ensures done ==> Searched(was, start, sbrk, n, ap, grew, t)
      ensures !done ==> InSearch(was, start, sbrk, n, prevp, p, grew, left)
      ensures !done ==> if grew == grew0 then left < left0 else grew
    {
      ghost var f, d :| 0 <= f && 0 <= d <= |c.ring| && left0 == |c.ring| - d && Scanned(f, d, prevp0, p0, n);
      done, ap, prevp, p, grew, left, t := true, 0, prevp0, p0, grew0, 0, Fit(c, freep, f, d);
      ScanSize(f, d, prevp0, p0, n);
      if size[p0] >= n {
        ap := FoundAt(prevp0, p0, n, f, d, was, start, sbrk, grew0);
        return;
      }
      ScanStep(f, d, prevp0, p0, n);
      if p0 == freep {
        p, left := Grow(n, sbrk, was, start, grew0, t);
        if p == 0 { return; }
        grew := true;
      } else {
        left := left0 - 1;
      }
      done := false;
      prevp := p;
      p := ptr[p];
    }

    method FoundAt(prevp: nat, p: nat, n: nat, ghost f: nat, ghost d: nat, ghost was: Core, ghost start: nat,
                   ghost sbrk: Option<nat>, ghost grew: bool)
      returns (ap: nat)
      requires Valid() && freep != 0 && Searching(was, start, c, freep, sbrk, n, grew)
      requires n > 0 && Scanned(f, d, prevp, p, n) && p in size && size[p] >= n
      modifies this
      ensures Searched(was, start, sbrk, n, ap, grew, Fit(old(c), old(freep), f, d))
    {
      ap := CarveAt(prevp, p, n, f, d);
    }

    /** Lines 86-88: nothing fits. */
    method Grow(n: nat, sbrk: Option<nat>, ghost was: Core, ghost start: nat, ghost grew: bool, ghost t: Fit)
      returns (p: nat, ghost left: nat)
      requires Valid() && freep != 0 && Searching(was, start, c, freep, sbrk, n, grew) && !HasRoom(c.ring, n) && n > 0
      requires sbrk.Some? ==> sbrk.value >= was.limit
      modifies this
      ensures p == 0 ==> !grew && Searched(was, start, sbrk, n, 0, false, t)
      ensures p != 0 ==> !grew && p in ptr && InSearch(was, start, sbrk, n, p, ptr[p], true, left)
    {
      p := Morecore(n, sbrk);
      left := |c.ring|;
      if p != 0 {
        ghost var g := ScanStart(n);
      }
    }

    /** `Carve` where the scan stands. */
    method CarveAt(prevp: nat, p: nat, n: nat, ghost f: nat, ghost d: nat) returns (ap: nat)
      requires Valid() && freep != 0 && n > 0 && Scanned(f, d, prevp, p, n) && p in size && size[p] >= n
      modifies this
      ensures Valid() && freep != 0 && ap > 0 && ap - 1 !in old(c).live && HasRoom(old(c).ring, n)
      ensures c.live == old(c).live[ap - 1 := n] && c.obtained == old(c).obtained
      ensures FirstFit(Fit(old(c), old(freep), f, d), c, freep, n, ap)
    {
      ghost var k := Wrap(f + 1 + d, |c.ring|);
      assert RoomAt(c.ring, k, n) <==> c.ring[k].n >= n;
      assert LinkAt(c.ring, ptr, size, k);
      ap := Carve(prevp, p, n, k);
    }
  }
}
