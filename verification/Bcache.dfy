/** The buffer cache of kernel/bio.c over a disk of blocks: a fixed table of buffers, the doubly
    linked list that keeps them in order of use, and reference counts.

    Buffers are named by their index in the table; index `n` is the list head. A call runs to its
    end under the cache's lock; the sleep lock of each buffer is modelled in SleepLock. */
module Bcache {
  import opened Options

  const UINT: nat := 0x1_0000_0000

  type Block = seq<int>

  datatype Key = Key(dev: nat, blockno: nat)

  /** The identity all buffers have at boot, before any use. */
  const NOKEY := Key(0, 0)

  datatype Buf = Buf(key: Key, valid: bool, refcnt: nat, data: Block)

  // ---------------------------------------------------------------- the list

  /** The `j`-th node of the cycle: the head, the buffers in order, and the head again. */
  function At(order: seq<nat>, j: nat): nat
    requires j <= |order| + 1
  {
    if 1 <= j <= |order| then order[j - 1] else |order|
  }

  ghost predicate LinkAt(order: seq<nat>, next: seq<nat>, prev: seq<nat>, j: nat)
    requires |next| == |prev| == |order| + 1 && j <= |order|
    requires IsTable(order)
  {
    next[At(order, j)] == At(order, j + 1) && prev[At(order, j + 1)] == At(order, j)
  }

  /** Every buffer once. */
  ghost predicate IsTable(order: seq<nat>) {
    && (forall i | 0 <= i < |order| :: order[i] < |order|)
    && (forall i, j | 0 <= i < j < |order| :: order[i] != order[j])
    && (forall b | 0 <= b < |order| :: b in order)
  }

  /** The list as `binit` leaves it. */
  function BootOrder(n: nat): seq<nat> {
    seq(n, i requires 0 <= i < n => n - 1 - i)
  }

  lemma BootList(n: nat, next: seq<nat>, prev: seq<nat>)
    requires |next| == |prev| == n + 1
    requires next[n] == (if n == 0 then n else n - 1) && prev[n] == (if n == 0 then n else 0)
    requires forall x | 0 <= x < n :: next[x] == (if x == 0 then n else x - 1)
    requires forall x | 0 <= x < n :: prev[x] == (if x == n - 1 then n else x + 1)
    ensures IsTable(BootOrder(n)) && forall j | 0 <= j <= n :: LinkAt(BootOrder(n), next, prev, j)
  {
    var o := BootOrder(n);
    forall b | 0 <= b < n
      ensures b in o
    {
      assert o[n - 1 - b] == b;
    }
  }

  function Move(order: seq<nat>, j: nat): seq<nat>
    requires j < |order|
  {
    [order[j]] + order[..j] + order[j + 1..]
  }

  lemma MoveIsTable(order: seq<nat>, j: nat)
    requires IsTable(order) && j < |order|
    ensures IsTable(Move(order, j))
  {
    var m := Move(order, j);
    forall a, b | 0 <= a < b < |m|
      ensures m[a] != m[b]
    {
      var x := if a == 0 then j else if a <= j then a - 1 else a;
      var y := if b <= j then b - 1 else b;
      assert m[a] == order[x] && m[b] == order[y];
    }
    forall b | 0 <= b < |order|
      ensures b in m
    {
      assert b in order;
      var x :| 0 <= x < |order| && order[x] == b;
      assert m[if x < j then x + 1 else if x == j then 0 else x] == b;
    }
  }

  // ---------------------------------------------------------------- order of use

  /** When `b` was last released, counting releases from 1; 0 for never. */
  function Last(released: seq<nat>, b: nat): nat {
    if released == [] then 0
    else if released[|released| - 1] == b then |released|
    else Last(released[..|released| - 1], b)
  }

  lemma {:induction false} LastBound(released: seq<nat>, b: nat)
    ensures Last(released, b) <= |released|
  {
    if released != [] { LastBound(released[..|released| - 1], b); }
  }

  lemma {:induction false} LastInj(released: seq<nat>, a: nat, b: nat)
    requires a != b && Last(released, a) == Last(released, b)
    ensures Last(released, a) == 0
  {
    if released != [] {
      LastBound(released[..|released| - 1], a);
      LastBound(released[..|released| - 1], b);
      LastInj(released[..|released| - 1], a, b);
    }
  }

  /** `a` was released before `b` was, or neither ever was. */
  ghost predicate Earlier(released: seq<nat>, a: nat, b: nat) {
    Last(released, a) < Last(released, b) || Last(released, a) == Last(released, b) == 0
  }

  /** Most recently released first. */
  ghost predicate ByRecency(order: seq<nat>, released: seq<nat>) {
    forall i, j | 0 <= i < j < |order| :: Last(released, order[i]) >= Last(released, order[j])
  }

  lemma MoveByRecency(order: seq<nat>, released: seq<nat>, j: nat)
    requires IsTable(order) && ByRecency(order, released) && j < |order|
    ensures ByRecency(Move(order, j), released + [order[j]])
  {
    var m, r, b := Move(order, j), released + [order[j]], order[j];
    assert r[..|r| - 1] == released;
    forall x, y | 0 <= x < y < |m|
      ensures Last(r, m[x]) >= Last(r, m[y])
    {
      LastBound(r, m[y]);
      if x > 0 {
        var i := if x <= j then x - 1 else x;
        var k := if y <= j then y - 1 else y;
        assert m[x] == order[i] && m[y] == order[k] && m[x] != b && m[y] != b;
      }
    }
  }

  // ---------------------------------------------------------------- the table

  /** At most one buffer for a block, boot identities apart. */
  ghost predicate UniqueKeys(buf: seq<Buf>) {
    forall i, j | 0 <= i < |buf| && 0 <= j < |buf| :: KeysApart(buf, i, j)
  }

  ghost predicate KeysApart(buf: seq<Buf>, i: nat, j: nat)
    requires i < |buf| && j < |buf|
  {
    buf[i].key == buf[j].key ==> i == j || buf[i].key == NOKEY
  }

  /** Buffers whose keys are as they were, but for one that now has a key no other had. */
  lemma KeysStayUnique(was: seq<Buf>, now: seq<Buf>, b: nat)
    requires UniqueKeys(was) && |now| == |was| && b < |was|
    requires forall i | 0 <= i < |was| && i != b :: now[i].key == was[i].key
    requires now[b].key == was[b].key || !Cached(was, now[b].key)
    ensures UniqueKeys(now)
  {
    forall i, j | 0 <= i < |now| && 0 <= j < |now|
      ensures KeysApart(now, i, j)
    {
      assert KeysApart(was, i, j);
    }
  }

  ghost predicate Cached(buf: seq<Buf>, key: Key) {
    exists i | 0 <= i < |buf| :: buf[i].key == key
  }

  ghost predicate AllInUse(buf: seq<Buf>) {
    forall i | 0 <= i < |buf| :: buf[i].refcnt > 0
  }

  function Plus(refcnt: nat): nat { (refcnt + 1) % UINT }

  function Minus(refcnt: nat): nat { if refcnt == 0 then UINT - 1 else refcnt - 1 }

  type Disk = map<Key, Block>

  /** `bread` of `key` answered `b` and changed no other buffer: it was in the cache, or it took
      over a buffer nobody used; its data is the cached copy if valid, else the disk's. */
  ghost predicate ReadInto(was: seq<Buf>, disk: Disk, key: Key, b: nat, now: seq<Buf>)
    requires key in disk
  {
    && b < |was| == |now|
    && (if Cached(was, key)
        then was[b].key == key
          && now == was[b := Buf(key, true, Plus(was[b].refcnt), if was[b].valid then was[b].data else disk[key])]
        else was[b].refcnt == 0 && now == was[b := Buf(key, true, 1, disk[key])])
  }

  function Unlinked(next: seq<nat>, prev: seq<nat>, b: nat): (seq<nat>, seq<nat>)
    requires b < |next| == |prev| && next[b] < |next| && prev[b] < |next|
  {
    (next[prev[b] := next[b]], prev[next[b] := prev[b]])
  }

  function Pushed(next: seq<nat>, prev: seq<nat>, b: nat, head: nat): (seq<nat>, seq<nat>)
    requires b < |next| == |prev| && head < |next| && next[head] < |next|
  {
    (next[b := next[head]][head := b], prev[b := head][next[head] := b])
  }

  lemma AtInj(order: seq<nat>, p: nat, q: nat)
    requires IsTable(order) && p <= |order| + 1 && q <= |order| + 1 && At(order, p) == At(order, q)
    ensures p == q || (p == 0 && q == |order| + 1) || (p == |order| + 1 && q == 0)
  {
  }

  /** Where the entry at position `i` of the moved list was before. */
  function Src(i: nat, j: nat): nat {
    if i == 0 then 0 else if i == 1 then j + 1 else if i <= j + 1 then i - 1 else i
  }

  lemma MoveAt(order: seq<nat>, j: nat, i: nat)
    requires j < |order| && i <= |order| + 1
    ensures Src(i, j) <= |order| + 1 && At(Move(order, j), i) == At(order, Src(i, j))
  {
  }

  /** The positions before the move of what comes after and before position `p` then. */
  function NextPos(p: nat, j: nat): nat {
    if p == 0 then j + 1 else if p == j + 1 then First(j) else if p == j then j + 2 else p + 1
  }

  function PrevPos(p: nat, j: nat): nat
    requires p > 0
  {
    if p == First(j) then j + 1 else if p == j + 1 then 0 else if p == j + 2 then j else p - 1
  }

  function First(j: nat): nat {
    if j == 0 then 2 else 1
  }

  lemma MovedNext(order: seq<nat>, next: seq<nat>, j: nat, p: nat)
    requires IsTable(order) && |next| == |order| + 1 && j < |order| && p <= |order|
    requires forall q | 0 <= q <= |order| :: next[At(order, q)] == At(order, q + 1)
    ensures var x := next[At(order, j) := At(order, j + 2)];
            && x[|order|] == At(order, First(j))
            && x[At(order, j + 1) := x[|order|]][|order| := At(order, j + 1)][At(order, p)] == At(order, NextPos(p, j))
  {
    assert At(order, 0) == |order| && next[At(order, 0)] == At(order, 1);
    if At(order, p) == At(order, 0) { AtInj(order, p, 0); }
    if At(order, p) == At(order, j) { AtInj(order, p, j); }
    if At(order, p) == At(order, j + 1) { AtInj(order, p, j + 1); }
    if At(order, 0) == At(order, j) { AtInj(order, 0, j); }
  }

  lemma MovedPrev(order: seq<nat>, prev: seq<nat>, j: nat, p: nat)
    requires IsTable(order) && |prev| == |order| + 1 && j < |order| && 1 <= p <= |order| + 1
    requires forall q | 1 <= q <= |order| + 1 :: prev[At(order, q)] == At(order, q - 1)
    ensures prev[At(order, j + 2) := At(order, j)][At(order, j + 1) := |order|]
                [At(order, First(j)) := At(order, j + 1)][At(order, p)]
            == At(order, PrevPos(p, j))
  {
    assert At(order, 0) == |order|;
    if At(order, p) == At(order, First(j)) { AtInj(order, p, First(j)); }
    if At(order, p) == At(order, j + 1) { AtInj(order, p, j + 1); }
    if At(order, p) == At(order, j + 2) { AtInj(order, p, j + 2); }
  }

  /** In the moved list, positions follow each other. */
  lemma MovedOrder(order: seq<nat>, j: nat, i: nat)
    requires j < |order| && i <= |order|
    ensures At(Move(order, j), i) == At(order, Src(i, j)) && At(Move(order, j), i + 1) == At(order, Src(i + 1, j))
    ensures NextPos(Src(i, j), j) == Src(i + 1, j) || (i == |order| && NextPos(Src(i, j), j) == |order| + 1)
    ensures PrevPos(Src(i + 1, j), j) == Src(i, j)
  {
    MoveAt(order, j, i);
    MoveAt(order, j, i + 1);
  }

  lemma MoveLinks(order: seq<nat>, next: seq<nat>, prev: seq<nat>, j: nat)
    requires IsTable(order) && |next| == |prev| == |order| + 1 && j < |order|
    requires forall i | 0 <= i <= |order| :: LinkAt(order, next, prev, i)
    ensures next[order[j]] < |next| && prev[order[j]] < |next| && next[|order|] < |next|
    ensures IsTable(Move(order, j))
    ensures var (x, y) := Unlinked(next, prev, order[j]);
            && x[|order|] < |x|
            && var (nx, pv) := Pushed(x, y, order[j], |order|);
               forall i | 0 <= i <= |order| :: LinkAt(Move(order, j), nx, pv, i)
  {
    MoveIsTable(order, j);
    forall q | 0 <= q <= |order|
      ensures next[At(order, q)] == At(order, q + 1) && prev[At(order, q + 1)] == At(order, q)
    {
      assert LinkAt(order, next, prev, q);
    }
    assert order[j] == At(order, j + 1) && At(order, 0) == |order|;
    assert next[At(order, j + 1)] == At(order, j + 2) && prev[At(order, j + 1)] == At(order, j);
    var (x, y) := Unlinked(next, prev, order[j]);
    assert x == next[At(order, j) := At(order, j + 2)] && y == prev[At(order, j + 2) := At(order, j)];
    MovedNext(order, next, j, 0);
    var (nx, pv) := Pushed(x, y, order[j], |order|);
    forall i | 0 <= i <= |order|
      ensures LinkAt(Move(order, j), nx, pv, i)
    {
      MovedOrder(order, j, i);
      MovedNext(order, next, j, Src(i, j));
      MovedPrev(order, prev, j, Src(i + 1, j));
    }
  }

  class Cache {
    const n: nat
    var buf: seq<Buf>
    var next: seq<nat>
    var prev: seq<nat>
    var disk: Disk
    ghost var order: seq<nat>
    ghost var released: seq<nat>
    /** Every state the disk has been in, oldest first, the present one last. */
    ghost var history: seq<Disk>

    ghost predicate ListOk()
      reads this
    {
      && |order| == n && IsTable(order) && |next| == |prev| == n + 1
      && forall j | 0 <= j <= n :: LinkAt(order, next, prev, j)
    }

    ghost predicate Valid()
      reads this
    {
      && |buf| == n && ListOk() && ByRecency(order, released) && UniqueKeys(buf)
      && (forall i | 0 <= i < n :: buf[i].refcnt < UINT)
      && history != [] && history[|history| - 1] == disk
    }

    /** `binit`: the list is built by pushing each buffer at the front. */
    constructor (size: nat, d: Disk)
      ensures Valid() && n == size && disk == d && history == [d]
      ensures buf == seq(size, _ => Buf(NOKEY, false, 0, []))
    {
      n := size;
      var nx, pv := seq(size + 1, _ => size), seq(size + 1, _ => size);
      var b := 0;
      while b < size
        invariant 0 <= b <= size && |nx| == |pv| == size + 1
        invariant nx[size] == (if b == 0 then size else b - 1) && pv[size] == (if b == 0 then size else 0)
        invariant forall x | 0 <= x < b :: nx[x] == (if x == 0 then size else x - 1)
        invariant forall x | 0 <= x < b :: pv[x] == (if x == b - 1 then size else x + 1)
      {
        nx := nx[b := nx[size]];
        pv := pv[b := size];
        pv := pv[nx[size] := b];
        nx := nx[size := b];
        b := b + 1;
      }
      BootList(size, nx, pv);
      next, prev, order := nx, pv, BootOrder(size);
      buf := seq(size, _ => Buf(NOKEY, false, 0, []));
      disk, history, released := d, [d], [];
    }

    /** `bget`: a cached buffer if there is one, else the least recently used free one; `None` is
        the panic when every buffer is in use. */
    method Bget(key: Key) returns (r: Option<nat>)
      requires Valid()
      modifies this`buf
      ensures Valid()
      ensures r.None? <==> !Cached(old(buf), key) && AllInUse(old(buf))
      ensures r.None? ==> buf == old(buf)
      ensures r.Some? ==> r.value < n
      ensures r.Some? && Cached(old(buf), key) ==>
                var b := r.value;
                old(buf)[b].key == key && buf == old(buf)[b := old(buf)[b].(refcnt := Plus(old(buf)[b].refcnt))]
      ensures r.Some? && !Cached(old(buf), key) ==>
                var b := r.value;
                && old(buf)[b].refcnt == 0 && buf == old(buf)[b := Buf(key, false, 1, old(buf)[b].data)]
                && forall x | 0 <= x < n && x != b && old(buf)[x].refcnt == 0 :: Earlier(released, b, x)
    {
      var b := FindCached(key);
      if b != n {
        KeysStayUnique(buf, buf[b := buf[b].(refcnt := Plus(buf[b].refcnt))], b);
        buf := buf[b := buf[b].(refcnt := Plus(buf[b].refcnt))];
        return Some(b);
      }
      b := FindFree();
      if b == n { return None; }
      KeysStayUnique(buf, buf[b := Buf(key, false, 1, buf[b].data)], b);
      buf := buf[b := Buf(key, false, 1, buf[b].data)];
      return Some(b);
    }

    /** Lines 65-72: from the most recently used on; `n` if the block is not cached. */
    method FindCached(key: Key) returns (b: nat)
      requires Valid()
      ensures b <= n && (b == n <==> !Cached(buf, key)) && (b < n ==> buf[b].key == key)
    {
      assert LinkAt(order, next, prev, 0);
      b := next[n];
      ghost var j: nat := 0;
      while b != n
        invariant j <= n && b == At(order, j + 1)
        invariant forall i | 0 <= i < j :: buf[order[i]].key != key
        decreases n - j
      {
        if buf[b].key == key { return; }
        assert LinkAt(order, next, prev, j + 1);
        b := next[b];
        j := j + 1;
      }
      forall i | 0 <= i < n
        ensures buf[i].key != key
      {
        assert i in order;
      }
    }

    /** Lines 75-85: from the least recently used on; `n` if every buffer is in use. */
    method FindFree() returns (b: nat)
      requires Valid()
      ensures b <= n && (b == n <==> AllInUse(buf)) && (b < n ==> buf[b].refcnt == 0)
      ensures forall x | 0 <= x < n && x != b && buf[x].refcnt == 0 :: Earlier(released, b, x)
    {
      assert LinkAt(order, next, prev, n);
      b := prev[n];
      ghost var j: nat := n;
      while b != n
        invariant j <= n && b == At(order, j)
        invariant forall i | j <= i < n :: buf[order[i]].refcnt > 0
        decreases j
      {
        if buf[b].refcnt == 0 { break; }
        assert LinkAt(order, next, prev, j - 1);
        b := prev[b];
        j := j - 1;
      }
      forall x | 0 <= x < n && buf[x].refcnt == 0
        ensures b != n && (x != b ==> Earlier(released, b, x))
      {
        assert x in order;
        var i :| 0 <= i < n && order[i] == x;
        if x != b && Last(released, b) == Last(released, x) { LastInj(released, b, x); }
      }
    }

    /** `bread`: as `bget`, and the data is the block's. */
    method Bread(key: Key) returns (r: Option<nat>)
      requires Valid() && key in disk
      modifies this`buf
      ensures Valid()
      ensures r.None? <==> !Cached(old(buf), key) && AllInUse(old(buf))
      ensures r.None? ==> buf == old(buf)
      ensures r.Some? ==> ReadInto(old(buf), disk, key, r.value, buf)
    {
      r := Bget(key);
      if r.Some? && !buf[r.value].valid {
        KeysStayUnique(buf, buf[r.value := buf[r.value].(valid := true, data := disk[key])], r.value);
        buf := buf[r.value := buf[r.value].(valid := true, data := disk[key])];
      }
    }

    /** `bwrite`: the buffer's data reaches the disk in one write. */
    method Bwrite(b: nat)
      requires Valid() && b < n
      modifies this`disk, this`history
      ensures Valid()
      ensures disk == old(disk)[buf[b].key := buf[b].data] && history == old(history) + [disk]
    {
      disk := disk[buf[b].key := buf[b].data];
      history := history + [disk];
    }

    method SetData(b: nat, data: Block)
      requires Valid() && b < n
      modifies this`buf
      ensures Valid() && buf == old(buf)[b := old(buf)[b].(data := data)]
    {
      KeysStayUnique(buf, buf[b := buf[b].(data := data)], b);
      buf := buf[b := buf[b].(data := data)];
    }

    method Bpin(b: nat)
      requires Valid() && b < n
      modifies this`buf
      ensures Valid() && buf == old(buf)[b := old(buf)[b].(refcnt := Plus(old(buf)[b].refcnt))]
    {
      KeysStayUnique(buf, buf[b := buf[b].(refcnt := Plus(buf[b].refcnt))], b);
      buf := buf[b := buf[b].(refcnt := Plus(buf[b].refcnt))];
    }

    method Bunpin(b: nat)
      requires Valid() && b < n
      modifies this`buf
      ensures Valid() && buf == old(buf)[b := old(buf)[b].(refcnt := Minus(old(buf)[b].refcnt))]
    {
      KeysStayUnique(buf, buf[b := buf[b].(refcnt := Minus(buf[b].refcnt))], b);
      buf := buf[b := buf[b].(refcnt := Minus(buf[b].refcnt))];
    }

    /** `brelse`: a buffer nobody uses any more becomes the most recently used one. */
    method Brelse(b: nat)
      requires Valid() && b < n
      modifies this`buf, this`next, this`prev, this`order, this`released
      ensures Valid()
      ensures buf == old(buf)[b := old(buf)[b].(refcnt := Minus(old(buf)[b].refcnt))]
      ensures buf[b].refcnt != 0 ==> order == old(order) && released == old(released)
      ensures buf[b].refcnt == 0 ==> released == old(released) + [b] && order[0] == b
    {
      KeysStayUnique(buf, buf[b := buf[b].(refcnt := Minus(buf[b].refcnt))], b);
      buf := buf[b := buf[b].(refcnt := Minus(buf[b].refcnt))];
      if buf[b].refcnt == 0 {
        assert b in order;
        ghost var j: nat :| j < n && order[j] == b;
        MoveByRecency(order, released, j);
        MoveToFront(b, j);
        released := released + [b];
      }
    }

    /** Lines 126-131. */
    method MoveToFront(b: nat, ghost j: nat)
      requires ListOk() && j < n && order[j] == b
      modifies this`next, this`prev, this`order
      ensures ListOk() && order == Move(old(order), j)
    {
      MoveLinks(order, next, prev, j);
      assert LinkAt(order, next, prev, j) && LinkAt(order, next, prev, j + 1);
      ghost var (x, y) := Unlinked(next, prev, b);
      ghost var (nx, pv) := Pushed(x, y, b, n);
      prev := prev[next[b] := prev[b]];
      next := next[prev[b] := next[b]];
      assert next == x && prev == y;
      next := next[b := next[n]];
      prev := prev[b := n];
      prev := prev[next[n] := b];
      next := next[n := b];
      assert next == nx && prev == pv;
      order := Move(order, j);
    }
  }
}
