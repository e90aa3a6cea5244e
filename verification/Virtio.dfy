/** The descriptor and ring bookkeeping of kernel/virtio_disk.c, shared by any number of requests
    and a device that completes them in any order (section 2.6 of Virtio 1.1).

    Each method is one critical section on `vdisk_lock`, or one step of the device. A request is
    submitted, waits while its buffer is on the disk, and then frees its descriptors; between
    those calls anything else may happen. */
module Virtio {
  import opened Options

  const NUM: nat := 8
  const UINT16: nat := 0x1_0000

  /** `write` and `hasNext` are the flags VRING_DESC_F_WRITE and VRING_DESC_F_NEXT. */
  datatype Desc = Desc(addr: nat, len: nat, write: bool, hasNext: bool, next: nat)

  datatype Info = Info(b: Option<nat>, status: nat)

  /** Where a request is: in the avail ring, with the device, in the used ring, or completed. */
  datatype Phase = Posted | Taken | Used | Done

  /** What the device is to do: the addresses of the header on the stack, of the data and of the
      status byte, and whether the disk is written or read. */
  datatype Req = Req(hdr: nat, data: nat, stat: nat, write: bool)

  /** The request whose first descriptor is `h` also owns `d` and `s` and is about buffer `b`. */
  datatype Chain = Chain(d: nat, s: nat, b: nat, r: Req, phase: Phase)

  /** The device is not done with the request. */
  predicate Waiting(p: Phase) {
    p == Posted || p == Taken
  }

  // ---------------------------------------------------------------- counting

  function NumFree(free: seq<bool>): nat {
    if free == [] then 0 else NumFree(free[..|free| - 1]) + if free[|free| - 1] then 1 else 0
  }

  lemma {:induction false} NumFreeUpdate(free: seq<bool>, i: nat, v: bool)
    requires i < |free|
    ensures NumFree(free[i := v]) == NumFree(free) - (if free[i] then 1 else 0) + (if v then 1 else 0)
  {
    var n := |free| - 1;
    if i == n {
      assert free[i := v][..n] == free[..n];
    } else {
      NumFreeUpdate(free[..n], i, v);
      assert free[i := v][..n] == free[..n][i := v];
    }
  }

  lemma {:induction false} NumFreeZero(free: seq<bool>)
    ensures NumFree(free) == 0 <==> forall i | 0 <= i < |free| :: !free[i]
  {
    if free != [] {
      var n := |free| - 1;
      NumFreeZero(free[..n]);
      assert (forall i | 0 <= i < |free| :: !free[i]) <==> (forall i | 0 <= i < n :: !free[..n][i]) && !free[n];
    }
  }

  lemma {:induction false} AllFree(n: nat)
    ensures NumFree(seq(n, _ => true)) == n
  {
    if n > 0 {
      AllFree(n - 1);
      assert (seq(n, _ => true))[..n - 1] == seq(n - 1, _ => true);
    }
  }

  ghost predicate Distinct(q: seq<nat>) {
    forall i, j | 0 <= i < j < |q| :: q[i] != q[j]
  }

  /** A queue of distinct requests is no longer than the number of requests. */
  lemma {:induction false} QueueBound(q: seq<nat>, keys: set<nat>)
    requires Distinct(q) && forall i | 0 <= i < |q| :: q[i] in keys
    ensures |q| <= |keys|
  {
    if q != [] {
      var n := |q| - 1;
      QueueBound(q[..n], keys - {q[n]});
    }
  }

  // ---------------------------------------------------------------- rings

  function Mod8(x: nat): (r: nat)
    ensures r < NUM
  {
    x % 8
  }

  function Mod16(x: nat): nat {
    x % 0x1_0000
  }

  ghost predicate RingAt(ring: seq<nat>, start: nat, q: seq<nat>, i: nat)
    requires |ring| == NUM && i < |q|
  {
    ring[Mod8(start + i)] == q[i]
  }

  /** `q` is what a ring holds from position `start` on. */
  ghost predicate InRing(ring: seq<nat>, start: nat, q: seq<nat>) {
    |ring| == NUM && forall i {:trigger RingAt(ring, start, q, i)} | 0 <= i < |q| :: RingAt(ring, start, q, i)
  }

  /** While fewer than NUM completions are outstanding, the mod-NUM test sees them all. */
  lemma UsedTest(usedIdx: nat, usedId: nat, n: nat)
    requires usedIdx < NUM && n < NUM && Mod8(usedId) == Mod8(usedIdx + n)
    ensures Mod8(usedIdx) != Mod8(usedId) <==> n > 0
  {
  }

  lemma Mod8Apart(a: nat, b: nat)
    requires a < b < a + 8
    ensures Mod8(a) != Mod8(b)
  {
  }

  lemma Mod8Next(a: nat, b: nat, i: nat)
    requires Mod8(a) == Mod8(b)
    ensures Mod8(a + i) == Mod8(b + i)
  {
  }

  /** The 16-bit counters agree with unbounded ones where the rings are concerned. */
  lemma Mod16Of8(x: nat)
    ensures Mod8(Mod16(x)) == Mod8(x)
  {
    assert x == 65536 * (x / 65536) + x % 65536;
  }

  lemma RingPush(ring: seq<nat>, start: nat, q: seq<nat>, at: nat, h: nat)
    requires InRing(ring, start, q) && |q| < NUM && Mod8(at) == Mod8(start + |q|)
    ensures InRing(ring[Mod8(at) := h], start, q + [h])
  {
    var now, all := ring[Mod8(at) := h], q + [h];
    forall i | 0 <= i < |all|
      ensures RingAt(now, start, all, i)
    {
      if i < |q| {
        assert RingAt(ring, start, q, i);
        Mod8Apart(start + i, start + |q|);
      }
    }
  }

  lemma RingPop(ring: seq<nat>, start: nat, q: seq<nat>, next: nat)
    requires InRing(ring, start, q) && q != [] && Mod8(next) == Mod8(start + 1)
    ensures ring[Mod8(start)] == q[0] && InRing(ring, next, q[1..])
  {
    assert RingAt(ring, start, q, 0);
    var rest := q[1..];
    forall i | 0 <= i < |rest|
      ensures RingAt(ring, next, rest, i)
    {
      assert RingAt(ring, start, q, i + 1);
      Mod8Next(next, start + 1, i);
    }
  }

  // ---------------------------------------------------------------- the state and its invariant

  /** The driver's tables, and beside them what they stand for: the requests by first descriptor,
      the request each descriptor belongs to, what the avail ring holds that the device has not
      `seen`, and what the used ring holds that the driver has not handled. */
  datatype State = State(
    free: seq<bool>, desc: seq<Desc>, info: seq<Info>, onDisk: set<nat>,
    avail: seq<nat>, availIdx: nat, used: seq<nat>, usedId: nat, usedIdx: nat,
    chains: map<nat, Chain>, owner: seq<Option<nat>>, posted: seq<nat>, seen: nat, finished: seq<nat>)

  ghost predicate Shape(q: State) {
    && |q.free| == |q.desc| == |q.info| == |q.owner| == NUM
    && q.availIdx < UINT16 && q.usedId < UINT16 && q.usedIdx < NUM && q.seen < UINT16
  }

  /** A descriptor is free, or in the one chain that owns it; a buffer is recorded only with the first
      descriptor of a request. */
  ghost predicate DescOk(q: State, i: nat)
    requires Shape(q) && i < NUM
  {
    true == (
      && (q.free[i] <==> q.owner[i].None?)
      && (q.free[i] ==> q.desc[i].addr == 0)
      && (i !in q.chains ==> q.info[i].b == None)
      && (q.owner[i].Some? ==> q.owner[i].value in q.chains)
      && (q.owner[i].Some? ==> var c := q.chains[q.owner[i].value]; i == q.owner[i].value || i == c.d || i == c.s))
  }

  /** A chain of three descriptors, linked in order: the header, the data and the status byte of a
      request, for a buffer that is on the disk until done. */
  ghost predicate ChainOk(q: State, h: nat)
    requires Shape(q) && h in q.chains
  {
    var c := q.chains[h];
    true == (
      && h < NUM && c.d < NUM && c.s < NUM && h != c.d && h != c.s && c.d != c.s
      && q.owner[h] == q.owner[c.d] == q.owner[c.s] == Some(h)
      && q.desc[h].hasNext && q.desc[h].next == c.d && q.desc[c.d].hasNext && q.desc[c.d].next == c.s
      && !q.desc[c.s].hasNext && q.desc[c.s].next == 0
      && q.desc[h].addr == c.r.hdr && q.desc[c.d].addr == c.r.data && q.desc[c.s].addr == c.r.stat
      && q.desc[h].len == 16 && q.desc[c.d].len == 1024 && q.desc[c.s].len == 1
      && !q.desc[h].write && q.desc[c.d].write == !c.r.write && q.desc[c.s].write
      && q.info[h].b == Some(c.b) && (c.b in q.onDisk <==> c.phase != Done)
      && (Waiting(c.phase) ==> q.info[h].status == 0))
  }

  /** What the device finds from descriptor `h` on: the header, the data, writable exactly if the disk
      is read, and the status byte. */
  predicate Describes(desc: seq<Desc>, h: nat, r: Req) {
    true == (
      && |desc| == NUM && h < NUM && desc[h].next < NUM && desc[desc[h].next].next < NUM
      && desc[h].addr == r.hdr && desc[desc[h].next].addr == r.data && desc[desc[desc[h].next].next].addr == r.stat
      && desc[h].len == 16 && desc[desc[h].next].len == 1024 && desc[desc[desc[h].next].next].len == 1
      && !desc[h].write && desc[desc[h].next].write == !r.write && desc[desc[desc[h].next].next].write
      && desc[h].hasNext && desc[desc[h].next].hasNext
      && !desc[desc[desc[h].next].next].hasNext && desc[desc[desc[h].next].next].next == 0)
  }

  lemma ChainDescribes(q: State, h: nat)
    requires Inv(q) && h in q.chains
    ensures Describes(q.desc, h, q.chains[h].r)
  {
    assert ChainOk(q, h);
  }

  ghost predicate BusyAt(chains: map<nat, Chain>, h: nat, b: nat) {
    h in chains && chains[h].b == b && chains[h].phase != Done
  }

  /** Some request is at work on the buffer. */
  ghost predicate Busy(chains: map<nat, Chain>, b: nat) {
    exists h :: BusyAt(chains, h, b)
  }

  lemma BusyMore(chains: map<nat, Chain>, h: nat, c: Chain, b: nat)
    requires Busy(chains, b) && (h in chains ==> chains[h].b != b)
    ensures Busy(chains[h := c], b)
  {
    var g :| BusyAt(chains, g, b);
    assert BusyAt(chains[h := c], g, b);
  }

  ghost predicate OneRequestEach(chains: map<nat, Chain>) {
    forall g, h {:trigger BuffersApart(chains, g, h)} | g in chains && h in chains :: BuffersApart(chains, g, h)
  }

  ghost predicate BuffersApart(chains: map<nat, Chain>, g: nat, h: nat)
    requires g in chains && h in chains
  {
    chains[g].b == chains[h].b ==> g == h
  }

  lemma OneRequestMore(chains: map<nat, Chain>, h: nat, c: Chain)
    requires OneRequestEach(chains)
    requires forall g | g in chains && g != h :: chains[g].b != c.b
    ensures OneRequestEach(chains[h := c])
  {
    var t := chains[h := c];
    forall f, g | f in t && g in t
      ensures BuffersApart(t, f, g)
    {
      if f != h && g != h { assert BuffersApart(chains, f, g); }
    }
  }

  /** (Here and below `true ==` keeps a conjunction whole where it is passed on.) */
  ghost predicate TablesOk(q: State) {
    true == (
      && Shape(q)
      && (forall i {:trigger DescOk(q, i)} | 0 <= i < NUM :: DescOk(q, i))
      && (forall h {:trigger ChainOk(q, h)} | h in q.chains :: ChainOk(q, h))
      && NumFree(q.free) + 3 * |q.chains| == NUM
      && OneRequestEach(q.chains)
      && (forall b | b in q.onDisk :: Busy(q.chains, b)))
  }

  /** The requests of one phase, oldest first. */
  ghost predicate QueueOk(chains: map<nat, Chain>, queue: seq<nat>, p: Phase) {
    && Distinct(queue)
    && (forall i | 0 <= i < |queue| :: queue[i] in chains && chains[queue[i]].phase == p)
    && (forall h {:trigger Queued(queue, h)} | h in chains && chains[h].phase == p :: Queued(queue, h))
  }

  ghost predicate Queued(queue: seq<nat>, h: nat) {
    exists i | 0 <= i < |queue| :: queue[i] == h
  }

  ghost predicate RingsOk(q: State) {
    && QueueOk(q.chains, q.posted, Posted) && QueueOk(q.chains, q.finished, Used)
    && q.availIdx == Mod16(q.seen + |q.posted|) && InRing(q.avail, q.seen, q.posted)
    && Mod8(q.usedId) == Mod8(q.usedIdx + |q.finished|) && InRing(q.used, q.usedIdx, q.finished)
  }

  ghost predicate Inv(q: State) {
    true == (TablesOk(q) && RingsOk(q))
  }

  /** At most two requests are in flight, so the rings are never near full. */
  lemma AtMostTwo(q: State)
    requires Inv(q)
    ensures |q.chains| <= 2 && |q.posted| <= |q.chains| && |q.finished| <= |q.chains|
  {
    QueueBound(q.posted, q.chains.Keys);
    QueueBound(q.finished, q.chains.Keys);
  }

  // ---------------------------------------------------------------- the steps

  /** Lines 218-248, with the descriptors `h`, `d`, `s` just allocated. */
  function Posting(q: State, h: nat, d: nat, s: nat, b: nat, r: Req): State
    requires Shape(q) && h < NUM && d < NUM && s < NUM && |q.avail| == NUM
  {
    q.(free := q.free[h := false][d := false][s := false],
       desc := q.desc[h := Desc(r.hdr, 16, false, true, d)][d := Desc(r.data, 1024, !r.write, true, s)]
                     [s := Desc(r.stat, 1, true, false, 0)],
       info := q.info[h := Info(Some(b), 0)], onDisk := q.onDisk + {b},
       avail := q.avail[Mod8(q.availIdx) := h], availIdx := Mod16(q.availIdx + 1),
       chains := q.chains[h := Chain(d, s, b, r, Posted)],
       owner := q.owner[h := Some(h)][d := Some(h)][s := Some(h)],
       posted := q.posted + [h])
  }

  /** The device reads the next entry of the avail ring. */
  function Fetching(q: State): State
    requires q.posted != [] && q.posted[0] in q.chains
  {
    var h := q.posted[0];
    q.(posted := q.posted[1..], seen := Mod16(q.seen + 1), chains := q.chains[h := q.chains[h].(phase := Taken)])
  }

  /** The device reports a request in the used ring. */
  function Reporting(q: State, h: nat, status: nat): State
    requires h in q.chains && h < |q.info| && |q.used| == NUM
  {
    q.(used := q.used[Mod8(q.usedId) := h], usedId := Mod16(q.usedId + 1),
       info := q.info[h := q.info[h].(status := status)],
       finished := q.finished + [h], chains := q.chains[h := q.chains[h].(phase := Used)])
  }

  /** Lines 269-277: the driver handles the next entry of the used ring. */
  function Handling(q: State): State
    requires q.finished != [] && q.finished[0] in q.chains
  {
    var h := q.finished[0];
    q.(onDisk := q.onDisk - {q.chains[h].b}, usedIdx := Mod8(q.usedIdx + 1),
       finished := q.finished[1..], chains := q.chains[h := q.chains[h].(phase := Done)])
  }

  /** Lines 257-258. */
  function Freeing(q: State, h: nat): State
    requires Shape(q) && h in q.chains && h < NUM && q.chains[h].d < NUM && q.chains[h].s < NUM
  {
    var d, s := q.chains[h].d, q.chains[h].s;
    q.(free := q.free[h := true][d := true][s := true],
       desc := q.desc[h := q.desc[h].(addr := 0)][d := q.desc[d].(addr := 0)][s := q.desc[s].(addr := 0)],
       info := q.info[h := q.info[h].(b := None)],
       chains := q.chains - {h}, owner := q.owner[h := None][d := None][s := None])
  }

  lemma NumFree3(free: seq<bool>, h: nat, d: nat, s: nat, v: bool)
    requires h < |free| && d < |free| && s < |free| && h != d && h != s && d != s
    requires free[h] == free[d] == free[s] == !v
    ensures NumFree(free[h := v][d := v][s := v]) == NumFree(free) + if v then 3 else -3
  {
    NumFreeUpdate(free, h, v);
    NumFreeUpdate(free[h := v], d, v);
    NumFreeUpdate(free[h := v][d := v], s, v);
  }

  lemma PostingDesc(q: State, t: State, h: nat, d: nat, s: nat, c: Chain, i: nat)
    requires TablesOk(q) && Shape(t) && h < NUM && d < NUM && s < NUM && h != d && h != s && d != s && i < NUM
    requires h !in q.chains && c.d == d && c.s == s && t.chains == q.chains[h := c]
    requires t.free == q.free[h := false][d := false][s := false]
    requires t.owner == q.owner[h := Some(h)][d := Some(h)][s := Some(h)]
    requires i != h && i != d && i != s ==> t.desc[i] == q.desc[i]
    requires i != h ==> t.info[i] == q.info[i]
    ensures DescOk(t, i)
  {
    assert DescOk(q, i);
  }

  lemma PostingChain(q: State, t: State, h: nat, d: nat, s: nat, g: nat)
    requires TablesOk(q) && Shape(t) && g in q.chains && h !in q.chains && g in t.chains && t.chains[g] == q.chains[g]
    requires h < NUM && d < NUM && s < NUM && q.free[h] && q.free[d] && q.free[s]
    requires forall i | 0 <= i < NUM && i != h && i != d && i != s ::
               t.desc[i] == q.desc[i] && t.owner[i] == q.owner[i] && t.info[i] == q.info[i]
    requires q.chains[g].b in t.onDisk <==> q.chains[g].b in q.onDisk
    ensures ChainOk(t, g)
  {
    assert ChainOk(q, g) && DescOk(q, h) && DescOk(q, d) && DescOk(q, s);
  }

  lemma PostingDescs(q: State, h: nat, d: nat, s: nat, b: nat, r: Req, t: State)
    requires TablesOk(q) && |q.avail| == NUM && h < NUM && d < NUM && s < NUM && h != d && h != s && d != s
    requires h !in q.chains && t == Posting(q, h, d, s, b, r)
    ensures forall i {:trigger DescOk(t, i)} | 0 <= i < NUM :: DescOk(t, i)
  {
    forall i | 0 <= i < NUM
      ensures DescOk(t, i)
    {
      PostingDesc(q, t, h, d, s, t.chains[h], i);
    }
  }

  lemma PostingChains(q: State, h: nat, d: nat, s: nat, b: nat, r: Req, t: State)
    requires TablesOk(q) && |q.avail| == NUM && h < NUM && d < NUM && s < NUM && h != d && h != s && d != s
    requires q.free[h] && q.free[d] && q.free[s] && h !in q.chains
    requires (forall g | g in q.chains :: q.chains[g].b != b) && t == Posting(q, h, d, s, b, r)
    ensures forall g {:trigger ChainOk(t, g)} | g in t.chains :: ChainOk(t, g)
  {
    forall g | g in t.chains
      ensures ChainOk(t, g)
    {
      if g != h { PostingChain(q, t, h, d, s, g); }
    }
  }

  lemma PostingTables(q: State, h: nat, d: nat, s: nat, b: nat, r: Req)
    requires TablesOk(q) && |q.avail| == NUM && h < NUM && d < NUM && s < NUM && h != d && h != s && d != s
    requires q.free[h] && q.free[d] && q.free[s]
    requires b !in q.onDisk && forall g | g in q.chains :: q.chains[g].b != b
    ensures h !in q.chains && TablesOk(Posting(q, h, d, s, b, r))
  {
    var t := Posting(q, h, d, s, b, r);
    NumFree3(q.free, h, d, s, false);
    assert DescOk(q, h);
    assert h in q.chains ==> ChainOk(q, h);
    OneRequestMore(q.chains, h, t.chains[h]);
    PostingDescs(q, h, d, s, b, r, t);
    PostingChains(q, h, d, s, b, r, t);
    forall x | x in t.onDisk
      ensures Busy(t.chains, x)
    {
      if x == b { assert BusyAt(t.chains, h, b); } else { BusyMore(q.chains, h, t.chains[h], x); }
    }
  }

  lemma PostingRings(q: State, h: nat, d: nat, s: nat, b: nat, r: Req)
    requires Inv(q) && h < NUM && d < NUM && s < NUM && h !in q.chains
    ensures RingsOk(Posting(q, h, d, s, b, r))
  {
    AtMostTwo(q);
    Mod16Of8(q.seen + |q.posted|);
    RingPush(q.avail, q.seen, q.posted, q.availIdx, h);
    Mod16Next(q.seen + |q.posted|);
    Enqueue(q.chains, q.posted, Posted, h, Chain(d, s, b, r, Posted));
    OtherQueue(q.chains, q.finished, Used, h, Chain(d, s, b, r, Posted));
  }

  lemma Mod16Next(x: nat)
    ensures Mod16(Mod16(x) + 1) == Mod16(x + 1)
  {
  }

  lemma Enqueue(chains: map<nat, Chain>, queue: seq<nat>, p: Phase, h: nat, c: Chain)
    requires QueueOk(chains, queue, p) && c.phase == p && (h in chains ==> chains[h].phase != p)
    ensures QueueOk(chains[h := c], queue + [h], p)
  {
    var all := queue + [h];
    forall g | g in chains[h := c] && chains[h := c][g].phase == p
      ensures Queued(all, g)
    {
      if g == h {
        assert all[|queue|] == h;
      } else {
        assert Queued(queue, g);
        var i :| 0 <= i < |queue| && queue[i] == g;
        assert all[i] == g;
      }
    }
  }

  lemma Dequeue(chains: map<nat, Chain>, queue: seq<nat>, p: Phase, c: Chain)
    requires QueueOk(chains, queue, p) && queue != [] && c.phase != p
    ensures QueueOk(chains[queue[0] := c], queue[1..], p)
  {
    var h, rest := queue[0], queue[1..];
    forall g | g in chains[h := c] && chains[h := c][g].phase == p
      ensures Queued(rest, g)
    {
      assert Queued(queue, g);
      var i :| 0 <= i < |queue| && queue[i] == g;
      assert rest[i - 1] == g;
    }
  }

  lemma OtherQueue(chains: map<nat, Chain>, queue: seq<nat>, p: Phase, h: nat, c: Chain)
    requires QueueOk(chains, queue, p) && c.phase != p && (h in chains ==> chains[h].phase != p)
    ensures QueueOk(chains[h := c], queue, p)
  {
  }

  /** A step that only moves a request from one phase to another keeps the tables. */
  lemma PhaseTables(q: State, t: State, h: nat)
    requires TablesOk(q) && Shape(t) && h in q.chains && h in t.chains
    requires t.free == q.free && t.desc == q.desc && t.owner == q.owner
    requires t.chains == q.chains[h := q.chains[h].(phase := t.chains[h].phase)]
    requires forall i | 0 <= i < NUM && i != h :: t.info[i] == q.info[i]
    requires h < NUM && t.info[h].b == q.info[h].b && (Waiting(t.chains[h].phase) ==> t.info[h].status == 0)
    requires q.chains[h].b in t.onDisk <==> t.chains[h].phase != Done
    requires forall x | x != q.chains[h].b :: x in t.onDisk <==> x in q.onDisk
    ensures TablesOk(t)
  {
    assert t.chains.Keys == q.chains.Keys && |t.chains| == |q.chains|;
    forall g | g in q.chains && g != h
      ensures q.chains[g].b != q.chains[h].b
    {
      assert BuffersApart(q.chains, g, h);
    }
    OneRequestMore(q.chains, h, t.chains[h]);
    forall i | 0 <= i < NUM
      ensures DescOk(t, i)
    {
      assert DescOk(q, i);
    }
    forall g | g in t.chains
      ensures ChainOk(t, g)
    {
      assert ChainOk(q, g);
    }
    forall b | b in t.onDisk
      ensures Busy(t.chains, b)
    {
      if b == q.chains[h].b { assert BusyAt(t.chains, h, b); } else { BusyMore(q.chains, h, t.chains[h], b); }
    }
  }

  lemma FetchingInv(q: State)
    requires Inv(q) && q.posted != []
    ensures q.avail[Mod8(q.seen)] == q.posted[0] && Inv(Fetching(q))
  {
    var t, h := Fetching(q), q.posted[0];
    AtMostTwo(q);
    assert ChainOk(q, h);
    PhaseTables(q, t, h);
    Mod16Of8(q.seen + 1);
    RingPop(q.avail, q.seen, q.posted, t.seen);
    Mod16Shift(q.seen, |q.posted|);
    Dequeue(q.chains, q.posted, Posted, t.chains[h]);
    OtherQueue(q.chains, q.finished, Used, h, t.chains[h]);
  }

  lemma Mod16Shift(x: nat, n: nat)
    requires n > 0
    ensures Mod16(Mod16(x + 1) + (n - 1)) == Mod16(x + n)
  {
  }

  lemma ReportingInv(q: State, h: nat, status: nat)
    requires Inv(q) && h in q.chains && q.chains[h].phase == Taken
    ensures h < NUM && Inv(Reporting(q, h, status))
  {
    assert ChainOk(q, h);
    var t := Reporting(q, h, status);
    AtMostTwo(q);
    PhaseTables(q, t, h);
    RingPush(q.used, q.usedIdx, q.finished, q.usedId, h);
    Mod16Of8(q.usedId + 1);
    Mod8Next(q.usedId, q.usedIdx + |q.finished|, 1);
    Enqueue(q.chains, q.finished, Used, h, t.chains[h]);
    OtherQueue(q.chains, q.posted, Posted, h, t.chains[h]);
  }

  lemma HandlingInv(q: State)
    requires Inv(q) && q.finished != []
    ensures q.used[q.usedIdx] == q.finished[0] && q.finished[0] < NUM && Inv(Handling(q))
  {
    var t, h := Handling(q), q.finished[0];
    AtMostTwo(q);
    assert ChainOk(q, h);
    PhaseTables(q, t, h);
    RingPop(q.used, q.usedIdx, q.finished, t.usedIdx);
    Mod8Next(t.usedIdx, q.usedIdx + 1, |t.finished|);
    Dequeue(q.chains, q.finished, Used, t.chains[h]);
    OtherQueue(q.chains, q.posted, Posted, h, t.chains[h]);
  }

  ghost predicate AnyError(info: seq<Info>, finished: seq<nat>) {
    exists i | 0 <= i < |finished| :: finished[i] < |info| && info[finished[i]].status != 0
  }

  lemma ErrorsLeft(info: seq<Info>, finished: seq<nat>)
    requires finished != []
    ensures AnyError(info, finished) <==>
            (finished[0] < |info| && info[finished[0]].status != 0) || AnyError(info, finished[1..])
  {
    var rest := finished[1..];
    if AnyError(info, finished) {
      var i :| 0 <= i < |finished| && finished[i] < |info| && info[finished[i]].status != 0;
      if i > 0 { assert rest[i - 1] == finished[i]; }
    }
    if AnyError(info, rest) {
      var i :| 0 <= i < |rest| && rest[i] < |info| && info[rest[i]].status != 0;
      assert finished[i + 1] == rest[i];
    }
  }

  /** The state when every reported completion has been handled. */
  ghost function Drained(q: State): State
    requires Inv(q)
    decreases |q.finished|
  {
    if q.finished == [] then q
    else
      HandlingInv(q);
      Drained(Handling(q))
  }

  /** No completion is missed: what was in the used ring is done, all else is as it was. */
  lemma {:induction false} DrainedIs(q: State)
    requires Inv(q)
    ensures var t := Drained(q);
            && Inv(t) && t.finished == [] && t.chains.Keys == q.chains.Keys && t.free == q.free && t.posted == q.posted
            && forall h | h in q.chains ::
                 t.chains[h] == if q.chains[h].phase == Used then q.chains[h].(phase := Done) else q.chains[h]
    decreases |q.finished|
  {
    if q.finished == [] {
      forall h | h in q.chains
        ensures q.chains[h].phase != Used
      {
        assert q.chains[h].phase == Used ==> Queued(q.finished, h);
      }
    } else {
      HandlingInv(q);
      DrainedIs(Handling(q));
      assert Handling(q).chains.Keys == q.chains.Keys;
    }
  }

  lemma FreeingTables(q: State, h: nat)
    requires TablesOk(q) && h in q.chains && q.chains[h].phase == Done
    ensures ChainOk(q, h) && TablesOk(Freeing(q, h))
  {
    assert ChainOk(q, h);
    var t, d, s := Freeing(q, h), q.chains[h].d, q.chains[h].s;
    assert DescOk(q, h) && DescOk(q, d) && DescOk(q, s);
    NumFree3(q.free, h, d, s, true);
    assert |t.chains| == |q.chains| - 1 by {
      assert q.chains == t.chains[h := q.chains[h]];
    }
    OneRequestLess(q.chains, h);
    forall i | 0 <= i < NUM
      ensures DescOk(t, i)
    {
      FreeingDesc(q, t, h, d, s, i);
    }
    forall g | g in t.chains
      ensures ChainOk(t, g)
    {
      FreeingChain(q, t, h, d, s, g);
    }
    forall b | b in t.onDisk
      ensures Busy(t.chains, b)
    {
      var g :| BusyAt(q.chains, g, b);
      assert BusyAt(t.chains, g, b);
    }
  }

  lemma OneRequestLess(chains: map<nat, Chain>, h: nat)
    requires OneRequestEach(chains)
    ensures OneRequestEach(chains - {h})
  {
    var t := chains - {h};
    forall f, g | f in t && g in t
      ensures BuffersApart(t, f, g)
    {
      assert BuffersApart(chains, f, g);
    }
  }

  lemma FreeingDesc(q: State, t: State, h: nat, d: nat, s: nat, i: nat)
    requires TablesOk(q) && Shape(t) && h < NUM && d < NUM && s < NUM && i < NUM
    requires h in q.chains && q.chains[h].d == d && q.chains[h].s == s && t.chains == q.chains - {h}
    requires t.free == q.free[h := true][d := true][s := true] && t.owner == q.owner[h := None][d := None][s := None]
    requires if i == h || i == d || i == s then t.desc[i].addr == 0 else t.desc[i] == q.desc[i]
    requires if i == h then t.info[i].b == None else t.info[i] == q.info[i]
    ensures DescOk(t, i)
  {
    assert DescOk(q, i);
  }

  lemma FreeingChain(q: State, t: State, h: nat, d: nat, s: nat, g: nat)
    requires TablesOk(q) && Shape(t) && g in q.chains && g != h && g in t.chains && t.chains[g] == q.chains[g]
    requires h < NUM && d < NUM && s < NUM && q.owner[h] == q.owner[d] == q.owner[s] == Some(h)
    requires forall i | 0 <= i < NUM && i != h && i != d && i != s ::
               t.desc[i] == q.desc[i] && t.owner[i] == q.owner[i] && t.info[i] == q.info[i]
    requires t.onDisk == q.onDisk
    ensures ChainOk(t, g)
  {
    assert ChainOk(q, g);
  }

  lemma FreeingInv(q: State, h: nat)
    requires Inv(q) && h in q.chains && q.chains[h].phase == Done
    ensures ChainOk(q, h) && Inv(Freeing(q, h))
  {
    FreeingTables(q, h);
    QueueWithout(q.chains, q.posted, Posted, h);
    QueueWithout(q.chains, q.finished, Used, h);
  }

  lemma QueueWithout(chains: map<nat, Chain>, queue: seq<nat>, p: Phase, h: nat)
    requires QueueOk(chains, queue, p) && h in chains && chains[h].phase != p
    ensures QueueOk(chains - {h}, queue, p)
  {
  }

  // ---------------------------------------------------------------- the driver

  class Disk {
    var free: seq<bool>
    var desc: seq<Desc>
    var info: seq<Info>
    var onDisk: set<nat>
    var avail: seq<nat>
    var availIdx: nat
    var used: seq<nat>
    var usedId: nat
    var usedIdx: nat
    var seen: nat                 // the device's own index into the avail ring
    ghost var q: State

    /** The fields are those of `t`. */
    ghost predicate Holds(t: State)
      reads this
    {
      && t.free == free && t.desc == desc && t.info == info && t.onDisk == onDisk
      && t.avail == avail && t.availIdx == availIdx && t.used == used && t.usedId == usedId && t.usedIdx == usedIdx
      && t.seen == seen
    }

    ghost predicate Valid()
      reads this
    {
      Inv(q) && Holds(q)
    }

    constructor ()
      ensures Valid() && q.chains == map[] && onDisk == {}
    {
      free := seq(NUM, _ => true);
      desc := seq(NUM, _ => Desc(0, 0, false, false, 0));
      info := seq(NUM, _ => Info(None, 0));
      onDisk := {};
      avail, availIdx, used, usedId, usedIdx, seen := seq(NUM, _ => 0), 0, seq(NUM, _ => 0), 0, 0, 0;
      q := State(seq(NUM, _ => true), seq(NUM, _ => Desc(0, 0, false, false, 0)), seq(NUM, _ => Info(None, 0)), {},
                 seq(NUM, _ => 0), 0, seq(NUM, _ => 0), 0, 0, map[], seq(NUM, _ => None), [], 0, []);
      new;
      AllFree(NUM);
      assert free == seq(NUM, _ => true);
    }

    // ---------------------------------------------------------------- descriptors

    method AllocDesc() returns (r: Option<nat>)
      requires |free| == NUM
      modifies this`free
      ensures r.None? <==> forall i | 0 <= i < NUM :: !old(free)[i]
      ensures r.None? ==> free == old(free)
      ensures r.Some? ==> r.value < NUM && old(free)[r.value] && free == old(free)[r.value := false]
    {
      var i := 0;
      while i < NUM
        invariant i <= NUM && free == old(free) && forall j | 0 <= j < i :: !free[j]
      {
        if free[i] {
          free := free[i := false];
          return Some(i);
        }
        i := i + 1;
      }
      return None;
    }

    /** The panics of lines 145 and 147 are this method's precondition. */
    method FreeDesc(i: nat)
      requires |free| == |desc| == NUM && i < NUM && !free[i]
      modifies this`free, this`desc
      ensures free == old(free)[i := true] && desc == old(desc)[i := old(desc)[i].(addr := 0)]
    {
      desc := desc[i := desc[i].(addr := 0)];
      free := free[i := true];
    }

    /** All three, or none of them. */
    method Alloc3() returns (ok: bool, idx: seq<nat>)
      requires |free| == |desc| == NUM && forall i | 0 <= i < NUM && free[i] :: desc[i].addr == 0
      modifies this`free, this`desc
      ensures desc == old(desc) && (ok <==> NumFree(old(free)) >= 3)
      ensures !ok ==> free == old(free)
      ensures ok ==> |idx| == 3 && Distinct(idx) && (forall i | 0 <= i < 3 :: idx[i] < NUM && old(free)[idx[i]])
      ensures ok ==> free == old(free)[idx[0] := false][idx[1] := false][idx[2] := false]
      ensures ok ==> NumFree(free) == NumFree(old(free)) - 3
    {
      idx := [];
      while |idx| < 3
        invariant |idx| <= 3 && Distinct(idx) && |free| == NUM && desc == old(desc)
        invariant forall i | 0 <= i < |idx| :: idx[i] < NUM && old(free)[idx[i]]
        invariant forall k | 0 <= k < NUM :: free[k] <==> old(free)[k] && k !in idx
        invariant NumFree(free) + |idx| == NumFree(old(free))
        decreases 3 - |idx|
      {
        ghost var was := free;
        NumFreeZero(free);
        var r := AllocDesc();
        if r.None? {
          Rollback(idx, old(free));
          return false, [];
        }
        NumFreeUpdate(was, r.value, false);
        idx := idx + [r.value];
      }
      ok := true;
    }

    /** Lines 172-174. */
    method Rollback(idx: seq<nat>, ghost all: seq<bool>)
      requires |free| == |desc| == |all| == NUM && Distinct(idx)
      requires forall i | 0 <= i < |idx| :: idx[i] < NUM && all[idx[i]] && desc[idx[i]].addr == 0
      requires forall k | 0 <= k < NUM :: free[k] <==> all[k] && k !in idx
      modifies this`free, this`desc
      ensures free == all && desc == old(desc)
    {
      var j := 0;
      while j < |idx|
        invariant j <= |idx| && |free| == NUM && desc == old(desc)
        invariant forall k | 0 <= k < NUM :: free[k] <==> all[k] && k !in idx[j..]
      {
        FreeDesc(idx[j]);
        assert idx[j..] == [idx[j]] + idx[j + 1..];
        assert idx[j] !in idx[j + 1..];
        j := j + 1;
      }
    }

    /** `free_chain` of a chain of three: it ends, and neither panic is reached. */
    method FreeChain(h: nat, ghost d: nat, ghost s: nat)
      requires |free| == |desc| == NUM && h < NUM && d < NUM && s < NUM && h != d && h != s && d != s
      requires !free[h] && !free[d] && !free[s]
      requires desc[h].hasNext && desc[h].next == d && desc[d].hasNext && desc[d].next == s && !desc[s].hasNext
      modifies this`free, this`desc
      ensures free == old(free)[h := true][d := true][s := true]
      ensures desc == old(desc)[h := old(desc)[h].(addr := 0)][d := old(desc)[d].(addr := 0)]
                               [s := old(desc)[s].(addr := 0)]
    {
      var i := h;
      ghost var n := 3;
      while true
        invariant |free| == |desc| == NUM && 1 <= n <= 3 && i == (if n == 3 then h else if n == 2 then d else s)
        invariant n == 3 ==> free == old(free) && desc == old(desc)
        invariant n == 2 ==> free == old(free)[h := true] && desc == old(desc)[h := old(desc)[h].(addr := 0)]
        invariant n == 1 ==> free == old(free)[h := true][d := true]
        invariant n == 1 ==> desc == old(desc)[h := old(desc)[h].(addr := 0)][d := old(desc)[d].(addr := 0)]
        decreases n
      {
        FreeDesc(i);
        if !desc[i].hasNext { break; }
        i := desc[i].next;
        n := n - 1;
      }
    }

    // ---------------------------------------------------------------- requests

    /** `virtio_disk_rw` up to its wait: a request is posted exactly when fewer than two are in
        flight; otherwise nothing changes and the caller sleeps. From the first descriptor the device
        finds the header, which it reads, the data, which it reads or writes, and the status byte. */
    method Submit(b: nat, r: Req) returns (ok: bool, h: nat)
      requires Valid() && b !in onDisk && forall g | g in q.chains :: q.chains[g].b != b
      modifies this
      ensures Valid() && (ok <==> |old(q).chains| < 2) && (!ok ==> q == old(q))
      ensures ok ==> h < NUM && h !in old(q).chains && h in q.chains && q.chains[h].d < NUM && q.chains[h].s < NUM
      ensures ok ==> q == Posting(old(q), h, q.chains[h].d, q.chains[h].s, b, r)
      ensures ok ==> Describes(desc, h, r)
      ensures ok ==> info[h] == Info(Some(b), 0) && onDisk == old(onDisk) + {b}
      ensures ok ==> avail[old(availIdx) % 8] == h && availIdx == (old(availIdx) + 1) % 0x1_0000
    {
      AtMostTwo(q);
      forall i | 0 <= i < NUM && free[i]
        ensures desc[i].addr == 0
      {
        assert DescOk(q, i);
      }
      var idx: seq<nat>;
      ok, idx := Alloc3();
      h := 0;
      if !ok { return; }
      h := idx[0];
      PostChain(h, idx[1], idx[2], b, r);
    }

    method PostChain(h: nat, d: nat, s: nat, b: nat, r: Req)
      requires Inv(q) && h < NUM && d < NUM && s < NUM && h != d && h != s && d != s
      requires q.free[h] && q.free[d] && q.free[s] && Holds(q.(free := q.free[h := false][d := false][s := false]))
      requires b !in q.onDisk && forall g | g in q.chains :: q.chains[g].b != b
      modifies this`desc, this`info, this`onDisk, this`avail, this`availIdx, this`q
      ensures Valid() && h !in old(q).chains && q == Posting(old(q), h, d, s, b, r) && Describes(desc, h, r)
    {
      PostingTables(q, h, d, s, b, r);
      PostingRings(q, h, d, s, b, r);
      Post(h, d, s, b, r);
      q := Posting(q, h, d, s, b, r);
      ChainDescribes(q, h);
    }

    /** Lines 218-248. */
    method Post(h: nat, d: nat, s: nat, b: nat, r: Req)
      requires Shape(q) && h < NUM && d < NUM && s < NUM && |q.avail| == NUM
      requires Holds(q.(free := q.free[h := false][d := false][s := false]))
      modifies this`desc, this`info, this`onDisk, this`avail, this`availIdx
      ensures Holds(Posting(q, h, d, s, b, r))
    {
      desc := desc[h := Desc(r.hdr, 16, false, true, d)];
      desc := desc[d := Desc(r.data, 1024, !r.write, true, s)];
      desc := desc[s := Desc(r.stat, 1, true, false, 0)];
      info := info[h := Info(Some(b), 0)];
      onDisk := onDisk + {b};
      avail := avail[Mod8(availIdx) := h];
      availIdx := Mod16(availIdx + 1);
    }

    /** The device takes the oldest entry it has not seen: always the request that was posted. */
    method DeviceFetch() returns (h: nat)
      requires Valid() && q.posted != []
      modifies this`q, this`seen
      ensures Valid() && h == old(q).posted[0] && q == Fetching(old(q))
    {
      FetchingInv(q);
      h := avail[Mod8(seen)];
      seen := Mod16(seen + 1);
      q := Fetching(q);
    }

    /** The device completes any request it has taken. */
    method DeviceReport(h: nat, status: nat)
      requires Valid() && h in q.chains && q.chains[h].phase == Taken
      modifies this`used, this`usedId, this`info, this`q
      ensures Valid() && h < |old(q).info| && q == Reporting(old(q), h, status)
      ensures info[h].status == status && forall i | 0 <= i < NUM && i != h :: info[i] == old(info)[i]
    {
      ReportingInv(q, h, status);
      used := used[Mod8(usedId) := h];
      usedId := Mod16(usedId + 1);
      info := info[h := info[h].(status := status)];
      q := Reporting(q, h, status);
    }

    /** In the middle of an interrupt that began in `was`. */
    ghost predicate Draining(was: State)
      requires Inv(was)
      reads this
    {
      true == (
        && Valid() && (Mod8(usedIdx) != Mod8(usedId) <==> q.finished != [])
        && (AnyError(info, q.finished) <==> AnyError(info, was.finished)) && Drained(q) == Drained(was))
    }

    lemma SeesFinished()
      requires Valid()
      ensures Mod8(usedIdx) != Mod8(usedId) <==> q.finished != []
    {
      AtMostTwo(q);
      UsedTest(usedIdx, usedId, |q.finished|);
    }

    /** `virtio_disk_intr`: handles every completion the device has reported; `panicked` exactly
        when one of them carries an error status. */
    method Intr() returns (panicked: bool)
      requires Valid()
      modifies this`onDisk, this`usedIdx, this`q
      ensures Valid() && (panicked <==> AnyError(info, old(q).finished))
      ensures !panicked ==> q == Drained(old(q))
    {
      SeesFinished();
      while Mod8(usedIdx) != Mod8(usedId)
        invariant Draining(old(q))
        decreases |q.finished|
      {
        panicked := HandleNext(old(q));
        if panicked { return; }
      }
      panicked := false;
    }

    method HandleNext(ghost was: State) returns (panicked: bool)
      requires Inv(was) && Draining(was) && q.finished != []
      modifies this`onDisk, this`usedIdx, this`q
      ensures panicked ==> true == Valid() && AnyError(info, was.finished)
      ensures !panicked ==> Draining(was) && |q.finished| < |old(q).finished|
    {
      ErrorsLeft(info, q.finished);
      panicked := HandleOne();
      if !panicked { SeesFinished(); }
    }

    /** Lines 269-277. */
    method HandleOne() returns (panicked: bool)
      requires Valid() && q.finished != []
      modifies this`onDisk, this`usedIdx, this`q
      ensures Valid() && old(q).finished[0] < NUM && old(q).finished[0] in old(q).chains
      ensures panicked <==> info[old(q).finished[0]].status != 0
      ensures panicked ==> q == old(q)
      ensures !panicked ==> q == Handling(old(q))
    {
      HandlingInv(q);
      var id := used[usedIdx];
      assert ChainOk(q, id);
      if info[id].status != 0 { return true; }
      onDisk := onDisk - {info[id].b.value};
      usedIdx := Mod8(usedIdx + 1);
      q := Handling(q);
      panicked := false;
    }

    /** `virtio_disk_rw` after its wait. */
    method Finish(h: nat)
      requires Valid() && h in q.chains && q.chains[h].phase == Done
      modifies this
      ensures Valid() && ChainOk(old(q), h) && q == Freeing(old(q), h)
    {
      FreeingInv(q, h);
      assert DescOk(q, h) && DescOk(q, q.chains[h].d) && DescOk(q, q.chains[h].s);
      info := info[h := info[h].(b := None)];
      FreeChain(h, q.chains[h].d, q.chains[h].s);
      q := Freeing(q, h);
    }
  }
}
