/** Every interleaving of requests, device steps and interrupts of kernel/virtio_disk.c. */
module VirtioRuns {
  import opened Options
  import opened Virtio

  /** A request is posted, fetched and reported by the device, handled by the interrupt handler,
      and freed by the process that waited for it. */
  datatype Step =
    | Post(h: nat, d: nat, s: nat, b: nat, r: Req)
    | Fetch
    | Report(h: nat, status: nat)
    | Handle
    | Free(h: nat)

  ghost predicate Enabled(q: State, e: Step) {
    match e
    case Post(h, d, s, b, _) =>
      && Shape(q) && |q.avail| == NUM && h < NUM && d < NUM && s < NUM && h != d && h != s && d != s
      && q.free[h] && q.free[d] && q.free[s] && b !in q.onDisk && forall g | g in q.chains :: q.chains[g].b != b
    case Fetch => q.posted != [] && q.posted[0] in q.chains
    case Report(h, _) => h in q.chains && q.chains[h].phase == Taken && h < |q.info| && |q.used| == NUM
    case Handle => q.finished != [] && q.finished[0] in q.chains
    case Free(h) =>
      Shape(q) && h in q.chains && q.chains[h].phase == Done && h < NUM && q.chains[h].d < NUM && q.chains[h].s < NUM
  }

  ghost function Apply(q: State, e: Step): State
    requires Enabled(q, e)
  {
    match e
    case Post(h, d, s, b, r) => Posting(q, h, d, s, b, r)
    case Fetch => Fetching(q)
    case Report(h, status) => Reporting(q, h, status)
    case Handle => Handling(q)
    case Free(h) => Freeing(q, h)
  }

  lemma StepKeepsInv(q: State, e: Step)
    requires Inv(q) && Enabled(q, e)
    ensures Inv(Apply(q, e))
  {
    match e
    case Post(h, d, s, b, r) =>
      PostingTables(q, h, d, s, b, r);
      PostingRings(q, h, d, s, b, r);
    case Fetch => FetchingInv(q);
    case Report(h, status) => ReportingInv(q, h, status);
    case Handle => HandlingInv(q);
    case Free(h) => FreeingInv(q, h);
  }

  ghost predicate Reaches(q: State, run: seq<Step>, t: State)
    decreases |run|
  {
    if run == [] then t == q else Enabled(q, run[0]) && Reaches(Apply(q, run[0]), run[1..], t)
  }

  function Boot(): State {
    State(seq(NUM, _ => true), seq(NUM, _ => Desc(0, 0, false, false, 0)), seq(NUM, _ => Info(None, 0)), {},
          seq(NUM, _ => 0), 0, seq(NUM, _ => 0), 0, 0, map[], seq(NUM, _ => None), [], 0, [])
  }

  lemma {:induction false} RunKeepsInv(q: State, run: seq<Step>, t: State)
    requires Inv(q) && Reaches(q, run, t)
    ensures Inv(t)
    decreases |run|
  {
    if run != [] {
      StepKeepsInv(q, run[0]);
      RunKeepsInv(Apply(q, run[0]), run[1..], t);
    }
  }

  /** Descriptor `i` is one of the three of the request `h`. */
  predicate Owns(q: State, h: nat, i: nat) {
    h in q.chains && (i == h || i == q.chains[h].d || i == q.chains[h].s)
  }

  /** The three descriptors of a request, in use and linked in order: what `free_chain` needs. */
  predicate ThreeLinked(q: State, h: nat) {
    h in q.chains ==>
      var c := q.chains[h];
      && |q.free| == |q.desc| == NUM && h < NUM && c.d < NUM && c.s < NUM && h != c.d && h != c.s && c.d != c.s
      && !q.free[h] && !q.free[c.d] && !q.free[c.s]
      && q.desc[h].hasNext && q.desc[h].next == c.d && q.desc[c.d].hasNext && q.desc[c.d].next == c.s
      && !q.desc[c.s].hasNext
  }

  lemma ChainIsLinked(q: State, h: nat)
    requires Inv(q)
    ensures ThreeLinked(q, h)
  {
    if h in q.chains {
      assert ChainOk(q, h);
      assert DescOk(q, h) && DescOk(q, q.chains[h].d) && DescOk(q, q.chains[h].s);
    }
  }

  lemma OwnerIs(q: State, h: nat, i: nat)
    requires Inv(q) && i < NUM
    ensures Owns(q, h, i) ==> !q.free[i] && q.owner[i] == Some(h)
    ensures !q.free[i] ==> q.owner[i].Some? && Owns(q, q.owner[i].value, i)
  {
    assert DescOk(q, i);
    if h in q.chains { assert ChainOk(q, h); }
  }

  /** The descriptors are partitioned into free ones and chains. */
  ghost predicate Partitioned(q: State) {
    && |q.free| == NUM
    && (forall i | 0 <= i < NUM :: q.free[i] <==> !exists h :: Owns(q, h, i))
    && (forall g, h, i | 0 <= i < NUM && Owns(q, g, i) && Owns(q, h, i) :: g == h)
  }

  lemma InvPartitions(q: State)
    requires Inv(q)
    ensures Partitioned(q)
  {
    forall i: nat, h: nat | i < NUM
      ensures Owns(q, h, i) ==> !q.free[i] && q.owner[i] == Some(h)
    {
      OwnerIs(q, h, i);
    }
    forall i: nat | i < NUM && !q.free[i]
      ensures q.owner[i].Some? && Owns(q, q.owner[i].value, i)
    {
      OwnerIs(q, 0, i);
    }
  }

  lemma BootInv()
    ensures Inv(Boot())
  {
    AllFree(NUM);
  }

  /** The descriptors are partitioned into free ones and linked chains of three, that describe their
      requests to the device; at most two requests are in flight; the buffers on the disk are those
      of the requests not yet handled; and the interrupt handler's test sees every completion. */
  ghost predicate Safe(q: State) {
    && Partitioned(q) && |q.chains| <= 2
    && (forall h {:trigger ThreeLinked(q, h)} | h in q.chains :: ThreeLinked(q, h))
    && (forall h | h in q.chains :: Describes(q.desc, h, q.chains[h].r))
    && (forall b :: b in q.onDisk <==> Busy(q.chains, b))
    && (Mod8(q.usedIdx) != Mod8(q.usedId) <==> q.finished != [])
  }

  lemma InvSafe(q: State)
    requires Inv(q)
    ensures Safe(q)
  {
    AtMostTwo(q);
    InvPartitions(q);
    UsedTest(q.usedIdx, q.usedId, |q.finished|);
    forall h | h in q.chains
      ensures ThreeLinked(q, h) && Describes(q.desc, h, q.chains[h].r)
    {
      ChainIsLinked(q, h);
      ChainDescribes(q, h);
    }
    forall b | Busy(q.chains, b)
      ensures b in q.onDisk
    {
      var h :| BusyAt(q.chains, h, b);
      assert ChainOk(q, h);
    }
  }

  /** Every reachable state is safe. */
  lemma RunsAreSafe(run: seq<Step>, t: State)
    requires Reaches(Boot(), run, t)
    ensures Safe(t)
  {
    BootInv();
    RunKeepsInv(Boot(), run, t);
    InvSafe(t);
  }

  // ---------------------------------------------------------------- progress

  lemma StepThen(q: State, e: Step, run: seq<Step>, t: State)
    requires Enabled(q, e) && Reaches(Apply(q, e), run, t)
    ensures Reaches(q, [e] + run, t)
  {
    var all := [e] + run;
    assert all[0] == e && all[1..] == run;
  }

  /** How far a request still is from having been handled: its phase, and those before it in a queue. */
  function ToGo(q: State, h: nat): nat
    requires h in q.chains
  {
    match q.chains[h].phase
    case Posted => 100 + 10 * |q.posted|
    case Taken => 100
    case Used => 1 + |q.finished|
    case Done => 0
  }

  /** The next step on the way of request `h`. */
  function NextFor(q: State, h: nat): Step
    requires h in q.chains
  {
    match q.chains[h].phase
    case Posted => Fetch
    case Taken => Report(h, 0)
    case Used => Handle
    case Done => Free(h)
  }

  lemma NextStep(q: State, h: nat)
    requires Inv(q) && h in q.chains && q.chains[h].phase != Done
    ensures Enabled(q, NextFor(q, h)) && Inv(Apply(q, NextFor(q, h)))
    ensures var t := Apply(q, NextFor(q, h)); h in t.chains && t.chains[h].b == q.chains[h].b && ToGo(t, h) < ToGo(q, h)
  {
    AtMostTwo(q);
    assert ChainOk(q, h);
    assert q.chains[h].phase == Posted ==> Queued(q.posted, h);
    assert q.chains[h].phase == Used ==> Queued(q.finished, h);
    StepKeepsInv(q, NextFor(q, h));
  }

  lemma {:induction false} CanComplete(q: State, h: nat) returns (run: seq<Step>, t: State)
    requires Inv(q) && h in q.chains
    ensures Reaches(q, run, t) && Inv(t) && h !in t.chains
    decreases ToGo(q, h)
  {
    var e := NextFor(q, h);
    if q.chains[h].phase == Done {
      FreeingInv(q, h);
      run, t := [], Apply(q, e);
    } else {
      NextStep(q, h);
      run, t := CanComplete(Apply(q, e), h);
    }
    StepThen(q, e, run, t);
    run := [e] + run;
  }

  /** No request is ever stuck: from every reachable state the device and the handler can go on so that
      the process waiting for it gives its three descriptors back. */
  lemma RequestCompletes(start: seq<Step>, q: State, h: nat) returns (run: seq<Step>, t: State)
    requires Reaches(Boot(), start, q) && h in q.chains
    ensures Reaches(q, run, t) && h !in t.chains
  {
    BootInv();
    RunKeepsInv(Boot(), start, q);
    run, t := CanComplete(q, h);
  }

  lemma {:induction false} ThreeFree(free: seq<bool>) returns (h: nat, d: nat, s: nat)
    requires NumFree(free) >= 3
    ensures h < |free| && d < |free| && s < |free| && h != d && h != s && d != s && free[h] && free[d] && free[s]
  {
    NumFreeZero(free);
    h :| 0 <= h < |free| && free[h];
    var f := free[h := false];
    NumFreeUpdate(free, h, false);
    NumFreeZero(f);
    d :| 0 <= d < |f| && f[d];
    var g := f[d := false];
    NumFreeUpdate(f, d, false);
    NumFreeZero(g);
    s :| 0 <= s < |g| && g[s];
  }

  lemma FreeThree(free: seq<bool>, h: nat, d: nat, s: nat)
    requires h < |free| && d < |free| && s < |free| && h != d && h != s && d != s && free[h] && free[d] && free[s]
    ensures NumFree(free) >= 3
  {
    NumFree3(free, h, d, s, false);
  }

  ghost predicate CanPost(q: State, b: nat, r: Req) {
    exists h, d, s :: Enabled(q, Post(h, d, s, b, r))
  }

  /** A request for a buffer that has none can be posted exactly when fewer than two are in flight. */
  lemma CanPostIff(start: seq<Step>, q: State, b: nat, r: Req)
    requires Reaches(Boot(), start, q) && forall g | g in q.chains :: q.chains[g].b != b
    ensures CanPost(q, b, r) <==> |q.chains| < 2
  {
    BootInv();
    RunKeepsInv(Boot(), start, q);
    AtMostTwo(q);
    if |q.chains| < 2 {
      var h, d, s := ThreeFree(q.free);
      assert b in q.onDisk ==> Busy(q.chains, b);
      assert Enabled(q, Post(h, d, s, b, r));
    }
    if CanPost(q, b, r) {
      var h, d, s :| Enabled(q, Post(h, d, s, b, r));
      FreeThree(q.free, h, d, s);
    }
  }
}
