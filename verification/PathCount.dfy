/** How many page-table pages a range of pages still needs, which decides when kernel/vm.c runs out
    of memory. */
module PathCount {
  import opened PageTable

  // ---------------------------------------------------------------- the way to a page

  /** Of the pages on the way to a leaf slot, those above `level`. */
  function Above(level: nat, mid: Node, low: Node): set<Node> {
    if level >= 2 then {} else if level == 1 then {mid} else {mid, low}
  }

  /** How many of the pages above `level` on the way are not there. */
  function Lack(have: set<Node>, level: nat, mid: Node, low: Node): nat {
    (if level < 2 && mid !in have then 1 else 0) + (if level < 1 && low !in have then 1 else 0)
  }

  /** The page-table pages below the root on the way to page `v`. */
  function Path(v: nat): set<Node> {
    Above(0, NodeAt(1, v), NodeAt(0, v))
  }

  /** The page-table pages on the way to the `n` pages from `first` on. */
  function Paths(first: nat, n: nat): set<Node> {
    if n == 0 then {} else Paths(first, n - 1) + Path(first + n - 1)
  }

  /** How many of them a page table does not have, page by page. */
  function Missing(t: Tree, first: nat, n: nat): nat {
    if n == 0 then 0 else Missing(t, first, n - 1) + LackAt(t.Keys + Paths(first, n - 1), first + n - 1)
  }

  function LackAt(have: set<Node>, v: nat): nat {
    Lack(have, 0, NodeAt(1, v), NodeAt(0, v))
  }

  ghost predicate Once(l: seq<Node>) {
    forall i, j | 0 <= i < j < |l| :: l[i] != l[j]
  }

  /** The pages on the ways that a page table does not have can be listed, each once, and the list is that
      long. */
  lemma {:induction false} PathsAre(t: Tree, first: nat, n: nat) returns (l: seq<Node>)
    ensures |l| == Missing(t, first, n) && Once(l)
    ensures forall x :: x in l <==> x in Paths(first, n) && x !in t
  {
    l := [];
    if n > 0 {
      var rest := PathsAre(t, first, n - 1);
      l := AddNew(t.Keys, Paths(first, n - 1), rest, NodeAt(1, first + n - 1), NodeAt(0, first + n - 1));
    }
  }

  lemma AddNew(have: set<Node>, paths: set<Node>, rest: seq<Node>, mid: Node, low: Node) returns (l: seq<Node>)
    requires mid != low && Once(rest) && forall x :: x in rest <==> x in paths && x !in have
    ensures |l| == |rest| + Lack(have + paths, 0, mid, low) && Once(l)
    ensures forall x :: x in l <==> x in paths + Above(0, mid, low) && x !in have
  {
    var mids := if mid in have + paths then [] else [mid];
    var lows := if low in have + paths then [] else [low];
    l := rest + mids + lows;
  }

  lemma {:induction false} MissingMono(t: Tree, first: nat, n: nat, m: nat)
    requires n <= m
    ensures Missing(t, first, n) <= Missing(t, first, m)
    decreases m
  {
    if n < m { MissingMono(t, first, n, m - 1); }
  }

  /** The tree now has the way to `n` pages, and the frames for it are gone. */
  ghost predicate Paved(t: Tree, u: Tree, first: nat, n: nat, from: seq<nat>, left: seq<nat>) {
    true == (u.Keys == t.Keys + Paths(first, n) && |from| == |left| + Missing(t, first, n))
  }

  /** One level of `walk`. */
  lemma AboveMore(have: set<Node>, now: set<Node>, level: nat, mid: Node, low: Node)
    requires 1 <= level <= 2 && mid != low && now == have + Above(level, mid, low)
    ensures var child := if level == 2 then mid else low;
            && now + {child} == have + Above(level - 1, mid, low)
            && Lack(have, level - 1, mid, low) == Lack(have, level, mid, low) + (if child in now then 0 else 1)
            && Lack(have, level - 1, mid, low) <= Lack(have, 0, mid, low)
  {
  }

  /** `walk` has got down to `level`, and has given frames for what lacked. */
  ghost predicate OnWay(t: Tree, u: Tree, level: nat, mid: Node, low: Node, from: seq<nat>, left: seq<nat>) {
    true == (u.Keys == t.Keys + Above(level, mid, low) && |from| == |left| + Lack(t.Keys, level, mid, low))
  }

  lemma OnWayMore(t: Tree, u: Tree, w: Tree, level: nat, mid: Node, low: Node,
                  from: seq<nat>, f1: seq<nat>, f2: seq<nat>, found: bool)
    requires 1 <= level <= 2 && mid != low && OnWay(t, u, level, mid, low, from, f1)
    requires var child := if level == 2 then mid else low;
             && (found ==> w.Keys == u.Keys + {child} && |f1| == |f2| + if child in u then 0 else 1)
             && (!found ==> child !in u)
    ensures found ==> OnWay(t, w, level - 1, mid, low, from, f2)
    ensures !found && f1 == [] ==> |from| < Lack(t.Keys, 0, mid, low)
  {
    AboveMore(t.Keys, u.Keys, level, mid, low);
  }

  lemma MissingIs(t: Tree, v: nat)
    ensures Paths(v, 1) == Path(v) && Missing(t, v, 1) == Lack(t.Keys, 0, NodeAt(1, v), NodeAt(0, v))
  {
    assert Paths(v, 0) == {} && Missing(t, v, 0) == 0 && t.Keys + {} == t.Keys;
  }

  /** For one page the number is read off the tree. */
  lemma MissingOne(mem: Memory, t: Tree, v: nat)
    requires IsTree(mem, t)
    ensures Missing(t, v, 1) == if NodeAt(0, v) in t then 0 else if NodeAt(1, v) in t then 1 else 2
  {
    MissingIs(t, v);
    if NodeAt(0, v) in t { assert NodeOk(mem, t, NodeAt(0, v)); }
  }

  lemma PathsMore(first: nat, n: nat, a: nat)
    requires a == first + n
    ensures Paths(first, n + 1) == Paths(first, n) + Paths(a, 1)
  {
    assert Paths(a, 0) == {};
  }

  lemma MissingMore(t: Tree, u: Tree, first: nat, n: nat, a: nat)
    requires u.Keys == t.Keys + Paths(first, n) && a == first + n
    ensures Missing(t, first, n + 1) == Missing(t, first, n) + Missing(u, a, 1)
  {
    MissingIs(u, a);
    assert Missing(t, first, n + 1) == Missing(t, first, n) + LackAt(t.Keys + Paths(first, n), first + n);
  }

  /** `mappages` stops at page `first + n`, for want of a frame or at a page that it does not take. */
  ghost predicate Stopped(mem: Memory, t: Tree, first: nat, n: nat, frames: nat, r: Outcome) {
    true == (
      && (r == NoMemory ==> first + n < MAXPAGE && frames < Missing(t, first, n + 1))
      && (r == Panic ==> first + n >= MAXPAGE || IsValid(Lookup(mem, t, first + n)))
      && frames >= Missing(t, first, n))
  }

  lemma PavedNone(t: Tree, first: nat, from: seq<nat>)
    ensures Paved(t, t, first, 0, from, from)
  {
    assert Paths(first, 0) == {} && Missing(t, first, 0) == 0;
  }

  lemma PavedMore(t: Tree, u: Tree, w: Tree, first: nat, n: nat, a: nat, from: seq<nat>, f1: seq<nat>, f2: seq<nat>)
    requires Paved(t, u, first, n, from, f1) && a == first + n
    ensures Missing(t, first, n + 1) == Missing(t, first, n) + Missing(u, a, 1)
    ensures |f1| < Missing(u, a, 1) <==> |from| < Missing(t, first, n + 1)
    ensures Paved(u, w, a, 1, f1, f2) ==> Paved(t, w, first, n + 1, from, f2)
  {
    MissingMore(t, u, first, n, a);
    PathsMore(first, n, a);
  }

  // ---------------------------------------------------------------- what becomes of growing

  datatype Outcome = Done | NoMemory | Panic

  /** `mappages` takes page `w`: it is below MAXVA and not mapped. */
  predicate CanMap(mem: Memory, t: Tree, w: nat) {
    w < MAXPAGE && !IsValid(Lookup(mem, t, w))
  }

  lemma ValidIsPaved(mem: Memory, t: Tree, v: nat)
    requires IsTree(mem, t) && IsValid(Lookup(mem, t, v))
    ensures Missing(t, v, 1) == 0
  {
    MissingOne(mem, t, v);
  }

  /** How many of the `n` pages from `first` on a test accepts before one that it does not. */
  ghost function Run(ok: nat -> bool, first: nat, n: nat): nat
    decreases n
  {
    if n == 0 || !ok(first) then 0 else 1 + Run(ok, first + 1, n - 1)
  }

  ghost predicate AllOk(ok: nat -> bool, first: nat, n: nat) {
    forall w: nat {:trigger ok(w)} | first <= w < first + n :: ok(w)
  }

  lemma {:induction false} RunIs(ok: nat -> bool, first: nat, n: nat, k: nat)
    requires k <= n && AllOk(ok, first, k)
    ensures k <= Run(ok, first, n) <= n
    ensures k < n ==> (Run(ok, first, n) > k <==> ok(first + k))
    decreases n
  {
    if n > 0 && k > 0 {
      assert ok(first);
      RunIs(ok, first + 1, n - 1, k - 1);
    } else if n > 0 && ok(first) {
      RunIs(ok, first + 1, n - 1, 0);
    }
  }

  lemma {:induction false} RunOk(ok: nat -> bool, first: nat, n: nat)
    ensures var r := Run(ok, first, n); r <= n && AllOk(ok, first, r) && (r < n ==> !ok(first + r))
    decreases n
  {
    if n > 0 && ok(first) { RunOk(ok, first + 1, n - 1); }
  }

  /** What adding `n` items comes to: each takes one unit, and `k` of them `cost(k)` more. */
  ghost function Fate(ok: nat -> bool, cost: nat -> nat, first: nat, n: nat, units: nat): Outcome {
    var k := Run(ok, first, n);
    if k == n then if units >= n + cost(n) then Done else NoMemory
    else if units >= k + 1 + cost(k) then Panic else NoMemory
  }

  ghost predicate Mono(cost: nat -> nat) {
    forall i: nat, j: nat | i <= j :: cost(i) <= cost(j)
  }

  /** With `k` added, the next one decides: out of units, at one that is not accepted, or on. */
  lemma FateAt(ok: nat -> bool, cost: nat -> nat, first: nat, n: nat, k: nat, units: nat)
    requires k < n && AllOk(ok, first, k) && Mono(cost)
    ensures !ok(first + k) ==>
              Fate(ok, cost, first, n, units) == if units >= k + 1 + cost(k) then Panic else NoMemory
    ensures ok(first + k) && units < k + 1 + cost(k + 1) ==> Fate(ok, cost, first, n, units) == NoMemory
  {
    RunIs(ok, first, n, k);
    var r := Run(ok, first, n);
    if r > k { assert cost(k + 1) <= cost(r); }
  }

  lemma FateDone(ok: nat -> bool, cost: nat -> nat, first: nat, n: nat, units: nat)
    ensures Fate(ok, cost, first, n, units) == Done <==> AllOk(ok, first, n) && units >= n + cost(n)
  {
    RunOk(ok, first, n);
    if AllOk(ok, first, n) { RunIs(ok, first, n, n); }
  }

  /** A panic is at the first item that is not accepted. */
  lemma FatePanic(ok: nat -> bool, cost: nat -> nat, first: nat, n: nat, units: nat) returns (k: nat)
    requires Fate(ok, cost, first, n, units) == Panic
    ensures k < n && AllOk(ok, first, k) && !ok(first + k) && units >= k + 1 + cost(k)
  {
    RunOk(ok, first, n);
    k := Run(ok, first, n);
  }

  lemma FateStops(ok: nat -> bool, cost: nat -> nat, first: nat, n: nat, k: nat, units: nat)
    requires k < n && AllOk(ok, first, k) && !ok(first + k) && units >= k + 1 + cost(k)
    ensures Fate(ok, cost, first, n, units) == Panic
  {
    RunIs(ok, first, n, k);
  }

  ghost function Cost(t: Tree, first: nat): nat -> nat {
    (n: nat) => Missing(t, first, n)
  }

  /** `CanMap` as a test. */
  ghost function Takes(mem: Memory, t: Tree): nat -> bool {
    (w: nat) => CanMap(mem, t, w)
  }

  /** What adding the `n` pages from `first` on comes to with so many free frames. */
  ghost function Verdict(mem: Memory, t: Tree, first: nat, n: nat, frames: nat): Outcome {
    Fate(Takes(mem, t), Cost(t, first), first, n, frames)
  }

  /** The `n` pages from `first` on can all be mapped. */
  ghost predicate CanMapAll(mem: Memory, t: Tree, first: nat, n: nat) {
    true == forall w: nat | first <= w < first + n :: CanMap(mem, t, w)
  }

  lemma TakesAll(mem: Memory, t: Tree, first: nat, n: nat)
    ensures AllOk(Takes(mem, t), first, n) <==> CanMapAll(mem, t, first, n)
  {
    var ok := Takes(mem, t);
    assert forall w: nat {:trigger ok(w)} {:trigger CanMap(mem, t, w)} :: ok(w) == CanMap(mem, t, w);
  }

  /** The `k` pages before page `first + k` can be mapped, that one can not, and the frames last until
      the one taken for it. */
  ghost predicate StopsAt(mem: Memory, t: Tree, first: nat, k: nat, frames: nat) {
    true == (CanMapAll(mem, t, first, k) && !CanMap(mem, t, first + k) && frames >= k + 1 + Missing(t, first, k))
  }

  lemma VerdictDone(mem: Memory, t: Tree, first: nat, n: nat, frames: nat)
    ensures Verdict(mem, t, first, n, frames) == Done <==>
              CanMapAll(mem, t, first, n) && frames >= n + Missing(t, first, n)
  {
    TakesAll(mem, t, first, n);
    FateDone(Takes(mem, t), Cost(t, first), first, n, frames);
  }

  lemma VerdictStops(mem: Memory, t: Tree, first: nat, n: nat, k: nat, frames: nat)
    requires k < n && StopsAt(mem, t, first, k, frames)
    ensures Verdict(mem, t, first, n, frames) == Panic
  {
    TakesAll(mem, t, first, k);
    FateStops(Takes(mem, t), Cost(t, first), first, n, k, frames);
  }

  lemma VerdictPanics(mem: Memory, t: Tree, first: nat, n: nat, frames: nat) returns (k: nat)
    requires Verdict(mem, t, first, n, frames) == Panic
    ensures k < n && StopsAt(mem, t, first, k, frames)
  {
    k := FatePanic(Takes(mem, t), Cost(t, first), first, n, frames);
    TakesAll(mem, t, first, k);
  }

  /** It is done exactly if every page can be mapped and there are frames for the pages and for the
      page-table pages they lack; it panics exactly if the frames last until a page that can not be
      mapped, and for one more. */
  lemma VerdictIs(mem: Memory, t: Tree, first: nat, n: nat, frames: nat)
    ensures Verdict(mem, t, first, n, frames) == Done <==>
              CanMapAll(mem, t, first, n) && frames >= n + Missing(t, first, n)
    ensures Verdict(mem, t, first, n, frames) == Panic <==> exists k: nat :: k < n && StopsAt(mem, t, first, k, frames)
  {
    VerdictDone(mem, t, first, n, frames);
    if Verdict(mem, t, first, n, frames) == Panic {
      var k := VerdictPanics(mem, t, first, n, frames);
    }
    forall k: nat | k < n && StopsAt(mem, t, first, k, frames)
      ensures Verdict(mem, t, first, n, frames) == Panic
    {
      VerdictStops(mem, t, first, n, k, frames);
    }
  }

  /** `k` pages were added: a frame each, and one for each page-table page that lacked. */
  ghost predicate Spent(t: Tree, u: Tree, first: nat, k: nat, from: seq<nat>, left: seq<nat>) {
    true == (u.Keys == t.Keys + Paths(first, k) && |from| == |left| + k + Missing(t, first, k))
  }

  lemma SpentNone(t: Tree, first: nat, from: seq<nat>)
    ensures Spent(t, t, first, 0, from, from)
  {
    assert Paths(first, 0) == {} && Missing(t, first, 0) == 0;
  }

  lemma SpentMore(t: Tree, u: Tree, w: Tree, first: nat, k: nat, a: nat, from: seq<nat>, f1: seq<nat>, f: nat,
                  f2: seq<nat>)
    requires Spent(t, u, first, k, from, f1) && a == first + k
    ensures f1 != [] <==> |from| >= k + 1 + Missing(t, first, k)
    ensures |f1| >= 1 + Missing(u, a, 1) <==> |from| >= k + 1 + Missing(t, first, k + 1)
    ensures Paved(u, w, a, 1, f1, [f] + f2) ==> Spent(t, w, first, k + 1, from, f2)
  {
    MissingMore(t, u, first, k, a);
    PathsMore(first, k, a);
  }

  /** What becomes of page `a` after `k` others. */
  ghost predicate AddsOne(mem: Memory, t: Tree, first: nat, k: nat, a: nat, frames: nat, r: Outcome) {
    true == (
      && (r == Done <==> CanMap(mem, t, a) && frames >= k + 1 + Missing(t, first, k + 1))
      && (r == Panic <==> !CanMap(mem, t, a) && frames >= k + 1 + Missing(t, first, k)))
  }

  lemma CostMono(t: Tree, first: nat)
    ensures Mono(Cost(t, first))
  {
    forall i: nat, j: nat | i <= j
      ensures Cost(t, first)(i) <= Cost(t, first)(j)
    {
      MissingMono(t, first, i, j);
    }
  }

  /** How adding page `k` ends says how the whole ends, unless it is done. */
  lemma Settled(mem: Memory, t: Tree, first: nat, n: nat, k: nat, a: nat, frames: nat, r: Outcome)
    requires k < n && a == first + k && AllOk(Takes(mem, t), first, k)
    requires AddsOne(mem, t, first, k, a, frames, r)
    ensures r != Done ==> Verdict(mem, t, first, n, frames) == r
    ensures r == Done ==> AllOk(Takes(mem, t), first, k + 1)
  {
    CostMono(t, first);
    var c0, c1 := Missing(t, first, k), Missing(t, first, k + 1);
    FateSettled(Takes(mem, t), Cost(t, first), first, n, k, a, frames, r, c0, c1);
  }

  lemma FateSettled(ok: nat -> bool, cost: nat -> nat, first: nat, n: nat, k: nat, a: nat, units: nat, r: Outcome,
                    c0: nat, c1: nat)
    requires k < n && a == first + k && AllOk(ok, first, k) && Mono(cost) && cost(k) == c0 && cost(k + 1) == c1
    requires r == Done <==> ok(a) && units >= k + 1 + c1
    requires r == Panic <==> !ok(a) && units >= k + 1 + c0
    ensures r != Done ==> Fate(ok, cost, first, n, units) == r
    ensures r == Done ==> AllOk(ok, first, k + 1)
  {
    FateAt(ok, cost, first, n, k, units);
  }

  /** Copying stops at page `i` for want of frames. */
  lemma CopyFails(c: Tree, i: nat, n: nat, frames: nat)
    requires i < n && i + Missing(c, 0, i) <= frames < i + 1 + Missing(c, 0, i + 1)
    ensures frames < n + Missing(c, 0, n) && (frames < 1 + Missing(c, 0, 1) <==> i == 0)
  {
    MissingMono(c, 0, i + 1, n);
    if i > 0 { MissingMono(c, 0, 1, i); }
  }
}
