/** Group commit in kernel/log.c: `begin_op`, `log_write`, `end_op` and `commit` of any number of
    processes, as interleaved steps. Every step is one critical section on the log's lock, except
    that `log_write` tests for room before it takes the lock. */
module LogOps {

  /** MAXOPBLOCKS is `m`, LOGSIZE is `logsize`, `size` is the number of log blocks on disk. */
  datatype Params = Params(m: nat, logsize: nat, size: nat)

  /** A process outside, inside an operation with `used` log_write calls behind it, or between the
      end of the last operation and the end of its commit. */
  datatype Proc = Out | In(used: nat, checked: bool) | Committing(installed: bool)

  /** `panicked` records any of the panics of lines 153, 220 and 222, and a write past the end of
      the header's array. */
  datatype State = State(procs: seq<Proc>, outstanding: int, committing: bool, blocks: seq<nat>, panicked: bool)

  datatype Event =
    | Begin
    | Check                // lines 219-222
    | Append(block: nat)   // lines 224-234
    | End                  // lines 150-163
    | Commit               // the last line of commit: the header is empty again
    | Finish               // lines 169-172

  predicate Enabled(c: Params, s: State, p: nat, e: Event) {
    !s.panicked && p < |s.procs| &&
    match e
    case Begin =>
      s.procs[p].Out? && !s.committing && |s.blocks| + (s.outstanding + 1) * c.m <= c.logsize
    case Check => s.procs[p].In? && !s.procs[p].checked && s.procs[p].used < c.m
    case Append(_) => s.procs[p].In? && s.procs[p].checked
    case End => s.procs[p].In? && !s.procs[p].checked
    case Commit => s.procs[p].Committing? && !s.procs[p].installed
    case Finish => s.procs[p].Committing? && s.procs[p].installed
  }

  function Apply(c: Params, s: State, p: nat, e: Event): State
    requires Enabled(c, s, p, e)
  {
    var q := s.procs[p];
    match e
    case Begin => s.(procs := s.procs[p := In(0, false)], outstanding := s.outstanding + 1)
    case Check =>
      if |s.blocks| >= c.logsize || |s.blocks| >= c.size - 1 || s.outstanding < 1
      then s.(panicked := true)
      else s.(procs := s.procs[p := q.(checked := true)])
    case Append(b) =>
      var t := s.(procs := s.procs[p := In(q.used + 1, false)]);
      if b in s.blocks then t
      else if |s.blocks| >= c.logsize then t.(panicked := true)
      else t.(blocks := s.blocks + [b])
    case End =>
      var t := s.(outstanding := s.outstanding - 1);
      if s.committing then t.(panicked := true)
      else if t.outstanding == 0 then t.(committing := true, procs := s.procs[p := Committing(false)])
      else t.(procs := s.procs[p := Out])
    case Commit => s.(blocks := [], procs := s.procs[p := Committing(true)])
    case Finish => s.(committing := false, procs := s.procs[p := Out])
  }

  // ---------------------------------------------------------------- counting over processes

  function Active(q: Proc): int { if q.In? then 1 else 0 }

  function Committer(q: Proc): int { if q.Committing? then 1 else 0 }

  /** A commit that has not installed the blocks yet. */
  function Pending(q: Proc): int { if q == Committing(false) then 1 else 0 }

  /** Log space a process may still ask for. */
  function Reserve(m: nat): Proc -> int {
    (q: Proc) => if q.In? then m - q.used else 0
  }

  function Sum(f: Proc -> int, procs: seq<Proc>): int {
    if procs == [] then 0 else Sum(f, procs[..|procs| - 1]) + f(procs[|procs| - 1])
  }

  lemma {:induction false} SumUpdate(f: Proc -> int, procs: seq<Proc>, p: nat, q: Proc)
    requires p < |procs|
    ensures Sum(f, procs[p := q]) == Sum(f, procs) - f(procs[p]) + f(q)
    decreases |procs|
  {
    var n := |procs| - 1;
    if p == n {
      assert procs[p := q][..n] == procs[..n];
    } else {
      SumUpdate(f, procs[..n], p, q);
      assert procs[p := q][..n] == procs[..n][p := q];
    }
  }

  lemma {:induction false} SumAtLeast(f: Proc -> int, procs: seq<Proc>, p: nat)
    requires p < |procs| && forall i | 0 <= i < |procs| :: f(procs[i]) >= 0
    ensures Sum(f, procs) >= f(procs[p]) && Sum(f, procs[..|procs| - 1]) >= 0
    decreases |procs|
  {
    var n := |procs| - 1;
    if n > 0 { SumAtLeast(f, procs[..n], if p < n then p else 0); }
  }

  lemma {:induction false} ReserveBound(m: nat, procs: seq<Proc>)
    ensures Sum(Reserve(m), procs) <= m * Sum(Active, procs)
  {
    if procs != [] {
      var n := |procs| - 1;
      ReserveBound(m, procs[..n]);
      var a, r := Sum(Active, procs[..n]), Active(procs[n]);
      assert m * (a + r) == m * a + m * r;
    }
  }

  lemma {:induction false} PendingBound(procs: seq<Proc>)
    ensures Sum(Pending, procs) <= Sum(Committer, procs)
  {
    if procs != [] { PendingBound(procs[..|procs| - 1]); }
  }

  /** A positive sum has a positive term. */
  lemma {:induction false} SumPositive(f: Proc -> int, procs: seq<Proc>) returns (p: nat)
    requires Sum(f, procs) > 0
    ensures p < |procs| && f(procs[p]) > 0
  {
    var n := |procs| - 1;
    if f(procs[n]) > 0 { return n; }
    p := SumPositive(f, procs[..n]);
  }

  // ---------------------------------------------------------------- the invariant

  predicate NoRepeats(blocks: seq<nat>) {
    forall i, j | 0 <= i < j < |blocks| :: blocks[i] != blocks[j]
  }

  /** Every block already logged and every block an active operation may still log has its place
      in the header, once; a commit runs only while no operation is active; and blocks are logged
      only until the operations that are active, or the commit that has begun, are over. */
  ghost predicate Inv(c: Params, s: State) {
    && !s.panicked
    && (forall p | 0 <= p < |s.procs| && s.procs[p].In? ::
          s.procs[p].used <= c.m && (s.procs[p].checked ==> s.procs[p].used < c.m))
    && s.outstanding == Sum(Active, s.procs)
    && (if s.committing then 1 else 0) == Sum(Committer, s.procs)
    && (s.committing ==> s.outstanding == 0)
    && |s.blocks| + Sum(Reserve(c.m), s.procs) <= c.logsize
    && NoRepeats(s.blocks) && (s.blocks != [] ==> s.outstanding > 0 || Sum(Pending, s.procs) > 0)
  }

  /** How the sums change when process `p` becomes `q`. */
  lemma Sums(c: Params, s: State, p: nat, q: Proc)
    requires Inv(c, s) && p < |s.procs|
    ensures var t := s.procs[p := q];
            && Sum(Active, t) == s.outstanding - Active(s.procs[p]) + Active(q)
            && Sum(Committer, t) == (if s.committing then 1 else 0) - Committer(s.procs[p]) + Committer(q)
            && Sum(Reserve(c.m), t) == Sum(Reserve(c.m), s.procs) - Reserve(c.m)(s.procs[p]) + Reserve(c.m)(q)
            && Sum(Pending, t) == Sum(Pending, s.procs) - Pending(s.procs[p]) + Pending(q)
    ensures s.outstanding >= Active(s.procs[p]) && Sum(Reserve(c.m), s.procs) >= Reserve(c.m)(s.procs[p])
    ensures s.procs[p].Committing? ==> s.committing
    ensures 0 <= Pending(s.procs[p]) <= Sum(Pending, s.procs) <= Sum(Committer, s.procs)
  {
    SumAtLeast(Pending, s.procs, p);
    SumUpdate(Pending, s.procs, p, q);
    PendingBound(s.procs);
    SumAtLeast(Active, s.procs, p);
    SumAtLeast(Committer, s.procs, p);
    SumAtLeast(Reserve(c.m), s.procs, p);
    SumUpdate(Active, s.procs, p, q);
    SumUpdate(Committer, s.procs, p, q);
    SumUpdate(Reserve(c.m), s.procs, p, q);
  }

  lemma BeginKeepsInv(c: Params, s: State, p: nat)
    requires Inv(c, s) && Enabled(c, s, p, Begin)
    ensures Inv(c, Apply(c, s, p, Begin))
  {
    Sums(c, s, p, In(0, false));
    ReserveBound(c.m, s.procs);
    assert (s.outstanding + 1) * c.m == c.m * s.outstanding + c.m;
  }

  lemma WriteKeepsInv(c: Params, s: State, p: nat, e: Event)
    requires Inv(c, s) && Enabled(c, s, p, e) && (e.Check? || e.Append?) && c.size > c.logsize
    ensures Inv(c, Apply(c, s, p, e))
  {
    var q := s.procs[p];
    Sums(c, s, p, q.(checked := true));
    Sums(c, s, p, In(q.used + 1, false));
  }

  lemma EndKeepsInv(c: Params, s: State, p: nat)
    requires Inv(c, s) && Enabled(c, s, p, End)
    ensures Inv(c, Apply(c, s, p, End))
  {
    Sums(c, s, p, Committing(false));
    Sums(c, s, p, Out);
  }

  lemma CommitKeepsInv(c: Params, s: State, p: nat, e: Event)
    requires Inv(c, s) && Enabled(c, s, p, e) && (e.Commit? || e.Finish?)
    ensures Inv(c, Apply(c, s, p, e))
  {
    Sums(c, s, p, Committing(true));
    Sums(c, s, p, Out);
  }

  lemma ApplyKeepsInv(c: Params, s: State, p: nat, e: Event)
    requires Inv(c, s) && Enabled(c, s, p, e) && c.size > c.logsize
    ensures Inv(c, Apply(c, s, p, e))
  {
    match e
    case Begin => BeginKeepsInv(c, s, p);
    case Check => WriteKeepsInv(c, s, p, e);
    case Append(_) => WriteKeepsInv(c, s, p, e);
    case End => EndKeepsInv(c, s, p);
    case Commit => CommitKeepsInv(c, s, p, e);
    case Finish => CommitKeepsInv(c, s, p, e);
  }

  // ---------------------------------------------------------------- runs

  predicate Initial(s: State) {
    (forall p | 0 <= p < |s.procs| :: s.procs[p] == Out) &&
    s.outstanding == 0 && !s.committing && s.blocks == [] && !s.panicked
  }

  ghost predicate Reaches(c: Params, s: State, run: seq<(nat, Event)>, t: State)
    decreases |run|
  {
    if run == [] then s == t
    else Enabled(c, s, run[0].0, run[0].1) && Reaches(c, Apply(c, s, run[0].0, run[0].1), run[1..], t)
  }

  ghost predicate Reachable(c: Params, t: State) {
    exists s, run :: Initial(s) && Reaches(c, s, run, t)
  }

  lemma {:induction false} InitialInv(c: Params, s: State)
    requires Initial(s)
    ensures Inv(c, s)
  {
    NoneActive(c, s.procs);
  }

  lemma {:induction false} NoneActive(c: Params, procs: seq<Proc>)
    requires forall p | 0 <= p < |procs| :: procs[p] == Out
    ensures Sum(Active, procs) == 0 && Sum(Committer, procs) == 0 && Sum(Reserve(c.m), procs) == 0
    ensures Sum(Pending, procs) == 0
  {
    if procs != [] { NoneActive(c, procs[..|procs| - 1]); }
  }

  lemma {:induction false} RunKeepsInv(c: Params, s: State, run: seq<(nat, Event)>, t: State)
    requires Inv(c, s) && Reaches(c, s, run, t) && c.size > c.logsize
    ensures Inv(c, t)
    decreases |run|
  {
    if run != [] {
      ApplyKeepsInv(c, s, run[0].0, run[0].1);
      RunKeepsInv(c, Apply(c, s, run[0].0, run[0].1), run[1..], t);
    }
  }

  /** With more than LOGSIZE blocks on disk, no interleaving panics or overruns the header, and a
      commit never runs beside an operation. */
  lemma ReservationSuffices(c: Params, t: State)
    requires c.size > c.logsize && Reachable(c, t)
    ensures !t.panicked && |t.blocks| <= c.logsize && NoRepeats(t.blocks)
    ensures t.committing ==> forall p | 0 <= p < |t.procs| :: !t.procs[p].In?
  {
    ReachableInv(c, t);
    forall p | 0 <= p < |t.procs|
      ensures t.procs[p].In? ==> !t.committing
    {
      SumAtLeast(Active, t.procs, p);
    }
    ReserveNonNeg(c, t.procs);
  }

  lemma ReachableInv(c: Params, t: State)
    requires c.size > c.logsize && Reachable(c, t)
    ensures Inv(c, t)
  {
    var s, run :| Initial(s) && Reaches(c, s, run, t);
    InitialInv(c, s);
    RunKeepsInv(c, s, run, t);
  }

  /** `begin_op` goes through exactly when nobody commits and the blocks logged so far, and as many
      as the operations in progress and this one may log, fit. */
  lemma BeginIff(c: Params, s: State, p: nat)
    requires c.size > c.logsize && Reachable(c, s) && p < |s.procs| && s.procs[p] == Out
    ensures Enabled(c, s, p, Begin) <==>
            && (forall q | 0 <= q < |s.procs| :: !s.procs[q].Committing?)
            && |s.blocks| + c.m * (Sum(Active, s.procs) + 1) <= c.logsize
  {
    ReachableInv(c, s);
    if s.committing {
      var q := SumPositive(Committer, s.procs);
    }
    forall q | 0 <= q < |s.procs|
      ensures s.procs[q].Committing? ==> s.committing
    {
      SumAtLeast(Committer, s.procs, q);
    }
  }

  /** Nothing stays logged: once every operation is over and no commit is under way, the log is empty. */
  lemma AllCommitted(c: Params, s: State)
    requires c.size > c.logsize && Reachable(c, s)
    requires forall p | 0 <= p < |s.procs| :: !s.procs[p].In? && s.procs[p] != Committing(false)
    ensures s.blocks == []
  {
    ReachableInv(c, s);
    if s.outstanding > 0 { var p := SumPositive(Active, s.procs); }
    if Sum(Pending, s.procs) > 0 { var p := SumPositive(Pending, s.procs); }
  }

  /** The step that brings a process nearer to the end of its operation. */
  function Onward(q: Proc): Event
    requires !q.Out?
  {
    if q.In? then if q.checked then Append(0) else End
    else if q.installed then Finish else Commit
  }

  function Weight(q: Proc): int {
    match q
    case Out => 0
    case In(_, checked) => if checked then 4 else 3
    case Committing(installed) => if installed then 1 else 2
  }

  lemma OnwardStep(c: Params, s: State, i: nat)
    requires Inv(c, s) && c.size > c.logsize && i < |s.procs| && !s.procs[i].Out?
    ensures Enabled(c, s, i, Onward(s.procs[i]))
    ensures var t := Apply(c, s, i, Onward(s.procs[i]));
            Inv(c, t) && |t.procs| == |s.procs| && Sum(Weight, t.procs) < Sum(Weight, s.procs) &&
            forall p | 0 <= p < |s.procs| && p != i :: t.procs[p] == s.procs[p]
  {
    var e := Onward(s.procs[i]);
    ApplyKeepsInv(c, s, i, e);
    var t := Apply(c, s, i, e);
    SumUpdate(Weight, s.procs, i, t.procs[i]);
    assert t.procs == s.procs[i := t.procs[i]];
  }

  lemma {:induction false} WeightNonNeg(procs: seq<Proc>)
    ensures Sum(Weight, procs) >= 0
  {
    if procs != [] { WeightNonNeg(procs[..|procs| - 1]); }
  }

  lemma IdleCanBegin(c: Params, s: State, p: nat)
    requires Inv(c, s) && p < |s.procs| && s.procs[p] == Out && c.m <= c.logsize && Sum(Weight, s.procs) == 0
    ensures Enabled(c, s, p, Begin)
  {
    forall q | 0 <= q < |s.procs|
      ensures s.procs[q] == Out
    {
      SumAtLeast(Weight, s.procs, q);
    }
    NoneActive(c, s.procs);
  }

  lemma {:induction false} CanDrain(c: Params, s: State, p: nat) returns (run: seq<(nat, Event)>, t: State)
    requires Inv(c, s) && c.size > c.logsize && p < |s.procs| && s.procs[p] == Out && c.m <= c.logsize
    ensures Reaches(c, s, run, t) && Enabled(c, t, p, Begin) && forall k | 0 <= k < |run| :: run[k].0 != p
    decreases Sum(Weight, s.procs)
  {
    WeightNonNeg(s.procs);
    if Sum(Weight, s.procs) == 0 {
      IdleCanBegin(c, s, p);
      return [], s;
    }
    var i := SumPositive(Weight, s.procs);
    OnwardStep(c, s, i);
    var e := Onward(s.procs[i]);
    var rest;
    rest, t := CanDrain(c, Apply(c, s, i, e), p);
    run := [(i, e)] + rest;
    assert run[0] == (i, e) && run[1..] == rest;
  }

  /** The log never wedges: whatever state it is in, the other processes can go on so that one that
      waits in `begin_op` gets through, if an operation fits in the log at all. */
  lemma NeverWedged(c: Params, s: State, p: nat) returns (run: seq<(nat, Event)>, t: State)
    requires c.size > c.logsize && Reachable(c, s) && p < |s.procs| && s.procs[p] == Out && c.m <= c.logsize
    ensures Reaches(c, s, run, t) && Enabled(c, t, p, Begin) && forall k | 0 <= k < |run| :: run[k].0 != p
  {
    ReachableInv(c, s);
    run, t := CanDrain(c, s, p);
  }

  lemma {:induction false} ReserveNonNeg(c: Params, procs: seq<Proc>)
    requires forall p | 0 <= p < |procs| && procs[p].In? :: procs[p].used <= c.m
    ensures Sum(Reserve(c.m), procs) >= 0
  {
    if procs != [] { ReserveNonNeg(c, procs[..|procs| - 1]); }
  }

  // ---------------------------------------------------------------- when the log is too small

  /** What operation `q` of three has logged when `j` blocks are logged in all, `m` at a time. */
  function Share(m: nat, j: nat, q: nat): nat {
    if j <= q * m then 0 else if j <= (q + 1) * m then j - q * m else m
  }

  function Turn(m: nat, j: nat): nat {
    if j < m then 0 else if j < 2 * m then 1 else 2
  }

  function Busy(m: nat, j: nat): State {
    State([In(Share(m, j, 0), false), In(Share(m, j, 1), false), In(Share(m, j, 2), false)],
          3, false, seq(j, i => i), false)
  }

  lemma {:induction false} ReachesMore(c: Params, s: State, run: seq<(nat, Event)>, t: State, p: nat, e: Event)
    requires Reaches(c, s, run, t) && Enabled(c, t, p, e)
    ensures Reaches(c, s, run + [(p, e)], Apply(c, t, p, e))
    decreases |run|
  {
    var all := run + [(p, e)];
    if run == [] {
      assert all[0] == (p, e) && all[1..] == [];
    } else {
      ReachesMore(c, Apply(c, s, run[0].0, run[0].1), run[1..], t, p, e);
      assert all[0] == run[0] && all[1..] == run[1..] + [(p, e)];
    }
  }

  lemma ThenReachable(c: Params, s: State, p: nat, e: Event)
    requires Reachable(c, s) && Enabled(c, s, p, e)
    ensures Reachable(c, Apply(c, s, p, e))
  {
    var i, run :| Initial(i) && Reaches(c, i, run, s);
    ReachesMore(c, i, run, s, p, e);
  }

  /** Operations share a commit: one can begin when another has logged a block already. */
  lemma BeginsAfterLog(c: Params) returns (s: State, t: State)
    requires c.m > 0 && 2 * c.m < c.logsize < c.size
    ensures Reachable(c, s) && s.blocks != [] && Enabled(c, s, 1, Begin) && t == Apply(c, s, 1, Begin)
    ensures Reachable(c, t) && t.procs == [In(1, false), In(0, false)] && t.blocks == s.blocks
  {
    var i := State([Out, Out], 0, false, [], false);
    assert Reaches(c, i, [], i);
    ThenReachable(c, i, 0, Begin);
    var u := Apply(c, i, 0, Begin);
    ThenReachable(c, u, 0, Check);
    var v := Apply(c, u, 0, Check);
    ThenReachable(c, v, 0, Append(7));
    s := Apply(c, v, 0, Append(7));
    assert s.outstanding == 1 && |s.blocks| == 1;
    ThenReachable(c, s, 1, Begin);
    t := Apply(c, s, 1, Begin);
  }

  lemma ThreeBegin(c: Params)
    requires c.logsize == 3 * c.m
    ensures Reachable(c, Busy(c.m, 0))
  {
    var s := State([Out, Out, Out], 0, false, [], false);
    assert Reaches(c, s, [], s);
    ThenReachable(c, s, 0, Begin);
    var t := Apply(c, s, 0, Begin);
    ThenReachable(c, t, 1, Begin);
    var u := Apply(c, t, 1, Begin);
    ThenReachable(c, u, 2, Begin);
    assert Apply(c, u, 2, Begin) == Busy(c.m, 0);
  }

  lemma {:induction false} BusyReachable(c: Params, j: nat)
    requires c.logsize == 3 * c.m && j <= c.logsize && j < c.size
    ensures Reachable(c, Busy(c.m, j))
  {
    if j == 0 {
      ThreeBegin(c);
    } else {
      BusyReachable(c, j - 1);
      var s, p := Busy(c.m, j - 1), Turn(c.m, j - 1);
      ThenReachable(c, s, p, Check);
      var t := Apply(c, s, p, Check);
      assert !t.panicked;
      ThenReachable(c, t, p, Append(j - 1));
      var u := Apply(c, t, p, Append(j - 1));
      assert u.blocks == s.blocks + [j - 1] == Busy(c.m, j).blocks;
      assert u.procs == Busy(c.m, j).procs;
    }
  }

  /** A log with more than LOGSIZE blocks on disk can come to commit a full header. */
  lemma FullHeaderCommits(c: Params) returns (t: State)
    requires c.logsize == 3 * c.m && c.size > c.logsize
    ensures Reachable(c, t) && t.committing && |t.blocks| == c.logsize
  {
    BusyReachable(c, c.logsize);
    var s := Busy(c.m, c.logsize);
    ThenReachable(c, s, 0, End);
    var u := Apply(c, s, 0, End);
    ThenReachable(c, u, 1, End);
    var v := Apply(c, u, 1, End);
    ThenReachable(c, v, 2, End);
    t := Apply(c, v, 2, End);
  }

  /** The panic of line 220 is unreachable exactly when the disk has more log blocks than LOGSIZE.
      The file system that mkfs builds has exactly LOGSIZE. */
  lemma NoPanicIff(c: Params)
    requires c.m > 0 && c.logsize == 3 * c.m
    ensures (forall t | Reachable(c, t) :: !t.panicked) <==> c.size > c.logsize
  {
    if c.size > c.logsize {
      forall t | Reachable(c, t)
        ensures !t.panicked
      {
        ReservationSuffices(c, t);
      }
    } else {
      var j := if c.size == 0 then 0 else c.size - 1;
      if c.size == 0 { ThreeBegin(c); } else { BusyReachable(c, j); }
      var s, p := Busy(c.m, j), Turn(c.m, j);
      ThenReachable(c, s, p, Check);
      assert Apply(c, s, p, Check).panicked;
    }
  }
}
