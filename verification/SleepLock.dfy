/** Sleep locks (kernel/sleeplock.c) over `sleep` and `wakeup` (kernel/proc.c), as a machine of
    interleaved steps: any number of processes use any number of sleep locks.

    A step is what one process does between two points where another could intervene. Holding a
    spinlock is explicit: `spin` for the spinlock inside each sleep lock, `plock` for each
    process's own lock. The critical sections of `wakeup`, `kill` and the scheduler on another
    process's lock are single steps that need that lock free. */
module SleepLock {
  import opened Options

  datatype Status = Running | Runnable | Sleeping

  /** Where a process is, and which sleep lock `l` it is about. */
  datatype Pc =
    | Idle                          // outside both functions
    | AcqEnter(l: nat)              // acquiresleep: about to acquire the inner spinlock
    | AcqTest(l: nat)               // holds it, tests `locked`
    | AcqExit(l: nat)               // has the sleep lock, about to release the spinlock
    | SlpEnter(l: nat)              // sleep: about to acquire its own p->lock
    | SlpRelease(l: nat)            // holds both, about to release the spinlock
    | SlpSet(l: nat)                // holds p->lock only, about to set chan and state
    | SlpSched(l: nat)              // SLEEPING, about to switch away
    | Asleep(l: nat)                // switched away, p->lock released by the scheduler
    | SlpTidy(l: nat)               // running again with p->lock held
    | RelEnter(l: nat)              // releasesleep: about to acquire the inner spinlock
    | RelClear(l: nat)              // holds it, about to clear `locked`
    | Waking(l: nat, i: nat)        // wakeup: about to look at process i
    | RelExit(l: nat)               // about to release the spinlock

  datatype Proc = Proc(pc: Pc, status: Status, chan: Option<nat>, plock: bool, holds: set<nat>)

  /** `spin` maps each held inner spinlock to its holder; `locked` are the sleep locks taken, and `pid`
      is the process recorded in each of them. */
  datatype State = State(procs: seq<Proc>, spin: map<nat, nat>, locked: set<nat>, pid: map<nat, nat>)

  datatype Event =
    | CallAcquire(l: nat) | CallRelease(l: nat)
    | Go                            // the next step of the code at `pc`
    | Yield                         // timer interrupt, allowed while no spinlock is held
    | Schedule                      // the scheduler picks a RUNNABLE process
    | Kill(victim: nat)

  // ---------------------------------------------------------------- the steps

  predicate HoldsSpin(pc: Pc, l: nat) {
    match pc
    case AcqTest(m) => m == l
    case AcqExit(m) => m == l
    case SlpEnter(m) => m == l
    case SlpRelease(m) => m == l
    case RelClear(m) => m == l
    case Waking(m, _) => m == l
    case RelExit(m) => m == l
    case _ => false
  }

  predicate HoldsPlock(pc: Pc) {
    pc.SlpRelease? || pc.SlpSet? || pc.SlpSched? || pc.SlpTidy?
  }

  /** Code that is running with no spinlock held, so a timer interrupt may yield. */
  predicate Preemptible(pc: Pc) {
    pc.Idle? || pc.AcqEnter? || pc.RelEnter?
  }

  predicate Enabled(s: State, p: nat, e: Event) {
    p < |s.procs| &&
    var q := s.procs[p];
    match e
    case CallAcquire(l) => q.status == Running && q.pc.Idle? && l !in q.holds
    case CallRelease(l) => q.status == Running && q.pc.Idle? && l in q.holds
    case Yield => q.status == Running && Preemptible(q.pc)
    case Schedule => q.status == Runnable && !q.plock
    case Kill(v) => q.status == Running && q.pc.Idle? && v < |s.procs| && !s.procs[v].plock
    case Go =>
      match q.pc
      case Idle => false
      case Asleep(_) => false
      case SlpSched(_) => true
      case AcqEnter(l) => q.status == Running && l !in s.spin
      case RelEnter(l) => q.status == Running && l !in s.spin
      case SlpEnter(_) => q.status == Running && !q.plock
      case Waking(_, i) => q.status == Running && (i < |s.procs| ==> !s.procs[i].plock)
      case _ => q.status == Running
  }

  function Set(s: State, p: nat, q: Proc): State
    requires p < |s.procs|
  {
    s.(procs := s.procs[p := q])
  }

  /** Lines 592-594 of proc.c; also `kill`, which wakes whatever the victim sleeps on. */
  function Wake(s: State, v: nat, any: bool, l: nat): State
    requires v < |s.procs|
  {
    var q := s.procs[v];
    if q.status == Sleeping && (any || q.chan == Some(l)) then Set(s, v, q.(status := Runnable)) else s
  }

  function Apply(s: State, p: nat, e: Event): State
    requires Enabled(s, p, e)
  {
    var q := s.procs[p];
    match e
    case CallAcquire(l) => Set(s, p, q.(pc := AcqEnter(l)))
    case CallRelease(l) => Set(s, p, q.(pc := RelEnter(l)))
    case Yield => Set(s, p, q.(status := Runnable))
    case Kill(v) => Wake(s, v, true, 0)
    case Schedule =>
      if q.pc.Asleep? then Set(s, p, q.(status := Running, plock := true, pc := SlpTidy(q.pc.l)))
      else Set(s, p, q.(status := Running))
    case Go => Step(s, p)
  }

  function Step(s: State, p: nat): State
    requires Enabled(s, p, Go)
  {
    var q := s.procs[p];
    match q.pc
    case AcqEnter(l) => Set(s, p, q.(pc := AcqTest(l))).(spin := s.spin[l := p])
    case AcqTest(l) =>
      if l in s.locked then Set(s, p, q.(pc := SlpEnter(l)))
      else Set(s, p, q.(pc := AcqExit(l), holds := q.holds + {l})).(locked := s.locked + {l}, pid := s.pid[l := p])
    case AcqExit(l) => Set(s, p, q.(pc := Idle)).(spin := s.spin - {l})
    case SlpEnter(l) => Set(s, p, q.(pc := SlpRelease(l), plock := true))
    case SlpRelease(l) => Set(s, p, q.(pc := SlpSet(l))).(spin := s.spin - {l})
    case SlpSet(l) => Set(s, p, q.(pc := SlpSched(l), chan := Some(l), status := Sleeping))
    case SlpSched(l) => Set(s, p, q.(pc := Asleep(l), plock := false))
    case SlpTidy(l) => Set(s, p, q.(pc := AcqEnter(l), chan := None, plock := false))
    case RelEnter(l) => Set(s, p, q.(pc := RelClear(l))).(spin := s.spin[l := p])
    case RelClear(l) =>
      Set(s, p, q.(pc := Waking(l, 0), holds := q.holds - {l})).(locked := s.locked - {l}, pid := s.pid - {l})
    case Waking(l, i) =>
      if i >= |s.procs| then Set(s, p, q.(pc := RelExit(l)))
      else
        var t := Wake(s, i, false, l);
        Set(t, p, t.procs[p].(pc := Waking(l, i + 1)))
    case RelExit(l) => Set(s, p, q.(pc := Idle)).(spin := s.spin - {l})
  }

  // ---------------------------------------------------------------- the invariant

  /** On the way to sleep past the point of no return, or asleep and not yet woken. */
  predicate Waits(q: Proc, l: nat) {
    q.pc == SlpSet(l) || q.pc == SlpSched(l) || (q.pc == Asleep(l) && q.status == Sleeping)
  }

  /** A process holding the inner spinlock is in `wakeup` and has yet to look at process `p`. */
  predicate WakerComes(s: State, l: nat, p: nat) {
    && l in s.spin && s.spin[l] < |s.procs|
    && var w := s.procs[s.spin[l]].pc;
       w.Waking? && w.l == l && w.i <= p
  }

  predicate OnWayToSleep(pc: Pc) {
    pc.SlpEnter? || pc.SlpRelease? || pc.SlpSet? || pc.SlpSched? || pc.Asleep? || pc.SlpTidy?
  }

  /** What one process's fields say about each other. */
  predicate LocalOk(q: Proc) {
    && (q.plock <==> HoldsPlock(q.pc))
    && (q.status == Sleeping ==> q.pc.SlpSched? || q.pc.Asleep?)
    && (q.pc.SlpSched? ==> q.chan == Some(q.pc.l) && q.status == Sleeping)
    && (q.pc.Asleep? ==> q.chan == Some(q.pc.l) && q.status != Running)
    && (q.pc.RelEnter? || q.pc.RelClear? || q.pc.AcqExit? ==> q.pc.l in q.holds)
    && (q.pc.Waking? || q.pc.RelExit? || q.pc.AcqEnter? || q.pc.AcqTest? ==> q.pc.l !in q.holds)
    && (OnWayToSleep(q.pc) ==> q.pc.l !in q.holds)
    && (q.status == Runnable ==> Preemptible(q.pc) || q.pc.Asleep?)
  }

  ghost predicate SpinAgrees(s: State, p: nat)
    requires p < |s.procs|
  {
    forall l :: HoldsSpin(s.procs[p].pc, l) <==> l in s.spin && s.spin[l] == p
  }

  ghost predicate StaysTaken(s: State, p: nat)
    requires p < |s.procs|
  {
    var q := s.procs[p];
    q.holds <= s.locked && (q.pc.SlpEnter? || q.pc.SlpRelease? ==> q.pc.l in s.locked)
  }

  ghost predicate WakeupOwed(s: State, p: nat)
    requires p < |s.procs|
  {
    forall l | Waits(s.procs[p], l) :: l in s.locked || WakerComes(s, l, p)
  }

  /** What process `p` can rely on: the spinlocks it thinks it holds, and a lock that stays taken
      or a waker still to come for as long as it waits. */
  ghost predicate ProcOk(s: State, p: nat)
    requires p < |s.procs|
  {
    LocalOk(s.procs[p]) && SpinAgrees(s, p) && StaysTaken(s, p) && WakeupOwed(s, p)
  }

  ghost predicate OneHolder(s: State) {
    forall p, r, l | 0 <= p < |s.procs| && 0 <= r < |s.procs| && l in s.procs[p].holds && l in s.procs[r].holds ::
      p == r
  }

  ghost predicate HasHolder(s: State, l: nat) {
    exists p | 0 <= p < |s.procs| :: l in s.procs[p].holds
  }

  ghost predicate Inv(s: State) {
    && (forall l | l in s.locked :: HasHolder(s, l))
    && (forall l | l in s.spin :: s.spin[l] < |s.procs|)
    && (forall p | 0 <= p < |s.procs| :: ProcOk(s, p))
    && OneHolder(s)
  }

  // ---------------------------------------------------------------- every step keeps it

  lemma StepKeepsSelf(s: State, p: nat)
    requires Inv(s) && Enabled(s, p, Go)
    ensures ProcOk(Step(s, p), p)
  {
    assert ProcOk(s, p);
  }

  lemma StepKeepsOthersLocks(s: State, p: nat, r: nat)
    requires Inv(s) && Enabled(s, p, Go) && r < |s.procs| && r != p
    ensures var t := Step(s, p); LocalOk(t.procs[r]) && SpinAgrees(t, r) && StaysTaken(t, r)
  {
    assert ProcOk(s, p) && ProcOk(s, r);
    var pc := s.procs[r].pc;
    if pc.SlpEnter? || pc.SlpRelease? {
      assert HoldsSpin(pc, pc.l);
    }
    if s.procs[p].pc.RelClear? {
      assert s.procs[p].pc.l !in s.procs[r].holds;
    }
  }

  lemma StepKeepsOthersWakeup(s: State, p: nat, r: nat)
    requires Inv(s) && Enabled(s, p, Go) && r < |s.procs| && r != p
    ensures WakeupOwed(Step(s, p), r)
  {
    var t, pc := Step(s, p), s.procs[p].pc;
    assert ProcOk(s, p) && ProcOk(s, r);
    forall l | Waits(t.procs[r], l)
      ensures l in t.locked || WakerComes(t, l, r)
    {
      assert Waits(s.procs[r], l);
      assert HoldsSpin(pc, l) <==> l in s.spin && s.spin[l] == p;
    }
  }

  lemma StepKeepsHolders(s: State, p: nat)
    requires Inv(s) && Enabled(s, p, Go)
    ensures var t := Step(s, p);
            && OneHolder(t) && (forall l | l in t.locked :: HasHolder(t, l))
            && forall l | l in t.spin :: t.spin[l] < |t.procs|
  {
    var t := Step(s, p);
    assert ProcOk(s, p);
    forall r | 0 <= r < |s.procs|
      ensures s.procs[r].holds <= s.locked
    {
      assert ProcOk(s, r);
    }
    forall l | l in t.locked
      ensures HasHolder(t, l)
    {
      if l in s.locked {
        var r :| 0 <= r < |s.procs| && l in s.procs[r].holds;
        assert l in t.procs[r].holds;
      } else {
        assert l in t.procs[p].holds;
      }
    }
  }

  lemma ApplyKeepsProc(s: State, p: nat, e: Event, r: nat)
    requires Inv(s) && Enabled(s, p, e) && !e.Go? && r < |s.procs|
    ensures ProcOk(Apply(s, p, e), r)
  {
    assert ProcOk(s, p) && ProcOk(s, r);
  }

  lemma ApplyKeepsHolders(s: State, p: nat, e: Event)
    requires Inv(s) && Enabled(s, p, e) && !e.Go?
    ensures var t := Apply(s, p, e);
            OneHolder(t) && (forall l | l in t.locked :: HasHolder(t, l)) && t.spin == s.spin
  {
    var t := Apply(s, p, e);
    forall l | l in t.locked
      ensures HasHolder(t, l)
    {
      var r :| 0 <= r < |s.procs| && l in s.procs[r].holds;
      assert l in t.procs[r].holds;
    }
  }

  lemma ApplyKeepsInv(s: State, p: nat, e: Event)
    requires Inv(s) && Enabled(s, p, e)
    ensures Inv(Apply(s, p, e))
  {
    var t := Apply(s, p, e);
    assert |t.procs| == |s.procs|;
    forall r | 0 <= r < |t.procs|
      ensures ProcOk(t, r)
    {
      if !e.Go? {
        ApplyKeepsProc(s, p, e, r);
      } else if r == p {
        StepKeepsSelf(s, p);
      } else {
        StepKeepsOthersLocks(s, p, r);
        StepKeepsOthersWakeup(s, p, r);
      }
    }
    if e.Go? { StepKeepsHolders(s, p); } else { ApplyKeepsHolders(s, p, e); }
  }

  // ---------------------------------------------------------------- runs

  /** Boot: nothing is locked and every process is outside, with no lock of its own. */
  predicate Initial(s: State) {
    s.spin == map[] && s.locked == {} && s.pid == map[] &&
    forall p | 0 <= p < |s.procs| ::
      s.procs[p].pc.Idle? && s.procs[p].status != Sleeping && !s.procs[p].plock && s.procs[p].holds == {}
  }

  ghost predicate Reaches(s: State, run: seq<(nat, Event)>, t: State)
    decreases |run|
  {
    if run == [] then s == t
    else Enabled(s, run[0].0, run[0].1) && Reaches(Apply(s, run[0].0, run[0].1), run[1..], t)
  }

  ghost predicate Reachable(t: State) {
    exists s, run :: Initial(s) && Reaches(s, run, t)
  }

  lemma {:induction false} RunKeepsInv(s: State, run: seq<(nat, Event)>, t: State)
    requires Inv(s) && Reaches(s, run, t)
    ensures Inv(t)
    decreases |run|
  {
    if run != [] {
      ApplyKeepsInv(s, run[0].0, run[0].1);
      RunKeepsInv(Apply(s, run[0].0, run[0].1), run[1..], t);
    }
  }

  lemma ReachableInv(t: State)
    requires Reachable(t)
    ensures Inv(t)
  {
    var s, run :| Initial(s) && Reaches(s, run, t);
    RunKeepsInv(s, run, t);
  }

  /** No lost wakeup: whenever the inner spinlock is free and the sleep lock is not taken, nobody
      is asleep on it or past the point of no return on the way to sleep. */
  lemma NoLostWakeup(t: State, l: nat, p: nat)
    requires Reachable(t) && p < |t.procs| && l !in t.spin && l !in t.locked
    ensures !Waits(t.procs[p], l)
  {
    ReachableInv(t);
    assert ProcOk(t, p);
  }

  /** Whoever waits either waits for a process that has the lock, or is about to be looked at by
      the process that released it. */
  lemma WaitersAreOwedAWakeup(t: State, l: nat, p: nat)
    requires Reachable(t) && p < |t.procs| && Waits(t.procs[p], l)
    ensures HasHolder(t, l) || WakerComes(t, l, p)
  {
    ReachableInv(t);
    assert ProcOk(t, p);
  }

  /** A sleep lock has at most one holder, and has one exactly when it is taken. */
  lemma MutualExclusion(t: State, l: nat)
    requires Reachable(t)
    ensures forall p, r | 0 <= p < |t.procs| && 0 <= r < |t.procs| && l in t.procs[p].holds && l in t.procs[r].holds ::
      p == r
    ensures l in t.locked <==> HasHolder(t, l)
  {
    ReachableInv(t);
    if HasHolder(t, l) {
      var p :| 0 <= p < |t.procs| && l in t.procs[p].holds;
      assert ProcOk(t, p);
    }
  }

  // ---------------------------------------------------------------- holdingsleep

  /** Every lock that is held names its holder. */
  ghost predicate Named(s: State) {
    forall p, l | 0 <= p < |s.procs| && l in s.procs[p].holds :: l in s.pid && s.pid[l] == p
  }

  lemma ApplyKeepsNamed(s: State, p: nat, e: Event)
    requires Inv(s) && Named(s) && Enabled(s, p, e)
    ensures Named(Apply(s, p, e))
  {
    var t := Apply(s, p, e);
    forall r, l | 0 <= r < |t.procs| && l in t.procs[r].holds
      ensures l in t.pid && t.pid[l] == r
    {
      assert ProcOk(s, p) && ProcOk(s, r);
    }
  }

  lemma {:induction false} RunKeepsNamed(s: State, run: seq<(nat, Event)>, t: State)
    requires Inv(s) && Named(s) && Reaches(s, run, t)
    ensures Named(t)
    decreases |run|
  {
    if run != [] {
      ApplyKeepsInv(s, run[0].0, run[0].1);
      ApplyKeepsNamed(s, run[0].0, run[0].1);
      RunKeepsNamed(Apply(s, run[0].0, run[0].1), run[1..], t);
    }
  }

  /** `holdingsleep`: the lock is taken and the process recorded in it is the caller. */
  predicate HoldingSleep(s: State, p: nat, l: nat) {
    l in s.locked && l in s.pid && s.pid[l] == p
  }

  /** `holdingsleep` is right about who holds a lock. */
  lemma HoldingSleepIff(t: State, p: nat, l: nat)
    requires Reachable(t) && p < |t.procs|
    ensures HoldingSleep(t, p, l) <==> l in t.procs[p].holds
  {
    var s, run :| Initial(s) && Reaches(s, run, t);
    RunKeepsInv(s, run, t);
    RunKeepsNamed(s, run, t);
    assert ProcOk(t, p);
    if l in t.locked {
      assert HasHolder(t, l);
    }
  }

  // ---------------------------------------------------------------- what a call comes back with

  /** At the end of `acquiresleep` the caller has the lock, at the end of `releasesleep` it has not. */
  lemma HoldsAtExit(t: State, p: nat)
    requires Reachable(t) && p < |t.procs|
    ensures t.procs[p].pc.AcqExit? ==> t.procs[p].pc.l in t.procs[p].holds
    ensures t.procs[p].pc.RelExit? ==> t.procs[p].pc.l !in t.procs[p].holds
  {
    ReachableInv(t);
    assert ProcOk(t, p);
  }

  /** Process `p` makes no further call in the run. */
  predicate NoCall(run: seq<(nat, Event)>, p: nat) {
    forall i | 0 <= i < |run| && run[i].0 == p :: !run[i].1.CallAcquire? && !run[i].1.CallRelease?
  }

  /** A process in a call of `acquiresleep` for `l` that had the locks `had` before, or back from it. */
  predicate Acquiring(q: Proc, l: nat, had: set<nat>) {
    if q.pc == Idle || q.pc == AcqExit(l) then q.holds == had + {l}
    else q.holds == had && (q.pc == AcqEnter(l) || q.pc == AcqTest(l) || (OnWayToSleep(q.pc) && q.pc.l == l))
  }

  /** The same for `releasesleep`. */
  predicate Releasing(q: Proc, l: nat, had: set<nat>) {
    if q.pc == RelEnter(l) || q.pc == RelClear(l) then q.holds == had
    else q.holds == had - {l} && (q.pc == Idle || q.pc == RelExit(l) || (q.pc.Waking? && q.pc.l == l))
  }

  lemma StepKeepsCall(s: State, p: nat, e: Event, r: nat, l: nat, had: set<nat>)
    requires Enabled(s, r, e) && p < |s.procs| && NoCall([(r, e)], p)
    ensures Acquiring(s.procs[p], l, had) ==> Acquiring(Apply(s, r, e).procs[p], l, had)
    ensures Releasing(s.procs[p], l, had) ==> Releasing(Apply(s, r, e).procs[p], l, had)
  {
    assert [(r, e)][0] == (r, e);
  }

  lemma {:induction false} RunKeepsCall(s: State, run: seq<(nat, Event)>, t: State, p: nat, l: nat, had: set<nat>)
    requires Reaches(s, run, t) && p < |s.procs| && NoCall(run, p)
    ensures |t.procs| == |s.procs|
    ensures Acquiring(s.procs[p], l, had) ==> Acquiring(t.procs[p], l, had)
    ensures Releasing(s.procs[p], l, had) ==> Releasing(t.procs[p], l, had)
    decreases |run|
  {
    if run != [] {
      var (r, e) := run[0];
      assert NoCall([(r, e)], p) && NoCall(run[1..], p);
      StepKeepsCall(s, p, e, r, l, had);
      RunKeepsCall(Apply(s, r, e), run[1..], t, p, l, had);
    }
  }

  /** Whoever comes back from `acquiresleep` has the lock, and what it had before. */
  lemma AcquireReturnsHolding(s: State, p: nat, l: nat, run: seq<(nat, Event)>, t: State)
    requires Reachable(s) && Enabled(s, p, CallAcquire(l)) && Reaches(Apply(s, p, CallAcquire(l)), run, t)
    requires NoCall(run, p) && p < |t.procs| && t.procs[p].pc == Idle
    ensures t.procs[p].holds == s.procs[p].holds + {l}
    ensures forall r | 0 <= r < |t.procs| && r != p :: l !in t.procs[r].holds
  {
    RunKeepsCall(Apply(s, p, CallAcquire(l)), run, t, p, l, s.procs[p].holds);
    CallReachable(s, p, CallAcquire(l), run, t);
    MutualExclusion(t, l);
  }

  /** Whoever comes back from `releasesleep` has given up that lock and no other. */
  lemma ReleaseReturnsWithout(s: State, p: nat, l: nat, run: seq<(nat, Event)>, t: State)
    requires Enabled(s, p, CallRelease(l)) && Reaches(Apply(s, p, CallRelease(l)), run, t)
    requires NoCall(run, p) && p < |t.procs| && t.procs[p].pc == Idle
    ensures t.procs[p].holds == s.procs[p].holds - {l}
  {
    RunKeepsCall(Apply(s, p, CallRelease(l)), run, t, p, l, s.procs[p].holds);
  }

  lemma {:induction false} ReachesMore(s: State, run: seq<(nat, Event)>, t: State, more: seq<(nat, Event)>, u: State)
    requires Reaches(s, run, t) && Reaches(t, more, u)
    ensures Reaches(s, run + more, u)
    decreases |run|
  {
    if run == [] {
      assert run + more == more;
    } else {
      ReachesMore(Apply(s, run[0].0, run[0].1), run[1..], t, more, u);
      assert (run + more)[0] == run[0] && (run + more)[1..] == run[1..] + more;
    }
  }

  lemma ThenReachable(s: State, run: seq<(nat, Event)>, t: State)
    requires Reachable(s) && Reaches(s, run, t)
    ensures Reachable(t)
  {
    var i, first :| Initial(i) && Reaches(i, first, s);
    ReachesMore(i, first, s, run, t);
  }

  lemma CallReachable(s: State, p: nat, e: Event, run: seq<(nat, Event)>, t: State)
    requires Reachable(s) && Enabled(s, p, e) && Reaches(Apply(s, p, e), run, t)
    ensures Reachable(t)
  {
    var all := [(p, e)] + run;
    assert all[0] == (p, e) && all[1..] == run;
    ThenReachable(s, all, t);
  }

  // ---------------------------------------------------------------- nobody waits in vain

  /** Process `p` alone, step by step. */
  ghost predicate Runs(s: State, p: nat, events: seq<Event>, t: State)
    decreases |events|
  {
    if events == [] then s == t
    else Enabled(s, p, events[0]) && Runs(Apply(s, p, events[0]), p, events[1..], t)
  }

  /** In `acquiresleep` for `l`, before the lock is taken. */
  predicate Wants(q: Proc, l: nat) {
    q.pc == AcqEnter(l) || (OnWayToSleep(q.pc) && q.pc.l == l)
  }

  /** When the lock and its spinlock are free, whoever wants it, woken from sleep or not, gets it by its own
      next few steps. */
  lemma GetsFreeLock(s: State, p: nat, l: nat) returns (events: seq<Event>, t: State)
    requires Reachable(s) && p < |s.procs| && Wants(s.procs[p], l) && l !in s.locked && l !in s.spin
    ensures Runs(s, p, events, t) && |events| <= 5
    ensures p < |t.procs| && t.procs[p].pc == Idle && l in t.procs[p].holds
  {
    ReachableInv(s);
    NoLostWakeup(s, l, p);
    assert ProcOk(s, p);
    var q := s.procs[p];
    assert !HoldsSpin(q.pc, l);
    var s1, e1 := s, [];
    if q.status == Runnable { s1, e1 := Apply(s, p, Schedule), [Schedule]; }
    var s2, e2 := s1, [];
    if s1.procs[p].pc.SlpTidy? { s2, e2 := Step(s1, p), [Go]; }
    t := TakesFree(s2, p, l);
    RunsMore(s1, p, e2, s2, [Go, Go, Go], t);
    RunsMore(s, p, e1, s1, e2 + [Go, Go, Go], t);
    events := e1 + (e2 + [Go, Go, Go]);
  }

  lemma TakesFree(s: State, p: nat, l: nat) returns (t: State)
    requires p < |s.procs| && s.procs[p].pc == AcqEnter(l) && s.procs[p].status == Running
    requires l !in s.locked && l !in s.spin
    ensures Runs(s, p, [Go, Go, Go], t) && |t.procs| == |s.procs| && t.procs[p].pc == Idle && l in t.procs[p].holds
  {
    var a := Step(s, p);
    var b := Step(a, p);
    t := Step(b, p);
    assert Runs(t, p, [], t);
    assert Runs(b, p, [Go], t) by { assert [Go][1..] == []; }
    assert Runs(a, p, [Go, Go], t) by { assert [Go, Go][1..] == [Go]; }
    assert [Go, Go, Go][1..] == [Go, Go];
  }

  lemma RunsMore(s: State, p: nat, first: seq<Event>, t: State, more: seq<Event>, u: State)
    requires Runs(s, p, first, t) && Runs(t, p, more, u)
    ensures Runs(s, p, first + more, u)
    decreases |first|
  {
    if first == [] {
      assert first + more == more;
    } else {
      RunsMore(Apply(s, p, first[0]), p, first[1..], t, more, u);
      assert (first + more)[0] == first[0] && (first + more)[1..] == first[1..] + more;
    }
  }

  /** While a process is inside a call and not asleep, somebody can take a step of a call. */
  lemma NeverStuck(s: State, p: nat) returns (r: nat, e: Event)
    requires Reachable(s) && p < |s.procs| && s.procs[p].pc != Idle && s.procs[p].status != Sleeping
    ensures (e == Go || e == Schedule) && Enabled(s, r, e) && s.procs[r].pc != Idle
  {
    ReachableInv(s);
    assert ProcOk(s, p);
    r, e := p, if s.procs[p].status == Runnable then Schedule else Go;
    if !Enabled(s, r, e) && (s.procs[p].pc.AcqEnter? || s.procs[p].pc.RelEnter?) {
      r := s.spin[s.procs[p].pc.l];
      assert ProcOk(s, r) && HoldsSpin(s.procs[r].pc, s.procs[p].pc.l);
    }
    if !Enabled(s, r, e) {
      r := s.procs[r].pc.i;
      assert ProcOk(s, r);
    }
  }

  /** A sleeper is woken by a release of its own lock or by `kill`, and by nothing else. */
  lemma WokenOnlyBy(s: State, r: nat, e: Event, p: nat)
    requires Reachable(s) && Enabled(s, r, e) && p < |s.procs| && s.procs[p].status == Sleeping
    ensures Apply(s, r, e).procs[p].status != Sleeping <==>
              e == Kill(p) || (e == Go && OnWayToSleep(s.procs[p].pc) && s.procs[r].pc == Waking(s.procs[p].pc.l, p))
  {
    ReachableInv(s);
    assert ProcOk(s, p) && ProcOk(s, r);
  }

  /** A process can come to sleep on a lock that another one has. */
  lemma CanWait() returns (t: State)
    ensures Reachable(t) && |t.procs| == 2 && 0 in t.procs[0].holds
    ensures t.procs[1].pc == Asleep(0) && t.procs[1].status == Sleeping && Waits(t.procs[1], 0)
  {
    var idle := Proc(Idle, Running, None, false, {});
    var s := State([idle, idle], map[], {}, map[]);
    assert Reaches(s, [], s);
    var a := Apply(s, 0, CallAcquire(0));
    CallReachable(s, 0, CallAcquire(0), [], a);
    var b := TakesFree(a, 0, 0);
    AloneReachable(a, 0, [Go, Go, Go], b);
    assert b.procs[1] == idle && b.locked == {0} && b.spin == map[] by { TakenFirst(a, b); }
    var c := Apply(b, 1, CallAcquire(0));
    CallReachable(b, 1, CallAcquire(0), [], c);
    t := FallsAsleep(c, 1, 0);
  }

  lemma TakenFirst(a: State, b: State)
    requires |a.procs| == 2 && a.procs[0].pc == AcqEnter(0) && a.procs[0].status == Running
    requires a.locked == {} && a.spin == map[] && Runs(a, 0, [Go, Go, Go], b)
    ensures b.procs[1] == a.procs[1] && b.locked == {0} && b.spin == map[]
  {
    var c := Step(a, 0);
    assert [Go, Go, Go][1..] == [Go, Go] && [Go, Go][1..] == [Go] && [Go][1..] == [];
    assert Runs(c, 0, [Go, Go], b);
    var d := Step(c, 0);
    assert Runs(d, 0, [Go], b);
    assert Runs(Step(d, 0), 0, [], b);
  }

  lemma {:induction false} AloneReachable(s: State, p: nat, events: seq<Event>, t: State)
    requires Reachable(s) && Runs(s, p, events, t)
    ensures Reachable(t)
    decreases |events|
  {
    if events != [] {
      var a := Apply(s, p, events[0]);
      assert Reaches(a, [], a);
      CallReachable(s, p, events[0], [], a);
      AloneReachable(a, p, events[1..], t);
    }
  }

  lemma FallsAsleep(s: State, p: nat, l: nat) returns (t: State)
    requires Reachable(s) && p < |s.procs| && s.procs[p].pc == AcqEnter(l) && s.procs[p].status == Running
    requires l in s.locked && l !in s.spin && !s.procs[p].plock
    ensures Reachable(t) && |t.procs| == |s.procs| && t.procs[p].pc == Asleep(l) && t.procs[p].status == Sleeping
    ensures forall r | 0 <= r < |s.procs| && r != p :: t.procs[r] == s.procs[r]
  {
    var a := Go1(s, p);
    var b := Go1(a, p);
    var c := Go1(b, p);
    var d := Go1(c, p);
    var e := Go1(d, p);
    t := Go1(e, p);
  }

  lemma Go1(s: State, p: nat) returns (t: State)
    requires Reachable(s) && Enabled(s, p, Go)
    ensures Reachable(t) && t == Step(s, p)
  {
    t := Step(s, p);
    assert Reaches(t, [], t);
    CallReachable(s, p, Go, [], t);
  }
}
