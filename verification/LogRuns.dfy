/** kernel/log.c and kernel/bio.c together, over whole runs: operations of any number of processes,
    reads at any time, the disk writes of commits one by one, crashes, interrupted recoveries and boots.

    The protocol steps are those of LogOps, the effects on cache and disk those of the methods of
    `Log.FsLog`. A boot that found blocks to install starts no run: it leaves reference counts that
    wrapped around, and Recovery shows what that breaks. */
module LogRuns {
  import opened Options
  import opened Bcache
  import opened LogDisk
  import opened Log
  import LogOps

  /** What a commit has done: nothing, copied `t` blocks to the log, or, with the header written,
      installed `t` of them. */
  datatype Phase = Quiet | Copying(t: nat) | Installing(t: nat)

  /** `view` is what reads return; `committed` is what it was at the last commit point. */
  datatype State = State(up: bool, ops: LogOps.State, phase: Phase, buf: seq<Buf>, disk: Disk,
                         view: Disk, held: seq<nat>, committed: Disk)

  datatype Event =
    | Begin(p: nat)
    | Check(p: nat)
    | Write(p: nat, b: nat, data: Block)  // change a held buffer and log it
    | End(p: nat)
    | Finish(p: nat)
    | Read(key: Key, b: nat)
    | Release(b: nat)
    | LogPut(b: nat, f: nat)              // log.c:185-186, from buffer `f` by way of `b`
    | Publish(b: nat)                     // log.c:111 with the list of the commit
    | InstallPut(lb: nat, db: nat)        // log.c:76-78
    | Clear(p: nat, b: nat)               // log.c:199-200
    | Skip(p: nat)                        // log.c:195 with nothing logged
    | Crash
    | Recover(d: Disk)                    // a recovery got as far as `d`
    | Boot(start: seq<Buf>, procs: nat)   // recovery had nothing to install

  datatype Config = Config(c: LogOps.Params, l: Layout)

  predicate ConfigOk(g: Config) {
    g.l.size == g.c.size > g.c.logsize && g.l.start > 0
  }

  /** The log area is on the disk and a header block has room for LOGSIZE block numbers. */
  ghost predicate AreaOk(g: Config, d: Disk) {
    && Head(g.l) in d && g.c.logsize < |d[Head(g.l)]|
    && forall i: nat | i + 1 < g.l.size :: Slot(g.l, i) in d
  }

  // ---------------------------------------------------------------- steps

  /** A step of the protocol that touches no data. */
  predicate OpStep(g: Config, s: State, p: nat, e: LogOps.Event, phase: Phase, t: State) {
    s.up && LogOps.Enabled(g.c, s.ops, p, e) && t == s.(ops := LogOps.Apply(g.c, s.ops, p, e), phase := phase)
  }

  /** A buffer that somebody holds. */
  predicate Holding(s: State, b: nat) {
    s.up && b < |s.buf| && b < |s.held| && s.held[b] > 0 && s.buf[b].valid
  }

  predicate WriteStep(g: Config, s: State, p: nat, b: nat, data: Block, t: State) {
    && Holding(s, b) && s.buf[b].key in s.view && s.buf[b].key != NOKEY && s.buf[b].key.dev == g.l.dev
    && var no := s.buf[b].key.blockno;
       && LogOps.Enabled(g.c, s.ops, p, LogOps.Append(no))
       && t == s.(ops := LogOps.Apply(g.c, s.ops, p, LogOps.Append(no)),
                  buf := s.buf[b := Changed(s.buf[b], data, no in s.ops.blocks)],
                  view := s.view[s.buf[b].key := data])
  }

  ghost predicate ReadStep(s: State, key: Key, b: nat, t: State) {
    && s.up && key in s.disk && key != NOKEY && ReadInto(s.buf, s.disk, key, b, t.buf)
    && b < |s.held| && s.held[b] + 2 < UINT
    && t == s.(buf := t.buf, held := s.held[b := s.held[b] + 1])
  }

  predicate ReleaseStep(s: State, b: nat, t: State) {
    && s.up && b < |s.buf| && b < |s.held| && s.held[b] > 0
    && t == s.(buf := s.buf[b := s.buf[b].(refcnt := Minus(s.buf[b].refcnt))], held := s.held[b := s.held[b] - 1])
  }

  /** A held buffer gets new data and is written to the disk. */
  function Put(s: State, b: nat, data: Block): State
    requires b < |s.buf|
  {
    s.(buf := s.buf[b := s.buf[b].(data := data)], disk := s.disk[s.buf[b].key := data])
  }

  predicate LogPutStep(g: Config, s: State, b: nat, f: nat, t: State) {
    && s.phase.Copying? && s.phase.t < |s.ops.blocks| && Holding(s, b) && Holding(s, f)
    && s.buf[b].key == Slot(g.l, s.phase.t) && s.buf[f].key == HomeKey(g.l, s.ops.blocks[s.phase.t])
    && t == Put(s, b, s.buf[f].data).(phase := Copying(s.phase.t + 1))
  }

  predicate PublishStep(g: Config, s: State, b: nat, t: State) {
    && s.phase == Copying(|s.ops.blocks|) && s.ops.blocks != [] && Holding(s, b) && s.buf[b].key == Head(g.l)
    && |s.ops.blocks| < |s.buf[b].data|
    && t == Put(s, b, WithList(s.buf[b].data, s.ops.blocks)).(phase := Installing(0), committed := s.view)
  }

  predicate InstallPutStep(g: Config, s: State, lb: nat, db: nat, t: State) {
    && s.phase.Installing? && s.phase.t < |s.ops.blocks| && Holding(s, lb) && Holding(s, db)
    && s.buf[lb].key == Slot(g.l, s.phase.t) && s.buf[db].key == HomeKey(g.l, s.ops.blocks[s.phase.t])
    && var u := Put(s, db, s.buf[lb].data);
       t == u.(buf := u.buf[db := u.buf[db].(refcnt := Minus(u.buf[db].refcnt))], phase := Installing(s.phase.t + 1))
  }

  predicate ClearStep(g: Config, s: State, p: nat, b: nat, t: State) {
    && s.phase == Installing(|s.ops.blocks|) && Holding(s, b) && s.buf[b].key == Head(g.l) && |s.buf[b].data| > 0
    && LogOps.Enabled(g.c, s.ops, p, LogOps.Commit)
    && t == Put(s, b, WithList(s.buf[b].data, [])).(ops := LogOps.Apply(g.c, s.ops, p, LogOps.Commit), phase := Quiet)
  }

  ghost predicate BootStep(g: Config, s: State, start: seq<Buf>, procs: nat, t: State) {
    && !s.up && GoodDisk(g.l, s.disk) && HeaderOf(g.l, s.disk) == [] && UniqueKeys(start)
    && (forall i | 0 <= i < |start| :: RebootAt(g.l, start, s.disk, [], i))
    && t == State(true, LogOps.State(seq(procs, _ => LogOps.Out), 0, false, [], false), Quiet, start, s.disk,
                  Home(g.l, s.disk), seq(|start|, _ => 0), s.committed)
  }

  ghost predicate Step(g: Config, s: State, e: Event, t: State) {
    match e
    case Begin(p) => OpStep(g, s, p, LogOps.Begin, s.phase, t)
    case Check(p) => OpStep(g, s, p, LogOps.Check, s.phase, t)
    case Write(p, b, data) => WriteStep(g, s, p, b, data, t)
    case End(p) => OpStep(g, s, p, LogOps.End, if s.ops.outstanding == 1 then Copying(0) else s.phase, t)
    case Finish(p) => OpStep(g, s, p, LogOps.Finish, s.phase, t)
    case Read(key, b) => ReadStep(s, key, b, t)
    case Release(b) => ReleaseStep(s, b, t)
    case LogPut(b, f) => LogPutStep(g, s, b, f, t)
    case Publish(b) => PublishStep(g, s, b, t)
    case InstallPut(lb, db) => InstallPutStep(g, s, lb, db, t)
    case Clear(p, b) => ClearStep(g, s, p, b, t)
    case Skip(p) => s.phase == Copying(0) && s.ops.blocks == [] && OpStep(g, s, p, LogOps.Commit, Quiet, t)
    case Crash => s.up && t == s.(up := false)
    case Recover(d) => !s.up && GoodDisk(g.l, s.disk) && Recovering(g.l, s.disk, d) && t == s.(disk := d)
    case Boot(start, procs) => BootStep(g, s, start, procs, t)
  }

  // ---------------------------------------------------------------- the invariant

  /** The blocks that are pinned: those logged and not yet installed. */
  function Pins(s: State): seq<nat> {
    if s.phase.Installing? && s.phase.t <= |s.ops.blocks| then s.ops.blocks[s.phase.t..] else s.ops.blocks
  }

  /** The first `t` log blocks hold the latest contents of the first `t` blocks of the header. */
  ghost predicate InTheLog(l: Layout, blocks: seq<nat>, disk: Disk, view: Disk, t: nat) {
    && t <= |blocks|
    && forall i {:trigger LoggedAt(l, blocks, disk, view, i)} | 0 <= i < t :: LoggedAt(l, blocks, disk, view, i)
  }

  predicate LoggedAt(l: Layout, blocks: seq<nat>, disk: Disk, view: Disk, i: nat)
    requires i < |blocks|
  {
    Slot(l, i) in disk && HomeKey(l, blocks[i]) in view && disk[Slot(l, i)] == view[HomeKey(l, blocks[i])]
  }

  /** Before its header is on the disk a commit changes no home block; after that the log has every
      block of the new file system that may not be at home yet. */
  ghost predicate PhaseOk(g: Config, s: State) {
    && GoodDisk(g.l, s.disk)
    && match s.phase
       case Quiet => HeaderOf(g.l, s.disk) == [] && s.committed == Home(g.l, s.disk)
       case Copying(t) =>
         && HeaderOf(g.l, s.disk) == [] && s.committed == Home(g.l, s.disk)
         && InTheLog(g.l, s.ops.blocks, s.disk, s.view, t)
       case Installing(t) =>
         && t <= |s.ops.blocks| && HeaderOf(g.l, s.disk) == s.ops.blocks && s.committed == s.view
         && InTheLog(g.l, s.ops.blocks, s.disk, s.view, |s.ops.blocks|)
  }

  /** A commit runs and its last write is still to come. */
  predicate AtWork(ops: LogOps.State) {
    ops.committing && forall p | 0 <= p < |ops.procs| :: ops.procs[p] != LogOps.Committing(true)
  }

  ghost predicate UpInv(g: Config, s: State) {
    true == (
      && LogOps.Inv(g.c, s.ops) && |s.ops.blocks| <= g.c.logsize && (s.phase.Quiet? || AtWork(s.ops))
      && AreaOk(g, s.disk) && Agree(g.l, Pins(s), s.buf, s.disk, s.view, s.held) && PhaseOk(g, s))
  }

  ghost predicate DownInv(g: Config, s: State) {
    AreaOk(g, s.disk) && GoodDisk(g.l, s.disk) && After(g.l, s.disk) == s.committed
  }

  ghost predicate Inv(g: Config, s: State) {
    if s.up then UpInv(g, s) else DownInv(g, s)
  }

  /** With the header on the disk, installing what the log has gives what clients see. */
  lemma InstallingAfter(l: Layout, blocks: seq<nat>, pins: seq<nat>, buf: seq<Buf>, disk: Disk, view: Disk,
                        held: seq<nat>)
    requires Agree(l, pins, buf, disk, view, held) && (forall x | x in pins :: x in blocks)
    requires GoodDisk(l, disk) && HeaderOf(l, disk) == blocks && InTheLog(l, blocks, disk, view, |blocks|)
    ensures After(l, disk) == view
  {
    var vals := seq(|blocks|, i requires 0 <= i < |blocks| => disk[Slot(l, i)]);
    InstallIsUpdated(l, disk, blocks, vals, |blocks|);
    var home := Home(l, disk);
    assert home.Keys == view.Keys;
    forall i | 0 <= i < |blocks|
      ensures HomeKey(l, blocks[i]) in view && view[HomeKey(l, blocks[i])] == vals[i]
    {
      assert LoggedAt(l, blocks, disk, view, i);
    }
    UpdatedAt(l, home, blocks, vals, |blocks|, view);
    forall k | k in view && !Touched(l, blocks, |blocks|, k)
      ensures home[k] == view[k]
    {
      assert ViewAt(l, pins, buf, disk, view, k);
      LoggedIsTouched(l, blocks, k);
    }
  }

  /** What a completed recovery would give, at any moment. */
  lemma UpAfter(g: Config, s: State)
    requires s.up && UpInv(g, s)
    ensures DownInv(g, s)
  {
    if s.phase.Installing? {
      InstallingAfter(g.l, s.ops.blocks, Pins(s), s.buf, s.disk, s.view, s.held);
    }
  }

  // ---------------------------------------------------------------- every step keeps it

  /** While a process is inside an operation no commit runs. */
  lemma InsideIsQuiet(g: Config, s: State, p: nat)
    requires s.up && UpInv(g, s) && p < |s.ops.procs| && s.ops.procs[p].In?
    ensures s.phase.Quiet? && !s.ops.committing
  {
    LogOps.SumAtLeast(LogOps.Active, s.ops.procs, p);
  }

  lemma HeaderHasRoom(c: LogOps.Params, ops: LogOps.State)
    requires LogOps.Inv(c, ops)
    ensures |ops.blocks| <= c.logsize
  {
    LogOps.ReserveNonNeg(c, ops.procs);
  }

  /** The process that ends the last operation is the only one to commit. */
  lemma NoneDone(g: Config, s: State, p: nat, ops: LogOps.State)
    requires s.up && UpInv(g, s) && !s.ops.committing && p < |s.ops.procs|
    requires ops.committing && ops.procs == s.ops.procs[p := LogOps.Committing(false)]
    ensures AtWork(ops)
  {
    forall q | 0 <= q < |ops.procs|
      ensures ops.procs[q] != LogOps.Committing(true)
    {
      LogOps.SumAtLeast(LogOps.Committer, s.ops.procs, q);
    }
  }

  lemma OpKeeps(g: Config, s: State, p: nat, e: LogOps.Event, phase: Phase, t: State)
    requires ConfigOk(g) && Inv(g, s) && OpStep(g, s, p, e, phase, t)
    requires e.Begin? || e.Check? || e.End? || e.Finish?
    requires phase == if e.End? && s.ops.outstanding == 1 then Copying(0) else s.phase
    ensures Inv(g, t)
  {
    LogOps.ApplyKeepsInv(g.c, s.ops, p, e);
    HeaderHasRoom(g.c, t.ops);
    if s.ops.procs[p].In? { InsideIsQuiet(g, s, p); }
    assert t.ops.blocks == s.ops.blocks && s.phase.Quiet?;
    if e.End? && t.ops.committing { NoneDone(g, s, p, t.ops); }
  }

  lemma WriteKeeps(g: Config, s: State, p: nat, b: nat, data: Block, t: State)
    requires ConfigOk(g) && Inv(g, s) && Step(g, s, Write(p, b, data), t)
    ensures Inv(g, t)
  {
    var no := s.buf[b].key.blockno;
    InsideIsQuiet(g, s, p);
    LogOps.ApplyKeepsInv(g.c, s.ops, p, LogOps.Append(no));
    HeaderHasRoom(g.c, t.ops);
    WriteAgrees(g.l, s.ops.blocks, s.buf, s.disk, s.view, s.held, b, data, t.ops.blocks, t.buf);
  }

  lemma ReadKeeps(g: Config, s: State, key: Key, b: nat, t: State)
    requires Inv(g, s) && Step(g, s, Read(key, b), t)
    ensures Inv(g, t)
    ensures Holds(t.buf[b], key, if key in s.view then s.view[key] else s.disk[key])
  {
    ReadAgrees(g.l, Pins(s), s.buf, s.disk, s.view, s.held, key, b, t.buf);
  }

  lemma ReleaseKeeps(g: Config, s: State, b: nat, t: State)
    requires Inv(g, s) && Step(g, s, Release(b), t)
    ensures Inv(g, t)
  {
    ReleaseAgrees(g.l, Pins(s), s.buf, s.disk, s.view, s.held, b);
  }

  /** A valid buffer of the log area holds what the disk holds. */
  lemma LogBuffer(g: Config, s: State, b: nat)
    requires s.up && UpInv(g, s) && ConfigOk(g) && Holding(s, b) && InLog(g.l, s.buf[b].key)
    ensures s.buf[b].key in s.disk && s.buf[b].data == s.disk[s.buf[b].key] && s.buf[b].key != NOKEY
  {
    assert SyncedAt(g.l, Pins(s), s.buf, s.disk, b);
    assert s.buf[b].key.blockno in Pins(s) ==> PinAt(g.l, s.disk, s.buf[b].key.blockno);
  }

  /** A write to a block of the log area changes no home block. */
  lemma AreaWrite(g: Config, d: Disk, key: Key, data: Block)
    requires InLog(g.l, key) && key in d
    ensures Home(g.l, d[key := data]) == Home(g.l, d)
  {
  }

  lemma LogPutKeeps(g: Config, s: State, b: nat, f: nat, t: State)
    requires ConfigOk(g) && Inv(g, s) && Step(g, s, LogPut(b, f), t)
    ensures Inv(g, t)
  {
    var k, l := s.phase.t, g.l;
    assert InLog(l, Slot(l, k));
    LogBuffer(g, s, b);
    LoggedBuffer(l, s.ops.blocks, s.buf, s.disk, s.view, s.held, s.ops.blocks[k]);
    LogAreaAgrees(l, s.ops.blocks, s.buf, s.disk, s.view, s.held, b, s.buf[f].data);
    AreaWrite(g, s.disk, Slot(l, k), s.buf[f].data);
    forall i | 0 <= i < k + 1
      ensures LoggedAt(l, t.ops.blocks, t.disk, t.view, i)
    {
      if i < k { assert LoggedAt(l, s.ops.blocks, s.disk, s.view, i); }
    }
  }

  lemma BlocksGood(g: Config, s: State)
    requires ConfigOk(g) && s.up && UpInv(g, s) && !s.phase.Installing?
    ensures GoodList(g.l, s.disk, s.ops.blocks)
  {
    forall i | 0 <= i < |s.ops.blocks|
      ensures Slot(g.l, i) in s.disk
      ensures HomeKey(g.l, s.ops.blocks[i]) in s.disk && !InLog(g.l, HomeKey(g.l, s.ops.blocks[i]))
    {
      LoggedBuffer(g.l, s.ops.blocks, s.buf, s.disk, s.view, s.held, s.ops.blocks[i]);
    }
  }

  lemma PublishKeeps(g: Config, s: State, b: nat, t: State)
    requires ConfigOk(g) && Inv(g, s) && Step(g, s, Publish(b), t)
    ensures Inv(g, t)
  {
    var l, blocks := g.l, s.ops.blocks;
    assert InLog(l, Head(l));
    LogBuffer(g, s, b);
    BlocksGood(g, s);
    LogAreaAgrees(l, blocks, s.buf, s.disk, s.view, s.held, b, t.buf[b].data);
    assert Pins(t) == blocks;
    forall i | 0 <= i < |blocks|
      ensures LoggedAt(l, blocks, t.disk, t.view, i)
    {
      assert LoggedAt(l, blocks, s.disk, s.view, i);
    }
  }

  lemma InstallPutKeeps(g: Config, s: State, lb: nat, db: nat, t: State)
    requires ConfigOk(g) && Inv(g, s) && Step(g, s, InstallPut(lb, db), t)
    ensures Inv(g, t)
  {
    var k, l, blocks := s.phase.t, g.l, s.ops.blocks;
    var pins, home := blocks[k..], HomeKey(l, blocks[k]);
    assert InLog(l, Slot(l, k)) && InLog(l, Head(l)) && pins[0] == blocks[k] && pins[1..] == blocks[k + 1..];
    LogBuffer(g, s, lb);
    assert LoggedAt(l, blocks, s.disk, s.view, k);
    LoggedBuffer(l, pins, s.buf, s.disk, s.view, s.held, blocks[k]);
    InstallAgrees(l, pins, s.buf, s.disk, s.view, s.held, db);
    assert s.buf[db].(data := s.buf[lb].data) == s.buf[db];
    assert t.buf == s.buf[db := s.buf[db].(refcnt := Minus(s.buf[db].refcnt))] && Pins(t) == pins[1..];
    assert home != Head(l) && t.disk.Keys == s.disk.Keys && t.disk[Head(l)] == s.disk[Head(l)];
    forall i | 0 <= i < |blocks|
      ensures LoggedAt(l, blocks, t.disk, t.view, i)
    {
      assert LoggedAt(l, blocks, s.disk, s.view, i) && InLog(l, Slot(l, i));
    }
  }

  lemma ClearKeeps(g: Config, s: State, p: nat, b: nat, t: State)
    requires ConfigOk(g) && Inv(g, s) && Step(g, s, Clear(p, b), t)
    ensures Inv(g, t)
  {
    var l := g.l;
    assert InLog(l, Head(l)) && Pins(s) == [];
    LogBuffer(g, s, b);
    LogAreaAgrees(l, [], s.buf, s.disk, s.view, s.held, b, t.buf[b].data);
    DiskIsView(l, s.buf, s.disk, s.view, s.held);
    AreaWrite(g, s.disk, Head(l), t.buf[b].data);
    LogOps.ApplyKeepsInv(g.c, s.ops, p, LogOps.Commit);
  }

  lemma SkipKeeps(g: Config, s: State, p: nat, t: State)
    requires ConfigOk(g) && Inv(g, s) && Step(g, s, Skip(p), t)
    ensures Inv(g, t)
  {
    LogOps.ApplyKeepsInv(g.c, s.ops, p, LogOps.Commit);
  }

  lemma BootKeeps(g: Config, s: State, start: seq<Buf>, procs: nat, t: State)
    requires Inv(g, s) && Step(g, s, Boot(start, procs), t)
    ensures Inv(g, t)
  {
    LogOps.InitialInv(g.c, t.ops);
    forall i | 0 <= i < |start|
      ensures SyncedAt(g.l, [], start, s.disk, i) && RefAt(g.l, [], start, t.held, i)
    {
      assert RebootAt(g.l, start, s.disk, [], i);
    }
    forall k | k in t.view
      ensures ViewAt(g.l, [], start, s.disk, t.view, k)
    {
    }
  }

  lemma CrashKeeps(g: Config, s: State, t: State)
    requires Inv(g, s) && Step(g, s, Crash, t)
    ensures Inv(g, t)
  {
    UpAfter(g, s);
  }

  lemma RecoverKeeps(g: Config, s: State, d: Disk, t: State)
    requires Inv(g, s) && Step(g, s, Recover(d), t)
    ensures Inv(g, t)
  {
    RecoveringKeepsAfter(g.l, s.disk, d);
    RecoveringArea(g, s.disk, d);
  }

  lemma RecoveringArea(g: Config, d: Disk, e: Disk)
    requires GoodDisk(g.l, d) && AreaOk(g, d) && Recovering(g.l, d, e)
    ensures AreaOk(g, e)
  {
    assert InLog(g.l, Head(g.l));
    forall i: nat | i + 1 < g.l.size
      ensures InLog(g.l, Slot(g.l, i))
    {
    }
  }

  lemma StepKeepsInv(g: Config, s: State, e: Event, t: State)
    requires ConfigOk(g) && Inv(g, s) && Step(g, s, e, t)
    ensures Inv(g, t)
  {
    if e.Begin? || e.Check? || e.End? || e.Finish? {
      ProtocolKeeps(g, s, e, t);
    } else if e.Write? || e.Read? || e.Release? {
      UseKeeps(g, s, e, t);
    } else {
      CommitOrCrashKeeps(g, s, e, t);
    }
  }

  lemma UseKeeps(g: Config, s: State, e: Event, t: State)
    requires ConfigOk(g) && Inv(g, s) && Step(g, s, e, t) && (e.Write? || e.Read? || e.Release?)
    ensures Inv(g, t)
  {
    match e
    case Write(p, b, data) => WriteKeeps(g, s, p, b, data, t);
    case Read(key, b) => ReadKeeps(g, s, key, b, t);
    case Release(b) => ReleaseKeeps(g, s, b, t);
  }

  lemma ProtocolKeeps(g: Config, s: State, e: Event, t: State)
    requires ConfigOk(g) && Inv(g, s) && Step(g, s, e, t) && (e.Begin? || e.Check? || e.End? || e.Finish?)
    ensures Inv(g, t)
  {
    match e
    case Begin(p) => OpKeeps(g, s, p, LogOps.Begin, s.phase, t);
    case Check(p) => OpKeeps(g, s, p, LogOps.Check, s.phase, t);
    case End(p) => OpKeeps(g, s, p, LogOps.End, t.phase, t);
    case Finish(p) => OpKeeps(g, s, p, LogOps.Finish, s.phase, t);
  }

  lemma CommitOrCrashKeeps(g: Config, s: State, e: Event, t: State)
    requires ConfigOk(g) && Inv(g, s) && Step(g, s, e, t)
    requires e.LogPut? || e.Publish? || e.InstallPut? || e.Clear? || e.Skip? || e.Crash? || e.Recover? || e.Boot?
    ensures Inv(g, t)
  {
    match e
    case LogPut(b, f) => LogPutKeeps(g, s, b, f, t);
    case Publish(b) => PublishKeeps(g, s, b, t);
    case InstallPut(lb, db) => InstallPutKeeps(g, s, lb, db, t);
    case Clear(p, b) => ClearKeeps(g, s, p, b, t);
    case Skip(p) => SkipKeeps(g, s, p, t);
    case Crash => CrashKeeps(g, s, t);
    case Recover(d) => RecoverKeeps(g, s, d, t);
    case Boot(start, procs) => BootKeeps(g, s, start, procs, t);
  }

  // ---------------------------------------------------------------- runs

  /** A machine that is off, with a disk whose log is sound. */
  ghost predicate Initial(g: Config, s: State) {
    !s.up && AreaOk(g, s.disk) && GoodDisk(g.l, s.disk) && s.committed == After(g.l, s.disk)
  }

  ghost predicate Reaches(g: Config, s: State, run: seq<(Event, State)>, t: State)
    decreases |run|
  {
    if run == [] then s == t
    else Step(g, s, run[0].0, run[0].1) && Reaches(g, run[0].1, run[1..], t)
  }

  ghost predicate Reachable(g: Config, t: State) {
    exists s, run :: Initial(g, s) && Reaches(g, s, run, t)
  }

  lemma {:induction false} RunKeepsInv(g: Config, s: State, run: seq<(Event, State)>, t: State)
    requires ConfigOk(g) && Inv(g, s) && Reaches(g, s, run, t)
    ensures Inv(g, t)
    decreases |run|
  {
    if run != [] {
      StepKeepsInv(g, s, run[0].0, run[0].1);
      RunKeepsInv(g, run[0].1, run[1..], t);
    }
  }

  lemma ReachableInv(g: Config, t: State)
    requires ConfigOk(g) && Reachable(g, t)
    ensures Inv(g, t)
  {
    var s, run :| Initial(g, s) && Reaches(g, s, run, t);
    RunKeepsInv(g, s, run, t);
  }

  /** In every state of every run, whatever interrupted it, a completed recovery of the disk gives what
      clients saw at the last commit point. */
  lemma RunsRecover(g: Config, s: State)
    requires ConfigOk(g) && Reachable(g, s)
    ensures GoodDisk(g.l, s.disk) && After(g.l, s.disk) == s.committed
    ensures Home(g.l, Recovered(g.l, s.disk)) == s.committed && HeaderOf(g.l, Recovered(g.l, s.disk)) == []
  {
    ReachableInv(g, s);
    if s.up { UpAfter(g, s); }
    RecoveryIsAtomic(g.l, [s.disk]);
  }

  /** The commit point moves at the header write of a commit and nowhere else, to what clients see then. */
  lemma CommitPoint(g: Config, s: State, e: Event, t: State)
    requires Step(g, s, e, t)
    ensures t.committed == if e.Publish? then s.view else s.committed
  {
  }

  /** At that moment no process is inside an operation, so of every operation all its writes are in the
      file system that will be recovered, or none. */
  lemma CommitPointsAtRest(g: Config, s: State, b: nat, t: State)
    requires ConfigOk(g) && Reachable(g, s) && Step(g, s, Publish(b), t)
    ensures t.committed == s.view && forall p | 0 <= p < |s.ops.procs| :: !s.ops.procs[p].In?
  {
    ReachableInv(g, s);
    forall p | 0 <= p < |s.ops.procs|
      ensures !s.ops.procs[p].In?
    {
      if s.ops.procs[p].In? { InsideIsQuiet(g, s, p); }
    }
  }

  /** While the machine runs, what clients see changes only by writes inside operations. */
  lemma WritesAreInside(g: Config, s: State, e: Event, t: State)
    requires s.up && Step(g, s, e, t) && t.view != s.view
    ensures e.Write? && s.ops.procs[e.p].In? && t.view == s.view[s.buf[e.b].key := e.data]
  {
  }

  /** A read gets the latest contents written by anyone, also in the middle of a commit. */
  lemma ReadsSeeView(g: Config, s: State, key: Key, b: nat, t: State)
    requires ConfigOk(g) && Reachable(g, s) && Step(g, s, Read(key, b), t) && key in s.view
    ensures Holds(t.buf[b], key, s.view[key])
  {
    ReachableInv(g, s);
    ReadKeeps(g, s, key, b, t);
  }

  /** After a boot clients see what they saw at the last commit point before it. */
  lemma BootSeesCommitted(g: Config, s: State, start: seq<Buf>, procs: nat, t: State)
    requires ConfigOk(g) && Reachable(g, s) && Step(g, s, Boot(start, procs), t)
    ensures t.view == s.committed
  {
    ReachableInv(g, s);
  }

  // ---------------------------------------------------------------- what can happen

  /** A crash can come at any time, a recovery can be interrupted anywhere or complete, and a machine
      whose log is empty can boot with any cache that agrees with its disk. */
  lemma Interruptions(g: Config, s: State, d: Disk, start: seq<Buf>, procs: nat)
    ensures s.up ==> Step(g, s, Crash, s.(up := false))
    ensures !s.up && GoodDisk(g.l, s.disk) && Recovering(g.l, s.disk, d) ==> Step(g, s, Recover(d), s.(disk := d))
    ensures !s.up && GoodDisk(g.l, s.disk) && HeaderOf(g.l, s.disk) == [] && UniqueKeys(start) &&
            (forall i | 0 <= i < |start| :: RebootAt(g.l, start, s.disk, [], i)) ==>
              exists t :: Step(g, s, Boot(start, procs), t) && t.up && t.buf == start && t.disk == s.disk
  {
    var ops := LogOps.State(seq(procs, _ => LogOps.Out), 0, false, [], false);
    var t := State(true, ops, Quiet, start, s.disk, Home(g.l, s.disk), seq(|start|, _ => 0), s.committed);
    if BootStep(g, s, start, procs, t) { assert Step(g, s, Boot(start, procs), t); }
  }

  /** Every step of the protocol of operations can be taken whatever the cache and the disk hold. */
  lemma OperationsGoOn(g: Config, s: State, p: nat)
    requires s.up
    ensures LogOps.Enabled(g.c, s.ops, p, LogOps.Begin) ==> exists t :: Step(g, s, Begin(p), t)
    ensures LogOps.Enabled(g.c, s.ops, p, LogOps.Check) ==> exists t :: Step(g, s, Check(p), t)
    ensures LogOps.Enabled(g.c, s.ops, p, LogOps.End) ==> exists t :: Step(g, s, End(p), t)
    ensures LogOps.Enabled(g.c, s.ops, p, LogOps.Finish) ==> exists t :: Step(g, s, Finish(p), t)
    ensures LogOps.Enabled(g.c, s.ops, p, LogOps.Commit) && s.ops.blocks == [] && s.phase == Copying(0) ==>
              exists t :: Step(g, s, Skip(p), t) && t.phase == Quiet
  {
    if LogOps.Enabled(g.c, s.ops, p, LogOps.Begin) {
      assert Step(g, s, Begin(p), s.(ops := LogOps.Apply(g.c, s.ops, p, LogOps.Begin)));
    }
    if LogOps.Enabled(g.c, s.ops, p, LogOps.Check) {
      assert Step(g, s, Check(p), s.(ops := LogOps.Apply(g.c, s.ops, p, LogOps.Check)));
    }
    if LogOps.Enabled(g.c, s.ops, p, LogOps.End) {
      var phase := if s.ops.outstanding == 1 then Copying(0) else s.phase;
      assert Step(g, s, End(p), s.(ops := LogOps.Apply(g.c, s.ops, p, LogOps.End), phase := phase));
    }
    if LogOps.Enabled(g.c, s.ops, p, LogOps.Finish) {
      assert Step(g, s, Finish(p), s.(ops := LogOps.Apply(g.c, s.ops, p, LogOps.Finish)));
    }
    if LogOps.Enabled(g.c, s.ops, p, LogOps.Commit) && s.ops.blocks == [] && s.phase == Copying(0) {
      assert Step(g, s, Skip(p), s.(ops := LogOps.Apply(g.c, s.ops, p, LogOps.Commit), phase := Quiet));
    }
  }

  lemma {:induction false} ReachesMore(g: Config, s: State, run: seq<(Event, State)>, t: State, e: Event, u: State)
    requires Reaches(g, s, run, t) && Step(g, t, e, u)
    ensures Reaches(g, s, run + [(e, u)], u)
    decreases |run|
  {
    var all := run + [(e, u)];
    if run == [] {
      assert all[0] == (e, u) && all[1..] == [];
    } else {
      ReachesMore(g, run[0].1, run[1..], t, e, u);
      assert all[0] == run[0] && all[1..] == run[1..] + [(e, u)];
    }
  }

  lemma ThenReachable(g: Config, s: State, e: Event, t: State)
    requires Reachable(g, s) && Step(g, s, e, t)
    ensures Reachable(g, t)
  {
    var i, run :| Initial(g, i) && Reaches(g, i, run, s);
    ReachesMore(g, i, run, s, e, t);
  }

  lemma StepsStayReachable(g: Config)
    ensures Closed(g, u => Reachable(g, u))
  {
    forall s, e, t | Reachable(g, s) && Step(g, s, e, t)
      ensures Reachable(g, t)
    {
      ThenReachable(g, s, e, t);
    }
  }

  // ---------------------------------------------------------------- a write is committed

  /** A machine that has just booted, with three buffers and one process. */
  ghost function Fresh(g: Config, disk: Disk, committed: Disk): State {
    var none := Buf(NOKEY, false, 0, []);
    State(true, Alone(0, 0), Quiet, [none, none, none], disk, Home(g.l, disk), [0, 0, 0], committed)
  }

  lemma FreshReachable(g: Config, s: State)
    requires Initial(g, s) && HeaderOf(g.l, s.disk) == []
    ensures Reachable(g, Fresh(g, s.disk, s.committed))
  {
    assert Reaches(g, s, [], s);
    var t := Fresh(g, s.disk, s.committed);
    assert t.ops.procs == seq(1, _ => LogOps.Out) && t.held == seq(3, _ => 0);
    assert BootStep(g, s, t.buf, 1, t);
    ThenReachable(g, s, Boot(t.buf, 1), t);
  }

  /** A set of states that no step leaves. */
  ghost predicate Closed(g: Config, r: State -> bool) {
    forall s, e, t {:trigger Step(g, s, e, t)} | r(s) && Step(g, s, e, t) :: r(t)
  }

  lemma Then(g: Config, r: State -> bool, s: State, e: Event, t: State)
    requires Closed(g, r) && r(s) && Step(g, s, e, t)
    ensures r(t)
  {
  }

  /** A block that is not cached is read into a buffer nobody uses. */
  lemma ReadAnew(g: Config, r: State -> bool, s: State, key: Key, b: nat) returns (t: State)
    requires Closed(g, r) && r(s) && s.up && key in s.disk && key != NOKEY && !Cached(s.buf, key)
    requires b < |s.buf| && b < |s.held| && s.buf[b].refcnt == 0 == s.held[b]
    ensures r(t)
    ensures t == s.(buf := s.buf[b := Buf(key, true, 1, s.disk[key])], held := s.held[b := 1])
  {
    t := s.(buf := s.buf[b := Buf(key, true, 1, s.disk[key])], held := s.held[b := 1]);
    Then(g, r, s, Read(key, b), t);
  }

  /** The states of the protocol when one process alone logs block `no` and ends its operation. */
  function Alone(step: nat, no: nat): LogOps.State {
    match step
    case 0 => LogOps.State([LogOps.Out], 0, false, [], false)
    case 1 => LogOps.State([LogOps.In(0, false)], 1, false, [], false)
    case 2 => LogOps.State([LogOps.In(0, true)], 1, false, [], false)
    case 3 => LogOps.State([LogOps.In(1, false)], 1, false, [no], false)
    case _ => LogOps.State([LogOps.Committing(false)], 0, true, [no], false)
  }

  lemma AloneBegins(c: LogOps.Params, no: nat)
    requires c.size > c.logsize >= c.m > 0
    ensures LogOps.Enabled(c, Alone(0, no), 0, LogOps.Begin)
    ensures LogOps.Apply(c, Alone(0, no), 0, LogOps.Begin) == Alone(1, no)
    ensures LogOps.Enabled(c, Alone(1, no), 0, LogOps.Check)
    ensures LogOps.Apply(c, Alone(1, no), 0, LogOps.Check) == Alone(2, no)
  {
    assert [LogOps.Out][0 := LogOps.In(0, false)] == [LogOps.In(0, false)];
    assert [LogOps.In(0, false)][0 := LogOps.In(0, true)] == [LogOps.In(0, true)];
  }

  lemma AloneEnds(c: LogOps.Params, no: nat)
    requires c.logsize > 0
    ensures LogOps.Enabled(c, Alone(2, no), 0, LogOps.Append(no))
    ensures LogOps.Apply(c, Alone(2, no), 0, LogOps.Append(no)) == Alone(3, no)
    ensures LogOps.Enabled(c, Alone(3, no), 0, LogOps.End)
    ensures LogOps.Apply(c, Alone(3, no), 0, LogOps.End) == Alone(4, no)
  {
    assert [LogOps.In(0, true)][0 := LogOps.In(1, false)] == [LogOps.In(1, false)] && [] + [no] == [no];
    assert [LogOps.In(1, false)][0 := LogOps.Committing(false)] == [LogOps.Committing(false)];
  }

  /** The one process is inside an operation and has passed the test of `log_write`. */
  lemma GetsInside(g: Config, r: State -> bool, s: State, no: nat)
    requires Closed(g, r) && r(s) && s.up && s.ops == Alone(0, no) && ConfigOk(g) && 0 < g.c.m <= g.c.logsize
    ensures r(s.(ops := Alone(2, no)))
  {
    AloneBegins(g.c, no);
    var t := s.(ops := Alone(1, no));
    Then(g, r, s, Begin(0), t);
    Then(g, r, t, Check(0), s.(ops := Alone(2, no)));
  }

  /** The block in buffer 0 is written. */
  function Written(s: State, data: Block): State
    requires |s.buf| > 0
  {
    s.(ops := Alone(3, s.buf[0].key.blockno), buf := s.buf[0 := Changed(s.buf[0], data, false)],
       view := s.view[s.buf[0].key := data])
  }

  lemma GetsWritten(g: Config, r: State -> bool, s: State, data: Block)
    requires Closed(g, r) && r(s) && Holding(s, 0) && g.c.logsize > 0 && s.ops == Alone(2, s.buf[0].key.blockno)
    requires s.buf[0].key in s.view && s.buf[0].key != NOKEY && s.buf[0].key.dev == g.l.dev
    ensures r(Written(s, data))
  {
    AloneEnds(g.c, s.buf[0].key.blockno);
    Then(g, r, s, Write(0, 0, data), Written(s, data));
  }

  /** The operation has ended and its commit begins. */
  lemma GetsEnded(g: Config, r: State -> bool, s: State, no: nat)
    requires Closed(g, r) && r(s) && s.up && s.ops == Alone(3, no) && g.c.logsize > 0
    ensures r(s.(ops := Alone(4, no), phase := Copying(0)))
  {
    AloneEnds(g.c, no);
    Then(g, r, s, End(0), s.(ops := Alone(4, no), phase := Copying(0)));
  }

  /** With the block in buffer 0, the first log block in buffer 1 and nothing in buffer 2. */
  lemma NotCached(g: Config, buf: seq<Buf>, k: nat)
    requires g.l.start > 0 && 1 < g.l.size && |buf| == 3 && !InLog(g.l, buf[0].key) && 1 <= k <= 2
    requires forall i | 1 <= i < 3 :: buf[i].key == if i < k then Slot(g.l, 0) else NOKEY
    ensures !Cached(buf, if k == 1 then Slot(g.l, 0) else Head(g.l))
    ensures Slot(g.l, 0) != NOKEY && Head(g.l) != NOKEY && Slot(g.l, 0) != Head(g.l)
  {
  }

  lemma FirstLogPut(g: Config, r: State -> bool, s: State) returns (t: State)
    requires Closed(g, r) && r(s) && s.phase == Copying(0) && Holding(s, 0) && Holding(s, 1)
    requires s.ops.blocks == [s.buf[0].key.blockno] && s.buf[0].key.dev == g.l.dev && s.buf[1].key == Slot(g.l, 0)
    ensures r(t) && t == Put(s, 1, s.buf[0].data).(phase := Copying(1))
  {
    t := Put(s, 1, s.buf[0].data).(phase := Copying(1));
    Then(g, r, s, LogPut(1, 0), t);
  }

  /** A block has been written and its commit begins: it is in buffer 0, and nothing in the others. */
  ghost predicate CommitBegins(g: Config, s: State) {
    && AreaOk(g, s.disk) && s.phase == Copying(0) && |s.buf| == |s.held| == 3 && Holding(s, 0)
    && s.ops == Alone(4, s.buf[0].key.blockno) && s.buf[0].key.dev == g.l.dev && !InLog(g.l, s.buf[0].key)
    && forall i | 1 <= i < 3 :: s.buf[i].key == NOKEY && s.buf[i].refcnt == 0 == s.held[i]
  }

  /** The header can be written: it can be read into buffer 2. */
  ghost predicate HeaderNext(g: Config, s: State) {
    && s.up && s.phase == Copying(|s.ops.blocks|) && s.ops.blocks != [] && Head(g.l) != NOKEY
    && Head(g.l) in s.disk && |s.ops.blocks| < |s.disk[Head(g.l)]|
    && |s.buf| == |s.held| == 3 && !Cached(s.buf, Head(g.l)) && s.buf[2].refcnt == 0 == s.held[2]
  }

  /** With the first log block in buffer 1. */
  function SlotRead(g: Config, s: State): State
    requires Slot(g.l, 0) in s.disk && |s.buf| == |s.held| == 3
  {
    s.(buf := s.buf[1 := Buf(Slot(g.l, 0), true, 1, s.disk[Slot(g.l, 0)])], held := s.held[1 := 1])
  }

  lemma LogPutShape(g: Config, s: State)
    requires ConfigOk(g) && g.c.logsize > 0 && CommitBegins(g, s)
    ensures Slot(g.l, 0) in s.disk && Slot(g.l, 0) != NOKEY && !Cached(s.buf, Slot(g.l, 0))
    ensures var t := SlotRead(g, s);
            Holding(t, 0) && Holding(t, 1) && HeaderNext(g, Put(t, 1, t.buf[0].data).(phase := Copying(1)))
  {
    NotCached(g, s.buf, 1);
    var t := SlotRead(g, s);
    NotCached(g, Put(t, 1, t.buf[0].data).buf, 2);
  }

  /** Its one block is in the log. */
  lemma GetsLogged(g: Config, r: State -> bool, s: State) returns (t: State)
    requires ConfigOk(g) && g.c.logsize > 0 && Closed(g, r) && r(s) && CommitBegins(g, s)
    ensures r(t) && t.view == s.view && HeaderNext(g, t)
  {
    LogPutShape(g, s);
    var a := ReadAnew(g, r, s, Slot(g.l, 0), 1);
    assert a == SlotRead(g, s);
    t := FirstLogPut(g, r, a);
  }

  /** The commit gets to its header write. */
  lemma GetsPublished(g: Config, r: State -> bool, s: State) returns (t: State)
    requires Closed(g, r) && r(s) && HeaderNext(g, s)
    ensures r(t) && t.up && t.committed == t.view == s.view
  {
    var a := ReadAnew(g, r, s, Head(g.l), 2);
    t := Put(a, 2, WithList(a.buf[2].data, a.ops.blocks)).(phase := Installing(0), committed := a.view);
    Then(g, r, a, Publish(2), t);
  }

  lemma GetsDurable(g: Config, r: State -> bool, s: State, data: Block) returns (t: State)
    requires ConfigOk(g) && AreaOk(g, s.disk) && g.c.logsize > 0 && Closed(g, r) && r(s)
    requires |s.buf| == |s.held| == 3 && Holding(s, 0) && s.ops == Alone(2, s.buf[0].key.blockno)
    requires s.buf[0].key in s.view && s.buf[0].key != NOKEY && s.buf[0].key.dev == g.l.dev
    requires !InLog(g.l, s.buf[0].key)
    requires forall i | 1 <= i < 3 :: s.buf[i].key == NOKEY && s.buf[i].refcnt == 0 == s.held[i]
    ensures r(t) && t.up && t.committed == t.view == s.view[s.buf[0].key := data]
  {
    GetsWritten(g, r, s, data);
    var u := Written(s, data);
    GetsEnded(g, r, u, s.buf[0].key.blockno);
    var v := GetsLogged(g, r, u.(ops := Alone(4, s.buf[0].key.blockno), phase := Copying(0)));
    t := GetsPublished(g, r, v);
  }

  lemma OnceRead(g: Config, r: State -> bool, s: State, key: Key, data: Block) returns (t: State)
    requires ConfigOk(g) && AreaOk(g, s.disk) && g.c.logsize > 0 && Closed(g, r) && r(s)
    requires s.up && s.view == Home(g.l, s.disk)
    requires s.ops == Alone(2, key.blockno) && key in s.view && key != NOKEY && key.dev == g.l.dev
    requires |s.buf| == |s.held| == 3
    requires forall i | 0 <= i < 3 :: s.buf[i].key == NOKEY && s.buf[i].refcnt == 0 == s.held[i]
    ensures r(t) && t.up && t.committed == t.view == s.view[key := data]
  {
    var a := ReadAnew(g, r, s, key, 0);
    t := GetsDurable(g, r, a, data);
  }

  lemma GetsCommitted(g: Config, r: State -> bool, s: State, key: Key, data: Block) returns (t: State)
    requires ConfigOk(g) && AreaOk(g, s.disk) && 0 < g.c.m <= g.c.logsize && Closed(g, r) && r(s)
    requires s == Fresh(g, s.disk, s.committed) && key in s.view && key != NOKEY && key.dev == g.l.dev
    ensures r(t) && t.up && t.committed == t.view == s.view[key := data]
  {
    GetsInside(g, r, s, key.blockno);
    t := OnceRead(g, r, s.(ops := Alone(2, key.blockno)), key, data);
  }

  lemma EmptyLogIsHome(g: Config, s: State)
    requires Initial(g, s) && HeaderOf(g.l, s.disk) == []
    ensures s.committed == Home(g.l, s.disk)
  {
    assert Install(g.l, s.disk, [], 0) == s.disk;
  }

  /** A machine that boots with three buffers can write any block outside the log, and commit it. */
  lemma WriteCommits(g: Config, s: State, key: Key, data: Block) returns (t: State)
    requires ConfigOk(g) && Initial(g, s) && HeaderOf(g.l, s.disk) == [] && 0 < g.c.m <= g.c.logsize
    requires key in s.committed && key != NOKEY && key.dev == g.l.dev
    ensures Reachable(g, t) && t.up && t.committed == s.committed[key := data] && t.view == t.committed
  {
    var f := Fresh(g, s.disk, s.committed);
    FreshReachable(g, s);
    EmptyLogIsHome(g, s);
    StepsStayReachable(g);
    t := GetsCommitted(g, u => Reachable(g, u), f, key, data);
  }

  // ---------------------------------------------------------------- the steps are those of the code

  ghost function Of(f: FsLog, ops: LogOps.State, phase: Phase, committed: Disk): State
    reads f, f.bc
  {
    State(true, ops, phase, f.bc.buf, f.bc.disk, f.view, f.held, committed)
  }

  method TakeSteps(f: FsLog, key: Key, ghost pins: seq<nat>, ghost ops: LogOps.State, ghost phase: Phase,
                   ghost committed: Disk)
    returns (r: Option<nat>)
    requires f.With(pins) && key in f.bc.disk && key != NOKEY && forall i | 0 <= i < |f.held| :: f.held[i] + 2 < UINT
    modifies f`held, f.bc`buf
    ensures r.Some? ==> ReadStep(old(Of(f, ops, phase, committed)), key, r.value, Of(f, ops, phase, committed))
  {
    r := f.Take(key, pins);
  }

  method DropSteps(f: FsLog, b: nat, ghost pins: seq<nat>, ghost ops: LogOps.State, ghost phase: Phase,
                   ghost committed: Disk)
    requires f.With(pins) && b < f.bc.n && f.held[b] > 0
    modifies f`held, f.bc`buf, f.bc`next, f.bc`prev, f.bc`order, f.bc`released
    ensures ReleaseStep(old(Of(f, ops, phase, committed)), b, Of(f, ops, phase, committed))
  {
    f.Drop(b, pins);
  }

  method LogWriteSteps(g: Config, f: FsLog, p: nat, b: nat, data: Block, ghost ops: LogOps.State, ghost phase: Phase,
                       ghost committed: Disk)
    returns (ok: bool, ghost now: LogOps.State)
    requires f.Valid() && b < f.bc.n && f.held[b] > 0 && f.bc.buf[b].valid && g.l == f.l
    requires f.bc.buf[b].key in f.view && f.bc.buf[b].key != NOKEY && f.bc.buf[b].key.dev == f.l.dev
    requires ops.blocks == f.lh && LogOps.Enabled(g.c, ops, p, LogOps.Append(f.bc.buf[b].key.blockno))
    requires g.c.logsize == f.logsize
    modifies f`lh, f`view, f.bc`buf
    ensures ok ==> WriteStep(g, old(Of(f, ops, phase, committed)), p, b, data, Of(f, now, phase, committed))
    ensures ok ==> now.blocks == f.lh
  {
    now := LogOps.Apply(g.c, ops, p, LogOps.Append(f.bc.buf[b].key.blockno));
    ok := f.LogWrite(b, data);
  }

  method LogPutSteps(g: Config, f: FsLog, b: nat, from: nat, ghost k: nat, ghost ops: LogOps.State,
                     ghost committed: Disk)
    requires f.With(f.lh) && g.l == f.l && ops.blocks == f.lh && k < |f.lh| < f.l.size
    requires b < f.bc.n && f.bc.buf[b].key == Slot(f.l, k) && f.bc.buf[b].valid && f.held[b] > 0
    requires from < f.bc.n && f.bc.buf[from].key == HomeKey(f.l, f.lh[k]) && f.bc.buf[from].valid && f.held[from] > 0
    modifies f.bc`buf, f.bc`disk, f.bc`history
    ensures LogPutStep(g, old(Of(f, ops, Copying(k), committed)), b, from, Of(f, ops, Copying(k + 1), committed))
  {
    f.PutLog(b, f.bc.buf[from].data, f.lh);
  }

  method PublishSteps(g: Config, f: FsLog, b: nat, ghost ops: LogOps.State, ghost committed: Disk)
    requires f.With(f.lh) && g.l == f.l && ops.blocks == f.lh != [] && |f.lh| <= f.logsize
    requires b < f.bc.n && f.bc.buf[b].key == Head(f.l) && f.bc.buf[b].valid && f.held[b] > 0
    modifies f.bc`buf, f.bc`disk, f.bc`history
    ensures PublishStep(g, old(Of(f, ops, Copying(|f.lh|), committed)), b, Of(f, ops, Installing(0), f.view))
  {
    assert InLog(f.l, Head(f.l)) && SyncedAt(f.l, f.lh, f.bc.buf, f.bc.disk, b);
    assert Head(f.l).blockno in f.lh ==> PinAt(f.l, f.bc.disk, Head(f.l).blockno);
    f.PutLog(b, WithList(f.bc.buf[b].data, f.lh), f.lh);
  }

  method ClearSteps(g: Config, f: FsLog, p: nat, b: nat, ghost ops: LogOps.State, ghost committed: Disk)
    returns (ghost now: LogOps.State)
    requires f.With([]) && g.l == f.l && ops.blocks == f.lh && LogOps.Enabled(g.c, ops, p, LogOps.Commit)
    requires b < f.bc.n && f.bc.buf[b].key == Head(f.l) && f.bc.buf[b].valid && f.held[b] > 0
    modifies f.bc`buf, f.bc`disk, f.bc`history
    ensures ClearStep(g, old(Of(f, ops, Installing(|f.lh|), committed)), p, b, Of(f, now, Quiet, committed))
  {
    assert InLog(f.l, Head(f.l)) && SyncedAt(f.l, [], f.bc.buf, f.bc.disk, b);
    now := LogOps.Apply(g.c, ops, p, LogOps.Commit);
    f.PutLog(b, WithList(f.bc.buf[b].data, []), []);
  }

  method InstallPutSteps(g: Config, f: FsLog, lb: nat, db: nat, ghost k: nat, ghost ops: LogOps.State,
                         ghost committed: Disk)
    requires g.l == f.l && ops.blocks == f.lh && k < |f.lh| && f.With(f.lh[k..]) && HomeKey(f.l, f.lh[k]) in f.view
    requires lb < f.bc.n && f.bc.buf[lb].key == Slot(f.l, k) && f.bc.buf[lb].valid && f.held[lb] > 0
    requires f.bc.buf[lb].data == f.view[HomeKey(f.l, f.lh[k])]
    requires db < f.bc.n && f.bc.buf[db].key == HomeKey(f.l, f.lh[k]) && f.bc.buf[db].valid && f.held[db] > 0
    modifies f.bc`buf, f.bc`disk, f.bc`history
    ensures var s, t := old(Of(f, ops, Installing(k), committed)), Of(f, ops, Installing(k + 1), committed);
            InstallPutStep(g, s, lb, db, t)
  {
    ghost var pins := f.lh[k..];
    LoggedBuffer(f.l, pins, f.bc.buf, f.bc.disk, f.view, f.held, f.lh[k]);
    f.WriteHome(db, f.bc.buf[lb].data, pins);
  }
}
