/** The on-disk redo log of kernel/log.c: what a completed recovery makes of a disk, and why a
    crash between any two disk writes of a commit or of a recovery never leaves a mix.

    A block is a sequence of words. The header block holds the number of logged blocks and then
    their block numbers; the blocks after it hold their contents. */
module LogDisk {
  import opened Bcache

  /** The log occupies blocks `[start, start + size)` of device `dev`. */
  datatype Layout = Layout(dev: nat, start: nat, size: nat)

  function Head(l: Layout): Key { Key(l.dev, l.start) }

  function Slot(l: Layout, i: nat): Key { Key(l.dev, l.start + 1 + i) }

  function HomeKey(l: Layout, blockno: nat): Key { Key(l.dev, blockno) }

  predicate InLog(l: Layout, k: Key) {
    k.dev == l.dev && l.start <= k.blockno < l.start + l.size
  }

  /** The block numbers a header block lists. */
  function Listed(b: Block): (r: seq<nat>)
    requires GoodHeader(b)
  {
    seq(b[0], i requires 0 <= i < b[0] => b[i + 1])
  }

  predicate GoodHeader(b: Block) {
    |b| > 0 && 0 <= b[0] < |b| && forall i | 1 <= i <= b[0] :: b[i] >= 0
  }

  /** The blocks of a transaction: they fit in the log and live outside it. (`true ==` keeps the
      conjunction whole where it is passed on from call to call.) */
  ghost predicate GoodList(l: Layout, d: Disk, hdr: seq<nat>) {
    true == (
      && |hdr| < l.size
      && (forall i | 0 <= i < |hdr| :: Slot(l, i) in d)
      && (forall i | 0 <= i < |hdr| :: HomeKey(l, hdr[i]) in d && !InLog(l, HomeKey(l, hdr[i]))))
  }

  ghost predicate GoodDisk(l: Layout, d: Disk) {
    l.size > 0 && Head(l) in d && GoodHeader(d[Head(l)]) && GoodList(l, d, Listed(d[Head(l)]))
  }

  function HeaderOf(l: Layout, d: Disk): seq<nat>
    requires Head(l) in d && GoodHeader(d[Head(l)])
  {
    Listed(d[Head(l)])
  }

  // ---------------------------------------------------------------- install_trans

  /** The disk when the first `k` logged blocks have been copied home. */
  ghost function Install(l: Layout, d: Disk, hdr: seq<nat>, k: nat): (r: Disk)
    requires GoodList(l, d, hdr) && k <= |hdr|
    ensures r.Keys == d.Keys
    ensures forall key | key in d && InLog(l, key) :: r[key] == d[key]
    decreases k
  {
    if k == 0 then d
    else
      assert InLog(l, Slot(l, k - 1));
      Install(l, d, hdr, k - 1)[HomeKey(l, hdr[k - 1]) := d[Slot(l, k - 1)]]
  }

  /** The file system blocks of a disk. */
  ghost function Home(l: Layout, d: Disk): Disk {
    map k | k in d && !InLog(l, k) :: d[k]
  }

  /** The file system that a completed recovery of `d` gives. */
  ghost function After(l: Layout, d: Disk): Disk
    requires GoodDisk(l, d)
  {
    var hdr := HeaderOf(l, d);
    Home(l, Install(l, d, hdr, |hdr|))
  }

  /** Lines 107-111: the header block rewritten to list `hdr`, its other words as they were. */
  function WithList(b: Block, hdr: seq<nat>): (r: Block)
    requires |hdr| < |b|
    ensures GoodHeader(r) && Listed(r) == hdr && |r| == |b|
  {
    var r := [|hdr|] + hdr + b[|hdr| + 1..];
    assert forall i | 0 <= i < |hdr| :: r[i + 1] == hdr[i];
    r
  }

  function Cleared(l: Layout, d: Disk): Disk
    requires Head(l) in d && |d[Head(l)]| > 0
  {
    d[Head(l) := WithList(d[Head(l)], [])]
  }

  ghost function Recovered(l: Layout, d: Disk): Disk
    requires GoodDisk(l, d)
  {
    var hdr := HeaderOf(l, d);
    assert InLog(l, Head(l));
    Cleared(l, Install(l, d, hdr, |hdr|))
  }

  // ---------------------------------------------------------------- recovery can be interrupted

  predicate Touched(l: Layout, hdr: seq<nat>, k: nat, key: Key)
    requires k <= |hdr|
  {
    exists i | 0 <= i < k :: HomeKey(l, hdr[i]) == key
  }

  lemma {:induction false} InstallUntouched(l: Layout, d: Disk, hdr: seq<nat>, k: nat, key: Key)
    requires GoodList(l, d, hdr) && k <= |hdr| && key in d && !Touched(l, hdr, k, key)
    ensures Install(l, d, hdr, k)[key] == d[key]
    decreases k
  {
    if k > 0 { InstallUntouched(l, d, hdr, k - 1, key); }
  }

  lemma {:induction false} InstallTouched(l: Layout, d: Disk, e: Disk, hdr: seq<nat>, k: nat, key: Key)
    requires GoodList(l, d, hdr) && GoodList(l, e, hdr) && k <= |hdr| && key in d && key in e && Touched(l, hdr, k, key)
    requires forall i | 0 <= i < k :: d[Slot(l, i)] == e[Slot(l, i)]
    ensures Install(l, d, hdr, k)[key] == Install(l, e, hdr, k)[key]
    decreases k
  {
    if HomeKey(l, hdr[k - 1]) != key { InstallTouched(l, d, e, hdr, k - 1, key); }
  }

  lemma SlotsKept(l: Layout, d: Disk, hdr: seq<nat>, k: nat)
    requires GoodList(l, d, hdr) && k <= |hdr|
    ensures GoodList(l, Install(l, d, hdr, k), hdr)
    ensures forall i | 0 <= i < |hdr| :: Install(l, d, hdr, k)[Slot(l, i)] == d[Slot(l, i)]
  {
    forall i | 0 <= i < |hdr|
      ensures InLog(l, Slot(l, i))
    {
    }
  }

  /** Installing from the start what was partly installed gives the same disk. */
  lemma InstallAgain(l: Layout, d: Disk, hdr: seq<nat>, j: nat)
    requires GoodList(l, d, hdr) && j <= |hdr|
    ensures GoodList(l, Install(l, d, hdr, j), hdr)
    ensures Install(l, Install(l, d, hdr, j), hdr, |hdr|) == Install(l, d, hdr, |hdr|)
  {
    var e, n := Install(l, d, hdr, j), |hdr|;
    SlotsKept(l, d, hdr, j);
    forall key | key in d
      ensures Install(l, e, hdr, n)[key] == Install(l, d, hdr, n)[key]
    {
      if Touched(l, hdr, n, key) {
        InstallTouched(l, d, e, hdr, n, key);
      } else {
        InstallUntouched(l, d, hdr, n, key);
        InstallUntouched(l, e, hdr, n, key);
        InstallUntouched(l, d, hdr, j, key);
      }
    }
  }

  /** `e` is the disk at some moment of a recovery that started on `d`. */
  ghost predicate Recovering(l: Layout, d: Disk, e: Disk)
    requires GoodDisk(l, d)
  {
    (exists k | 0 <= k <= |HeaderOf(l, d)| :: e == Install(l, d, HeaderOf(l, d), k)) || e == Recovered(l, d)
  }

  lemma ClearedIsDone(l: Layout, d: Disk)
    requires l.size > 0 && Head(l) in d && |d[Head(l)]| > 0
    ensures var e := Cleared(l, d);
            GoodDisk(l, e) && HeaderOf(l, e) == [] && After(l, e) == Home(l, d)
  {
    assert InLog(l, Head(l));
  }

  lemma RecoveringKeepsAfter(l: Layout, d: Disk, e: Disk)
    requires GoodDisk(l, d) && Recovering(l, d, e)
    ensures GoodDisk(l, e) && After(l, e) == After(l, d)
  {
    var hdr := HeaderOf(l, d);
    assert InLog(l, Head(l));
    if e == Recovered(l, d) {
      ClearedIsDone(l, Install(l, d, hdr, |hdr|));
    } else {
      var k :| 0 <= k <= |hdr| && e == Install(l, d, hdr, k);
      InstallAgain(l, d, hdr, k);
    }
  }

  /** A recovery never writes another list to the header. */
  lemma RecoveringHeader(l: Layout, d: Disk, e: Disk)
    requires GoodDisk(l, d) && Recovering(l, d, e)
    ensures GoodDisk(l, e) && (HeaderOf(l, e) == HeaderOf(l, d) || HeaderOf(l, e) == [])
  {
    RecoveringKeepsAfter(l, d, e);
    assert InLog(l, Head(l));
  }

  /** Each disk is where the machine stopped, somewhere in a recovery of the one before. */
  ghost predicate Boots(l: Layout, ds: seq<Disk>) {
    && ds != [] && GoodDisk(l, ds[0])
    && (|ds| > 1 ==> Recovering(l, ds[0], ds[1]) && Boots(l, ds[1..]))
  }

  /** However often recovery is interrupted, completing it gives the same file system. */
  lemma {:induction false} RecoveryIsAtomic(l: Layout, ds: seq<Disk>)
    requires Boots(l, ds)
    ensures var e := ds[|ds| - 1];
            && GoodDisk(l, e) && After(l, e) == After(l, ds[0])
            && Home(l, Recovered(l, e)) == After(l, ds[0])
            && HeaderOf(l, Recovered(l, e)) == []
    decreases |ds|
  {
    if |ds| > 1 {
      RecoveringKeepsAfter(l, ds[0], ds[1]);
      RecoveryIsAtomic(l, ds[1..]);
    } else {
      var hdr := HeaderOf(l, ds[0]);
      assert InLog(l, Head(l));
      ClearedIsDone(l, Install(l, ds[0], hdr, |hdr|));
      RecoveredHome(l, ds[0]);
    }
  }

  lemma {:induction false} BootsHeader(l: Layout, ds: seq<Disk>)
    requires Boots(l, ds)
    ensures var e := ds[|ds| - 1];
            GoodDisk(l, e) && (HeaderOf(l, e) == HeaderOf(l, ds[0]) || HeaderOf(l, e) == [])
    decreases |ds|
  {
    if |ds| > 1 {
      RecoveringHeader(l, ds[0], ds[1]);
      BootsHeader(l, ds[1..]);
    }
  }

  lemma RecoveredHome(l: Layout, d: Disk)
    requires GoodDisk(l, d)
    ensures Home(l, Recovered(l, d)) == After(l, d)
  {
    assert InLog(l, Head(l));
  }

  // ---------------------------------------------------------------- commit

  /** The disk when the first `k` blocks have been copied to the log. */
  function Logged(l: Layout, d: Disk, vals: seq<Block>, k: nat): Disk
    requires k <= |vals|
    decreases k
  {
    if k == 0 then d else Logged(l, d, vals, k - 1)[Slot(l, k - 1) := vals[k - 1]]
  }

  /** Line 111: the header names the logged blocks. */
  function Committed(l: Layout, d: Disk, hdr: seq<nat>, vals: seq<Block>): Disk
    requires Head(l) in d && |hdr| < |d[Head(l)]|
  {
    var e := Logged(l, d, vals, |vals|);
    e[Head(l) := WithList(d[Head(l)], hdr)]
  }

  /** The file system with the transaction applied. */
  function Updated(l: Layout, home: Disk, hdr: seq<nat>, vals: seq<Block>, k: nat): Disk
    requires |hdr| == |vals| && k <= |hdr|
    decreases k
  {
    if k == 0 then home else Updated(l, home, hdr, vals, k - 1)[HomeKey(l, hdr[k - 1]) := vals[k - 1]]
  }

  lemma {:induction false} UpdatedAt(l: Layout, home: Disk, hdr: seq<nat>, vals: seq<Block>, k: nat, view: Disk)
    requires |hdr| == |vals| && k <= |hdr|
    requires forall i | 0 <= i < |hdr| :: HomeKey(l, hdr[i]) in view && view[HomeKey(l, hdr[i])] == vals[i]
    requires home.Keys == view.Keys
    ensures var u := Updated(l, home, hdr, vals, k);
            && u.Keys == home.Keys
            && forall key | key in home :: u[key] == if Touched(l, hdr, k, key) then view[key] else home[key]
    decreases k
  {
    if k > 0 { UpdatedAt(l, home, hdr, vals, k - 1, view); }
  }

  lemma {:induction false} LoggedIs(l: Layout, d: Disk, vals: seq<Block>, k: nat)
    requires k <= |vals| && |vals| < l.size && forall i | 0 <= i < |vals| :: Slot(l, i) in d
    ensures var e := Logged(l, d, vals, k);
            && e.Keys == d.Keys
            && (forall i | 0 <= i < k :: e[Slot(l, i)] == vals[i])
            && (forall key | key in d && !InLog(l, key) :: e[key] == d[key])
            && (Head(l) in d ==> e[Head(l)] == d[Head(l)])
    decreases k
  {
    if k > 0 {
      LoggedIs(l, d, vals, k - 1);
      assert InLog(l, Slot(l, k - 1));
    }
  }

  lemma LoggedAfter(l: Layout, d: Disk, vals: seq<Block>, k: nat)
    requires GoodDisk(l, d) && HeaderOf(l, d) == [] && k <= |vals| < l.size
    requires forall i | 0 <= i < |vals| :: Slot(l, i) in d
    ensures GoodDisk(l, Logged(l, d, vals, k)) && After(l, Logged(l, d, vals, k)) == Home(l, d) == After(l, d)
  {
    LoggedIs(l, d, vals, k);
  }

  lemma {:induction false} InstallIsUpdated(l: Layout, d: Disk, hdr: seq<nat>, vals: seq<Block>, k: nat)
    requires GoodList(l, d, hdr) && |hdr| == |vals| && k <= |hdr|
    requires forall i | 0 <= i < |vals| :: d[Slot(l, i)] == vals[i]
    ensures Home(l, Install(l, d, hdr, k)) == Updated(l, Home(l, d), hdr, vals, k)
    decreases k
  {
    if k > 0 {
      InstallIsUpdated(l, d, hdr, vals, k - 1);
    }
  }

  lemma CommittedAfter(l: Layout, d: Disk, hdr: seq<nat>, vals: seq<Block>)
    requires GoodDisk(l, d) && GoodList(l, d, hdr) && |hdr| == |vals| && |hdr| < |d[Head(l)]|
    ensures var e := Committed(l, d, hdr, vals);
            && GoodDisk(l, e) && HeaderOf(l, e) == hdr
            && After(l, e) == Updated(l, Home(l, d), hdr, vals, |hdr|)
  {
    LoggedIs(l, d, vals, |vals|);
    assert InLog(l, Head(l));
    var e := Committed(l, d, hdr, vals);
    forall i | 0 <= i < |hdr|
      ensures e[Slot(l, i)] == vals[i] && InLog(l, Slot(l, i))
    {
    }
    InstallIsUpdated(l, e, hdr, vals, |hdr|);
    assert Home(l, e) == Home(l, d);
  }

  /** A disk met during a commit of `vals` at `hdr` on `d`: before its header is written, or in
      the course of installing it. */
  ghost predicate Committing(l: Layout, d: Disk, hdr: seq<nat>, vals: seq<Block>, e: Disk)
    requires GoodDisk(l, d) && GoodList(l, d, hdr) && |hdr| == |vals| && |hdr| < |d[Head(l)]|
  {
    CommittedAfter(l, d, hdr, vals);
    || (exists k | 0 <= k <= |vals| :: e == Logged(l, d, vals, k))
    || Recovering(l, Committed(l, d, hdr, vals), e)
  }

  lemma CommittingHeader(l: Layout, d: Disk, hdr: seq<nat>, vals: seq<Block>, e: Disk)
    requires GoodDisk(l, d) && GoodList(l, d, hdr) && |hdr| == |vals| && |hdr| < |d[Head(l)]|
    requires HeaderOf(l, d) == [] && Committing(l, d, hdr, vals, e)
    ensures GoodDisk(l, e) && (HeaderOf(l, e) == hdr || HeaderOf(l, e) == [])
  {
    CommittedAfter(l, d, hdr, vals);
    var c := Committed(l, d, hdr, vals);
    if Recovering(l, c, e) {
      RecoveringHeader(l, c, e);
    } else {
      var k :| 0 <= k <= |vals| && e == Logged(l, d, vals, k);
      LoggedAfter(l, d, vals, k);
      LoggedIs(l, d, vals, k);
    }
  }

  lemma CommittingAfter(l: Layout, d: Disk, hdr: seq<nat>, vals: seq<Block>, e: Disk)
    requires GoodDisk(l, d) && GoodList(l, d, hdr) && |hdr| == |vals| && |hdr| < |d[Head(l)]|
    requires HeaderOf(l, d) == [] && Committing(l, d, hdr, vals, e)
    ensures GoodDisk(l, e)
    ensures After(l, e) == Home(l, d) || After(l, e) == Updated(l, Home(l, d), hdr, vals, |hdr|)
  {
    CommittedAfter(l, d, hdr, vals);
    var c := Committed(l, d, hdr, vals);
    if Recovering(l, c, e) {
      RecoveringKeepsAfter(l, c, e);
    } else {
      var k :| 0 <= k <= |vals| && e == Logged(l, d, vals, k);
      LoggedAfter(l, d, vals, k);
    }
  }

  /** A crash anywhere in a commit, then any number of interrupted recoveries and a complete one:
      the file system is the old one, or the new one with every logged block, never a mix. */
  lemma CommitIsAtomic(l: Layout, d: Disk, hdr: seq<nat>, vals: seq<Block>, ds: seq<Disk>)
    requires GoodDisk(l, d) && GoodList(l, d, hdr) && |hdr| == |vals| && |hdr| < |d[Head(l)]|
    requires HeaderOf(l, d) == [] && Boots(l, ds) && Committing(l, d, hdr, vals, ds[0])
    ensures GoodDisk(l, ds[|ds| - 1])
    ensures var final := Home(l, Recovered(l, ds[|ds| - 1]));
            final == Home(l, d) || final == Updated(l, Home(l, d), hdr, vals, |hdr|)
  {
    CommittingAfter(l, d, hdr, vals, ds[0]);
    RecoveryIsAtomic(l, ds);
  }
}
