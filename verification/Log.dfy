/** `log_write`, `commit` and recovery of kernel/log.c, running on the buffer cache of Bcache.

    What the rest of the file system reads and writes is `view`, the latest contents of every
    block. The cache, the list of logged blocks and the disk are proved to agree on it in every
    state, and every disk state a commit or a recovery passes through is one that LogDisk proves
    recoverable. Here a call runs alone; which calls may overlap is the subject of LogOps. */
module Log {
  import opened Options
  import opened Bcache
  import opened LogDisk

  // ---------------------------------------------------------------- cache, log and disk agree

  predicate IsLogged(l: Layout, pins: seq<nat>, key: Key) {
    key.dev == l.dev && key.blockno in pins
  }

  ghost predicate HasData(buf: seq<Buf>, key: Key, data: Block) {
    exists i | 0 <= i < |buf| :: Holds(buf[i], key, data)
  }

  predicate Holds(b: Buf, key: Key, data: Block) {
    b.key == key && b.valid && b.data == data
  }

  /** A valid buffer holds what the disk holds, unless its block is logged and not yet installed. */
  predicate SyncedAt(l: Layout, pins: seq<nat>, buf: seq<Buf>, disk: Disk, i: nat)
    requires i < |buf|
  {
    buf[i].valid && !IsLogged(l, pins, buf[i].key) && buf[i].key != NOKEY ==>
      buf[i].key in disk && buf[i].data == disk[buf[i].key]
  }

  /** A logged block is in the cache with its latest contents; any other is on the disk. */
  ghost predicate ViewAt(l: Layout, pins: seq<nat>, buf: seq<Buf>, disk: Disk, view: Disk, k: Key)
    requires k in view && k in disk
  {
    if IsLogged(l, pins, k) then HasData(buf, k, view[k]) else view[k] == disk[k]
  }

  /** A buffer is referenced once by each holder and once by the log while its block is logged. */
  predicate RefAt(l: Layout, pins: seq<nat>, buf: seq<Buf>, held: seq<nat>, i: nat)
    requires i < |buf| && i < |held|
  {
    held[i] + 1 < UINT && buf[i].refcnt == held[i] + if IsLogged(l, pins, buf[i].key) then 1 else 0
  }

  predicate PinAt(l: Layout, disk: Disk, b: nat) {
    HomeKey(l, b) in disk && !InLog(l, HomeKey(l, b)) && HomeKey(l, b) != NOKEY
  }

  ghost predicate PinsOk(l: Layout, pins: seq<nat>, disk: Disk) {
    && (forall i, j {:trigger pins[i], pins[j]} | 0 <= i < j < |pins| :: pins[i] != pins[j])
    && (forall b {:trigger PinAt(l, disk, b)} | b in pins :: PinAt(l, disk, b))
  }

  ghost predicate Agree(l: Layout, pins: seq<nat>, buf: seq<Buf>, disk: Disk, view: Disk, held: seq<nat>) {
    && |held| == |buf| && UniqueKeys(buf) && PinsOk(l, pins, disk)
    && (forall k :: k in view <==> k in disk && !InLog(l, k))
    && (forall i {:trigger SyncedAt(l, pins, buf, disk, i)} | 0 <= i < |buf| :: SyncedAt(l, pins, buf, disk, i))
    && (forall i {:trigger RefAt(l, pins, buf, held, i)} | 0 <= i < |buf| :: RefAt(l, pins, buf, held, i))
    && (forall k {:trigger ViewAt(l, pins, buf, disk, view, k)} | k in view :: ViewAt(l, pins, buf, disk, view, k))
  }

  /** The one buffer of a logged block has its latest contents. */
  lemma LoggedBuffer(l: Layout, pins: seq<nat>, buf: seq<Buf>, disk: Disk, view: Disk, held: seq<nat>, no: nat)
    requires Agree(l, pins, buf, disk, view, held) && no in pins
    ensures var k := HomeKey(l, no);
            && k in view && k in disk && k != NOKEY && !InLog(l, k) && Cached(buf, k)
            && forall b | 0 <= b < |buf| && buf[b].key == k :: Holds(buf[b], k, view[k])
  {
    var k := HomeKey(l, no);
    assert PinAt(l, disk, no);
    assert k in view && ViewAt(l, pins, buf, disk, view, k);
    var i :| 0 <= i < |buf| && Holds(buf[i], k, view[k]);
    forall b | 0 <= b < |buf| && buf[b].key == k
      ensures Holds(buf[b], k, view[k])
    {
      assert KeysApart(buf, i, b);
    }
  }

  /** A buffer that keeps its key, validity and data keeps the view. */
  lemma ViewKept(l: Layout, pins: seq<nat>, was: seq<Buf>, now: seq<Buf>, disk: Disk, view: Disk, k: Key)
    requires k in view && k in disk && ViewAt(l, pins, was, disk, view, k) && |now| == |was|
    requires IsLogged(l, pins, k) ==>
               forall i | 0 <= i < |was| && Holds(was[i], k, view[k]) :: Holds(now[i], k, view[k])
    ensures ViewAt(l, pins, now, disk, view, k)
  {
    if IsLogged(l, pins, k) {
      var i :| 0 <= i < |was| && Holds(was[i], k, view[k]);
      assert Holds(now[i], k, view[k]);
    }
  }

  /** Taking a reference: what `bread` returns is the latest contents of the block. */
  lemma ReadAgrees(l: Layout, pins: seq<nat>, buf: seq<Buf>, disk: Disk, view: Disk, held: seq<nat>,
                   key: Key, b: nat, now: seq<Buf>)
    requires Agree(l, pins, buf, disk, view, held) && key in disk && key != NOKEY
    requires ReadInto(buf, disk, key, b, now) && held[b] + 2 < UINT
    ensures Agree(l, pins, now, disk, view, held[b := held[b] + 1])
    ensures Holds(now[b], key, if key in view then view[key] else disk[key])
  {
    KeysStayUnique(buf, now, b);
    assert RefAt(l, pins, buf, held, b) && SyncedAt(l, pins, buf, disk, b);
    if IsLogged(l, pins, key) {
      LoggedBuffer(l, pins, buf, disk, view, held, key.blockno);
    } else if key in view {
      assert ViewAt(l, pins, buf, disk, view, key);
    }
    var held' := held[b := held[b] + 1];
    forall i | 0 <= i < |now|
      ensures SyncedAt(l, pins, now, disk, i) && RefAt(l, pins, now, held', i)
    {
      assert SyncedAt(l, pins, buf, disk, i) && RefAt(l, pins, buf, held, i);
    }
    forall k | k in view
      ensures ViewAt(l, pins, now, disk, view, k)
    {
      assert ViewAt(l, pins, buf, disk, view, k);
      ViewKept(l, pins, buf, now, disk, view, k);
    }
  }

  /** Giving a reference back. */
  lemma ReleaseAgrees(l: Layout, pins: seq<nat>, buf: seq<Buf>, disk: Disk, view: Disk, held: seq<nat>, b: nat)
    requires Agree(l, pins, buf, disk, view, held) && b < |buf| && held[b] > 0
    ensures Agree(l, pins, buf[b := buf[b].(refcnt := Minus(buf[b].refcnt))], disk, view, held[b := held[b] - 1])
  {
    var now := buf[b := buf[b].(refcnt := Minus(buf[b].refcnt))];
    KeysStayUnique(buf, now, b);
    var held' := held[b := held[b] - 1];
    forall i | 0 <= i < |now|
      ensures SyncedAt(l, pins, now, disk, i) && RefAt(l, pins, now, held', i)
    {
      assert SyncedAt(l, pins, buf, disk, i) && RefAt(l, pins, buf, held, i);
    }
    forall k | k in view
      ensures ViewAt(l, pins, now, disk, view, k)
    {
      assert ViewAt(l, pins, buf, disk, view, k);
      ViewKept(l, pins, buf, now, disk, view, k);
    }
  }

  /** The buffer of a block that is written and logged; `pinned` if it was in the header already. */
  function Changed(b: Buf, data: Block, pinned: bool): Buf {
    b.(data := data, refcnt := if pinned then b.refcnt else Plus(b.refcnt))
  }

  /** Writing a held buffer and logging its block. */
  lemma WriteAgrees(l: Layout, pins: seq<nat>, buf: seq<Buf>, disk: Disk, view: Disk, held: seq<nat>,
                    b: nat, data: Block, pins': seq<nat>, buf': seq<Buf>)
    requires Agree(l, pins, buf, disk, view, held) && b < |buf| && buf[b].valid
    requires buf[b].key in view && buf[b].key != NOKEY && buf[b].key.dev == l.dev
    requires var no := buf[b].key.blockno;
             var w := buf[b].(data := data);
             if no in pins then pins' == pins && buf' == buf[b := w]
             else pins' == pins + [no] && buf' == buf[b := w.(refcnt := Plus(w.refcnt))]
    ensures Agree(l, pins', buf', disk, view[buf[b].key := data], held)
  {
    var key, view' := buf[b].key, view[buf[b].key := data];
    KeysStayUnique(buf, buf', b);
    forall x | x in pins'
      ensures PinAt(l, disk, x)
    {
      if x in pins { assert PinAt(l, disk, x); }
    }
    forall i | 0 <= i < |buf|
      ensures SyncedAt(l, pins', buf', disk, i) && RefAt(l, pins', buf', held, i)
    {
      assert SyncedAt(l, pins, buf, disk, i) && RefAt(l, pins, buf, held, i) && KeysApart(buf, i, b);
    }
    forall k | k in view'
      ensures ViewAt(l, pins', buf', disk, view', k)
    {
      if k == key {
        assert Holds(buf'[b], k, view'[k]);
      } else {
        assert ViewAt(l, pins, buf, disk, view, k);
        ViewKept(l, pins, buf, buf', disk, view, k);
      }
    }
  }

  /** A write to a block of the log area, through the cache and to the disk. */
  lemma LogAreaAgrees(l: Layout, pins: seq<nat>, buf: seq<Buf>, disk: Disk, view: Disk, held: seq<nat>, b: nat,
                      data: Block)
    requires Agree(l, pins, buf, disk, view, held) && b < |buf| && buf[b].valid
    requires InLog(l, buf[b].key) && buf[b].key in disk && buf[b].key != NOKEY
    ensures Agree(l, pins, buf[b := buf[b].(data := data)], disk[buf[b].key := data], view, held)
  {
    var now, disk' := buf[b := buf[b].(data := data)], disk[buf[b].key := data];
    KeysStayUnique(buf, now, b);
    forall x | x in pins
      ensures PinAt(l, disk', x)
    {
      assert PinAt(l, disk, x);
    }
    forall i | 0 <= i < |buf|
      ensures SyncedAt(l, pins, now, disk', i) && RefAt(l, pins, now, held, i)
    {
      assert SyncedAt(l, pins, buf, disk, i) && RefAt(l, pins, buf, held, i) && KeysApart(buf, i, b);
    }
    forall k | k in view
      ensures ViewAt(l, pins, now, disk', view, k)
    {
      assert ViewAt(l, pins, buf, disk, view, k);
      assert ViewAt(l, pins, buf, disk', view, k);
      ViewKept(l, pins, buf, now, disk', view, k);
    }
  }

  /** Lines 77-78: the first pinned block reaches its home and is not pinned any more. */
  lemma InstallAgrees(l: Layout, pins: seq<nat>, buf: seq<Buf>, disk: Disk, view: Disk, held: seq<nat>, b: nat)
    requires Agree(l, pins, buf, disk, view, held) && pins != []
    requires b < |buf| && buf[b].key == HomeKey(l, pins[0])
    ensures buf[b].key in view && buf[b].data == view[buf[b].key]
    ensures var now := buf[b := buf[b].(refcnt := Minus(buf[b].refcnt))];
            Agree(l, pins[1..], now, disk[buf[b].key := buf[b].data], view, held)
  {
    var key, rest := buf[b].key, pins[1..];
    var now, disk' := buf[b := buf[b].(refcnt := Minus(buf[b].refcnt))], disk[buf[b].key := buf[b].data];
    LoggedBuffer(l, pins, buf, disk, view, held, pins[0]);
    KeysStayUnique(buf, now, b);
    assert forall x :: x in pins <==> x == pins[0] || x in rest;
    assert pins[0] !in rest;
    forall x | x in rest
      ensures PinAt(l, disk', x)
    {
      assert PinAt(l, disk, x);
    }
    forall i | 0 <= i < |buf|
      ensures SyncedAt(l, rest, now, disk', i) && RefAt(l, rest, now, held, i)
    {
      assert SyncedAt(l, pins, buf, disk, i) && RefAt(l, pins, buf, held, i) && KeysApart(buf, i, b);
    }
    forall k | k in view
      ensures ViewAt(l, rest, now, disk', view, k)
    {
      assert ViewAt(l, pins, buf, disk, view, k);
      if k != key { assert ViewAt(l, rest, buf, disk', view, k); }
      ViewKept(l, rest, buf, now, disk', view, k);
    }
  }

  /** The contents a commit logs. */
  ghost function Values(l: Layout, lh: seq<nat>, view: Disk): (r: seq<Block>)
    requires forall i | 0 <= i < |lh| :: HomeKey(l, lh[i]) in view
    ensures |r| == |lh|
  {
    seq(|lh|, i requires 0 <= i < |lh| => view[HomeKey(l, lh[i])])
  }

  /** What a commit needs to start from, on the disk `d`. */
  ghost predicate CanCommit(l: Layout, d: Disk, hdr: seq<nat>, vals: seq<Block>) {
    && GoodDisk(l, d) && HeaderOf(l, d) == [] && GoodList(l, d, hdr)
    && |hdr| == |vals| && |hdr| < |d[Head(l)]|
  }

  /** Every disk state from position `from` on is one a commit of `vals` passes through. */
  ghost predicate Traced(l: Layout, d: Disk, hdr: seq<nat>, vals: seq<Block>, history: seq<Disk>, from: nat)
    requires CanCommit(l, d, hdr, vals)
  {
    forall k {:trigger TracedAt(l, d, hdr, vals, history, k)} | from <= k < |history| ::
      TracedAt(l, d, hdr, vals, history, k)
  }

  ghost predicate TracedAt(l: Layout, d: Disk, hdr: seq<nat>, vals: seq<Block>, history: seq<Disk>, k: nat)
    requires CanCommit(l, d, hdr, vals) && k < |history|
  {
    Committing(l, d, hdr, vals, history[k])
  }

  /** The disk states of `write_log`, from before its first round on. */
  ghost function LogPath(l: Layout, d: Disk, vals: seq<Block>): seq<Disk> {
    seq(|vals| + 1, i requires 0 <= i <= |vals| => Logged(l, d, vals, i))
  }

  /** The disk states of `install_trans`, from before its first round on. */
  ghost function InstallPath(l: Layout, c: Disk, hdr: seq<nat>): seq<Disk>
    requires GoodList(l, c, hdr)
  {
    seq(|hdr| + 1, i requires 0 <= i <= |hdr| => Install(l, c, hdr, i))
  }

  /** `path` starts at `d`, and round `i` puts the latest contents of block `i` at key `to(i)`. */
  ghost predicate IsPath(l: Layout, path: seq<Disk>, d: Disk, lh: seq<nat>, view: Disk, home: bool) {
    && |path| == |lh| + 1 && path[0] == d
    && forall i | 0 <= i < |lh| :: PathAt(l, path, lh, view, home, i)
  }

  ghost predicate PathAt(l: Layout, path: seq<Disk>, lh: seq<nat>, view: Disk, home: bool, i: nat)
    requires |path| == |lh| + 1 && i < |lh|
  {
    && HomeKey(l, lh[i]) in view
    && path[i + 1] == path[i][(if home then HomeKey(l, lh[i]) else Slot(l, i)) := view[HomeKey(l, lh[i])]]
    && (home ==> Slot(l, i) in path[i] && path[i][Slot(l, i)] == view[HomeKey(l, lh[i])])
  }

  lemma LogPathIs(l: Layout, d: Disk, lh: seq<nat>, view: Disk)
    requires forall i | 0 <= i < |lh| :: HomeKey(l, lh[i]) in view
    ensures IsPath(l, LogPath(l, d, Values(l, lh, view)), d, lh, view, false)
  {
  }

  lemma InstallStep(l: Layout, c: Disk, hdr: seq<nat>, i: nat)
    requires GoodList(l, c, hdr) && i < |hdr|
    ensures var e := Install(l, c, hdr, i);
            && Slot(l, i) in e && e[Slot(l, i)] == c[Slot(l, i)]
            && Install(l, c, hdr, i + 1) == e[HomeKey(l, hdr[i]) := c[Slot(l, i)]]
  {
    SlotsKept(l, c, hdr, i);
  }

  lemma InstallPathIs(l: Layout, c: Disk, lh: seq<nat>, view: Disk)
    requires GoodList(l, c, lh)
    requires forall i | 0 <= i < |lh| :: HomeKey(l, lh[i]) in view && c[Slot(l, i)] == view[HomeKey(l, lh[i])]
    ensures IsPath(l, InstallPath(l, c, lh), c, lh, view, true)
  {
    var path := InstallPath(l, c, lh);
    forall i | 0 <= i < |lh|
      ensures PathAt(l, path, lh, view, true, i)
    {
      InstallStep(l, c, lh, i);
    }
  }

  lemma PathStep(h: seq<Disk>, path: seq<Disk>, t: nat)
    requires t + 1 < |path|
    ensures h + path[1..t + 1] + [path[t + 1]] == h + path[1..t + 2]
  {
  }

  lemma TraceMore(l: Layout, d: Disk, hdr: seq<nat>, vals: seq<Block>, history: seq<Disk>, from: nat, more: seq<Disk>)
    requires CanCommit(l, d, hdr, vals) && Traced(l, d, hdr, vals, history, from)
    requires forall i | 0 <= i < |more| :: Committing(l, d, hdr, vals, more[i])
    ensures Traced(l, d, hdr, vals, history + more, from)
  {
    var all := history + more;
    forall k | from <= k < |all|
      ensures TracedAt(l, d, hdr, vals, all, k)
    {
      if k < |history| {
        assert TracedAt(l, d, hdr, vals, history, k);
      } else {
        assert all[k] == more[k - |history|];
      }
    }
  }

  lemma LoggedIsCommitting(l: Layout, d: Disk, hdr: seq<nat>, vals: seq<Block>, k: nat)
    requires CanCommit(l, d, hdr, vals) && k <= |vals|
    ensures Committing(l, d, hdr, vals, Logged(l, d, vals, k))
  {
  }

  lemma InstallIsCommitting(l: Layout, d: Disk, hdr: seq<nat>, vals: seq<Block>, k: nat)
    requires CanCommit(l, d, hdr, vals) && k <= |hdr|
    ensures var c := Committed(l, d, hdr, vals);
            GoodList(l, c, hdr) && Committing(l, d, hdr, vals, Install(l, c, hdr, k))
  {
    CommittedAfter(l, d, hdr, vals);
    var c := Committed(l, d, hdr, vals);
    assert Recovering(l, c, Install(l, c, hdr, k));
  }

  lemma LogTraced(l: Layout, d: Disk, hdr: seq<nat>, vals: seq<Block>, history: seq<Disk>, from: nat, k: nat)
    requires CanCommit(l, d, hdr, vals) && k <= |vals| && Traced(l, d, hdr, vals, history, from)
    ensures Traced(l, d, hdr, vals, history + LogPath(l, d, vals)[1..k + 1], from)
  {
    var more := LogPath(l, d, vals)[1..k + 1];
    forall i | 0 <= i < k
      ensures Committing(l, d, hdr, vals, more[i])
    {
      LoggedIsCommitting(l, d, hdr, vals, i + 1);
    }
    TraceMore(l, d, hdr, vals, history, from, more);
  }

  lemma InstallTraced(l: Layout, d: Disk, hdr: seq<nat>, vals: seq<Block>, history: seq<Disk>, from: nat, k: nat)
    requires CanCommit(l, d, hdr, vals) && k <= |hdr| && Traced(l, d, hdr, vals, history, from)
    requires GoodList(l, Committed(l, d, hdr, vals), hdr)
    ensures Traced(l, d, hdr, vals, history + InstallPath(l, Committed(l, d, hdr, vals), hdr)[1..k + 1], from)
  {
    var more := InstallPath(l, Committed(l, d, hdr, vals), hdr)[1..k + 1];
    forall i | 0 <= i < k
      ensures Committing(l, d, hdr, vals, more[i])
    {
      InstallIsCommitting(l, d, hdr, vals, i + 1);
    }
    TraceMore(l, d, hdr, vals, history, from, more);
  }

  lemma CommitPointTraced(l: Layout, d: Disk, hdr: seq<nat>, vals: seq<Block>, history: seq<Disk>, from: nat)
    requires CanCommit(l, d, hdr, vals) && Traced(l, d, hdr, vals, history, from)
    ensures Traced(l, d, hdr, vals, history + [Committed(l, d, hdr, vals)], from)
  {
    InstallIsCommitting(l, d, hdr, vals, 0);
    TraceMore(l, d, hdr, vals, history, from, [Committed(l, d, hdr, vals)]);
  }

  lemma ClearedTraced(l: Layout, d: Disk, hdr: seq<nat>, vals: seq<Block>, history: seq<Disk>, from: nat)
    requires CanCommit(l, d, hdr, vals) && Traced(l, d, hdr, vals, history, from)
    ensures var c := Committed(l, d, hdr, vals);
            && GoodList(l, c, hdr)
            && var e := Install(l, c, hdr, |hdr|);
               && Head(l) in e && |e[Head(l)]| > 0
               && Traced(l, d, hdr, vals, history + [Cleared(l, e)], from)
               && GoodDisk(l, Cleared(l, e)) && HeaderOf(l, Cleared(l, e)) == []
  {
    CommittedAfter(l, d, hdr, vals);
    var c := Committed(l, d, hdr, vals);
    assert InLog(l, Head(l));
    ClearedIsDone(l, Install(l, c, hdr, |hdr|));
    assert Committing(l, d, hdr, vals, Recovered(l, c));
    TraceMore(l, d, hdr, vals, history, from, [Recovered(l, c)]);
  }

  ghost predicate HasFree(buf: seq<Buf>) {
    exists i | 0 <= i < |buf| :: buf[i].refcnt == 0
  }

  ghost predicate KeysSame(was: seq<Buf>, now: seq<Buf>) {
    |now| == |was| && forall i | 0 <= i < |was| :: now[i].key == was[i].key
  }

  lemma KeysSameCached(was: seq<Buf>, now: seq<Buf>, key: Key)
    requires KeysSame(was, now)
    ensures Cached(was, key) <==> Cached(now, key)
  {
    if Cached(was, key) {
      var i :| 0 <= i < |was| && was[i].key == key;
      assert now[i].key == key;
    }
    if Cached(now, key) {
      var i :| 0 <= i < |now| && now[i].key == key;
      assert was[i].key == key;
    }
  }

  /** The first `n` blocks of the log after its header are in the cache. */
  ghost predicate SlotsCached(l: Layout, buf: seq<Buf>, n: nat) {
    true == forall t | 0 <= t < n :: Cached(buf, Slot(l, t))
  }

  lemma SlotsStayCached(l: Layout, was: seq<Buf>, now: seq<Buf>, n: nat)
    requires KeysSame(was, now)
    ensures SlotsCached(l, was, n) <==> SlotsCached(l, now, n)
  {
    forall t | 0 <= t < n
      ensures Cached(was, Slot(l, t)) <==> Cached(now, Slot(l, t))
    {
      KeysSameCached(was, now, Slot(l, t));
    }
  }

  /** With the same references held and the same blocks cached, as many buffers are free. */
  lemma FreeSame(l: Layout, pins: seq<nat>, was: seq<Buf>, now: seq<Buf>, disk: Disk, disk': Disk, view: Disk,
                 held: seq<nat>)
    requires Agree(l, pins, was, disk, view, held) && Agree(l, pins, now, disk', view, held) && KeysSame(was, now)
    ensures HasFree(was) <==> HasFree(now)
  {
    forall i | 0 <= i < |was|
      ensures was[i].refcnt == now[i].refcnt
    {
      assert RefAt(l, pins, was, held, i) && RefAt(l, pins, now, held, i);
    }
  }

  /** The buffers of the logged blocks. */
  ghost function Pinned(l: Layout, pins: seq<nat>, buf: seq<Buf>): set<nat> {
    set i: nat | i < |buf| && IsLogged(l, pins, buf[i].key)
  }

  lemma {:induction false} PinnedCount(l: Layout, pins: seq<nat>, buf: seq<Buf>, disk: Disk, view: Disk,
                                       held: seq<nat>, k: nat)
    requires Agree(l, pins, buf, disk, view, held) && k <= |pins|
    ensures |Pinned(l, pins[..k], buf)| == k
  {
    if k == 0 {
      assert Pinned(l, pins[..0], buf) == {};
    } else {
      PinnedCount(l, pins, buf, disk, view, held, k - 1);
      var key := HomeKey(l, pins[k - 1]);
      LoggedBuffer(l, pins, buf, disk, view, held, pins[k - 1]);
      var b: nat :| b < |buf| && buf[b].key == key;
      assert pins[..k] == pins[..k - 1] + [pins[k - 1]];
      forall i: nat
        ensures i in Pinned(l, pins[..k], buf) <==> i in Pinned(l, pins[..k - 1], buf) || i == b
      {
        if i < |buf| { assert KeysApart(buf, b, i); }
      }
      assert Pinned(l, pins[..k], buf) == Pinned(l, pins[..k - 1], buf) + {b};
    }
  }

  lemma {:induction false} Indices(s: set<nat>, n: nat)
    requires forall i | i in s :: i < n
    ensures |s| <= n && (|s| == n ==> forall i: nat | i < n :: i in s)
  {
    if n > 0 {
      var m: nat := n - 1;
      Indices(s - {m}, m);
      if m !in s { assert s - {m} == s; }
    }
  }

  /** There are at most as many logged blocks as buffers, and no more than that every buffer. */
  lemma PinsBound(l: Layout, pins: seq<nat>, buf: seq<Buf>, disk: Disk, view: Disk, held: seq<nat>)
    requires Agree(l, pins, buf, disk, view, held)
    ensures |pins| <= |buf|
    ensures |pins| == |buf| <==> forall i | 0 <= i < |buf| :: IsLogged(l, pins, buf[i].key)
  {
    var s := Pinned(l, pins, buf);
    PinnedCount(l, pins, buf, disk, view, held, |pins|);
    assert pins[..|pins|] == pins;
    Indices(s, |buf|);
    if |pins| == |buf| {
      forall i | 0 <= i < |buf|
        ensures IsLogged(l, pins, buf[i].key)
      {
        assert i in s;
      }
    }
    if forall i | 0 <= i < |buf| :: IsLogged(l, pins, buf[i].key) {
      AllIndices(s, |buf|);
    }
  }

  lemma {:induction false} AllIndices(s: set<nat>, n: nat)
    requires forall i: nat :: i in s <==> i < n
    ensures |s| == n
  {
    if n > 0 {
      AllIndices(s - {n - 1}, n - 1);
    } else {
      assert s == {};
    }
  }

  /** With a logged block in every buffer none is left for a block of the log area. */
  lemma FullCache(l: Layout, pins: seq<nat>, buf: seq<Buf>, disk: Disk, view: Disk, held: seq<nat>, key: Key)
    requires Agree(l, pins, buf, disk, view, held) && |pins| >= |buf| && InLog(l, key)
    ensures !Cached(buf, key) && AllInUse(buf)
  {
    PinsBound(l, pins, buf, disk, view, held);
    forall i | 0 <= i < |buf|
      ensures buf[i].key != key && buf[i].refcnt > 0
    {
      assert IsLogged(l, pins, buf[i].key) && RefAt(l, pins, buf, held, i);
      assert PinAt(l, disk, buf[i].key.blockno);
    }
  }

  /** While nobody holds a buffer, one is free exactly if fewer blocks are logged than there are buffers. */
  lemma FreeIff(l: Layout, pins: seq<nat>, buf: seq<Buf>, disk: Disk, view: Disk, held: seq<nat>)
    requires Agree(l, pins, buf, disk, view, held) && forall i | 0 <= i < |held| :: held[i] == 0
    ensures HasFree(buf) <==> |pins| < |buf|
  {
    PinsBound(l, pins, buf, disk, view, held);
    forall i | 0 <= i < |buf|
      ensures buf[i].refcnt == 0 <==> !IsLogged(l, pins, buf[i].key)
    {
      assert RefAt(l, pins, buf, held, i);
    }
  }

  /** With the same references held, a buffer that was free still is. */
  lemma FreeKept(l: Layout, pins: seq<nat>, was: seq<Buf>, now: seq<Buf>, disk: Disk, disk': Disk, view: Disk,
                 held: seq<nat>, b: nat)
    requires Agree(l, pins, was, disk, view, held) && Agree(l, pins, now, disk', view, held) && b < |now|
    requires forall i | 0 <= i < |now| && i != b :: now[i].key == was[i].key
    requires InLog(l, now[b].key)
    ensures HasFree(was) ==> HasFree(now)
  {
    if HasFree(was) {
      assert now[b].key.blockno in pins ==> PinAt(l, disk, now[b].key.blockno);
      var i :| 0 <= i < |was| && was[i].refcnt == 0;
      assert RefAt(l, pins, was, held, i) && RefAt(l, pins, now, held, i);
    }
  }

  lemma FreeKeptInstalled(l: Layout, pins: seq<nat>, was: seq<Buf>, now: seq<Buf>, disk: Disk, disk': Disk, view: Disk,
                          held: seq<nat>, b: nat)
    requires Agree(l, pins, was, disk, view, held) && pins != [] && Agree(l, pins[1..], now, disk', view, held)
      && b < |now|
    requires forall i | 0 <= i < |now| && i != b :: now[i].key == was[i].key
    requires InLog(l, now[b].key)
    ensures HasFree(was) ==> HasFree(now)
  {
    if HasFree(was) {
      assert now[b].key.blockno in pins[1..] ==> PinAt(l, disk', now[b].key.blockno);
      var i :| 0 <= i < |was| && was[i].refcnt == 0;
      assert RefAt(l, pins, was, held, i) && RefAt(l, pins[1..], now, held, i);
      assert was[i].key.blockno in pins[1..] ==> was[i].key.blockno in pins;
    }
  }

  lemma CommittedSlots(l: Layout, d: Disk, hdr: seq<nat>, vals: seq<Block>, t: nat)
    requires CanCommit(l, d, hdr, vals) && t <= |hdr|
    ensures var c := Committed(l, d, hdr, vals);
            GoodList(l, c, hdr) && forall i | 0 <= i < |hdr| :: Install(l, c, hdr, t)[Slot(l, i)] == vals[i]
  {
    CommittedAfter(l, d, hdr, vals);
    LoggedIs(l, d, vals, |vals|);
    SlotsKept(l, Committed(l, d, hdr, vals), hdr, t);
  }

  lemma DiskIsView(l: Layout, buf: seq<Buf>, disk: Disk, view: Disk, held: seq<nat>)
    requires Agree(l, [], buf, disk, view, held)
    ensures Home(l, disk) == view
  {
    forall k | k in view
      ensures disk[k] == view[k]
    {
      assert ViewAt(l, [], buf, disk, view, k);
    }
  }

  /** Writing the logged blocks home makes the disk what clients see. */
  lemma UpdatedIsView(l: Layout, pins: seq<nat>, buf: seq<Buf>, disk: Disk, view: Disk, held: seq<nat>)
    requires Agree(l, pins, buf, disk, view, held)
    requires forall i | 0 <= i < |pins| :: HomeKey(l, pins[i]) in view
    ensures Updated(l, Home(l, disk), pins, Values(l, pins, view), |pins|) == view
  {
    var home := Home(l, disk);
    assert home.Keys == view.Keys;
    UpdatedAt(l, home, pins, Values(l, pins, view), |pins|, view);
    forall k | k in view && !Touched(l, pins, |pins|, k)
      ensures home[k] == view[k]
    {
      assert ViewAt(l, pins, buf, disk, view, k);
      LoggedIsTouched(l, pins, k);
    }
  }

  lemma LoggedIsTouched(l: Layout, pins: seq<nat>, k: Key)
    ensures IsLogged(l, pins, k) ==> Touched(l, pins, |pins|, k)
  {
    if IsLogged(l, pins, k) {
      var i :| 0 <= i < |pins| && pins[i] == k.blockno;
      assert HomeKey(l, pins[i]) == k;
    }
  }

  // ---------------------------------------------------------------- recovery

  /** The reference count of a buffer whose block was installed `c` times at boot. Each time takes one
      reference and gives back two, and the count wraps around below 0. */
  function Wrapped(c: nat): nat {
    if 0 < c < UINT then UINT - c else 0
  }

  function Leftover(l: Layout, done: seq<nat>, key: Key): nat {
    if IsLogged(l, done, key) then Wrapped(multiset(done)[key.blockno]) else 0
  }

  /** A buffer after `done` was installed at boot: in step with the disk, and unused but for that. */
  predicate RebootAt(l: Layout, buf: seq<Buf>, disk: Disk, done: seq<nat>, i: nat)
    requires i < |buf|
  {
    && (buf[i].valid && buf[i].key != NOKEY ==> buf[i].key in disk && buf[i].data == disk[buf[i].key])
    && buf[i].refcnt == Leftover(l, done, buf[i].key)
  }

  function InUse(buf: seq<Buf>): nat {
    if buf == [] then 0 else InUse(buf[..|buf| - 1]) + if buf[|buf| - 1].refcnt > 0 then 1 else 0
  }

  lemma {:induction false} InUseUpdate(buf: seq<Buf>, b: nat, x: Buf)
    requires b < |buf|
    ensures InUse(buf[b := x]) == InUse(buf) - (if buf[b].refcnt > 0 then 1 else 0) + (if x.refcnt > 0 then 1 else 0)
  {
    var n := |buf| - 1;
    if b == n {
      assert buf[b := x][..n] == buf[..n];
    } else {
      InUseUpdate(buf[..n], b, x);
      assert buf[b := x][..n] == buf[..n][b := x];
    }
  }

  lemma {:induction false} InUseFull(buf: seq<Buf>)
    ensures InUse(buf) <= |buf| && (InUse(buf) == |buf| <==> AllInUse(buf))
  {
    if buf != [] {
      var n := |buf| - 1;
      InUseFull(buf[..n]);
      assert AllInUse(buf) <==> AllInUse(buf[..n]) && buf[n].refcnt > 0;
    }
  }

  class FsLog {
    const l: Layout
    const logsize: nat
    const bc: Cache
    var lh: seq<nat>
    ghost var view: Disk
    ghost var held: seq<nat>

    /** The log area is on the disk and a header block has room for `logsize` block numbers. */
    ghost predicate AreaOk()
      reads this, bc
    {
      && l.start > 0 && l.size > 0 && Head(l) in bc.disk && logsize < |bc.disk[Head(l)]|
      && forall i: nat | i + 1 < l.size :: Slot(l, i) in bc.disk
    }

    /** (`true ==` keeps the conjunction whole where it is passed on from call to call.) */
    ghost predicate With(pins: seq<nat>)
      reads this, bc
    {
      true == (bc.Valid() && AreaOk() && Agree(l, pins, bc.buf, bc.disk, view, held))
    }

    /** Between transactions' commits: everything agrees and the header on disk is empty. */
    ghost predicate Valid()
      reads this, bc
    {
      With(lh) && |lh| <= logsize && |lh| < l.size && GoodDisk(l, bc.disk) && HeaderOf(l, bc.disk) == []
    }

    /** A boot that found nothing to recover: no block is logged, no buffer is in use. */
    constructor Boot(l: Layout, logsize: nat, bc: Cache)
      requires bc.Valid() && GoodDisk(l, bc.disk) && HeaderOf(l, bc.disk) == [] && l.start > 0
      requires logsize < |bc.disk[Head(l)]| && forall i: nat | i + 1 < l.size :: Slot(l, i) in bc.disk
      requires forall i | 0 <= i < bc.n :: RebootAt(l, bc.buf, bc.disk, [], i)
      ensures Valid() && lh == [] && view == Home(l, bc.disk) && this.bc == bc && this.l == l
      ensures held == seq(bc.n, _ => 0)
    {
      this.l, this.logsize, this.bc, this.lh := l, logsize, bc, [];
      view, held := Home(l, bc.disk), seq(bc.n, _ => 0);
      new;
      forall i | 0 <= i < bc.n
        ensures SyncedAt(l, [], bc.buf, bc.disk, i) && RefAt(l, [], bc.buf, held, i)
      {
        assert RebootAt(l, bc.buf, bc.disk, [], i);
      }
      forall k | k in view
        ensures ViewAt(l, [], bc.buf, bc.disk, view, k)
      {
      }
    }

    // ---------------------------------------------------------------- clients

    /** `bread`. The reader gets the latest contents written by anyone, committed or not. */
    method Take(key: Key, ghost pins: seq<nat>) returns (r: Option<nat>)
      requires With(pins) && key in bc.disk && key != NOKEY
      requires forall i | 0 <= i < |held| :: held[i] + 2 < UINT
      modifies this`held, bc`buf
      ensures With(pins)
      ensures r.None? <==> !Cached(old(bc.buf), key) && AllInUse(old(bc.buf))
      ensures r.None? ==> bc.buf == old(bc.buf) && held == old(held)
      ensures r.Some? ==> ReadInto(old(bc.buf), bc.disk, key, r.value, bc.buf)
      ensures r.Some? ==> held == old(held)[r.value := old(held)[r.value] + 1]
      ensures r.Some? ==> var b := bc.buf[r.value];
                Holds(b, key, if key in view then view[key] else bc.disk[key])
    {
      ghost var was := bc.buf;
      r := bc.Bread(key);
      if r.Some? {
        ReadAgrees(l, pins, was, bc.disk, view, held, key, r.value, bc.buf);
        held := held[r.value := held[r.value] + 1];
      }
    }

    /** `brelse`. */
    method Drop(b: nat, ghost pins: seq<nat>)
      requires With(pins) && b < bc.n && held[b] > 0
      modifies this`held, bc`buf, bc`next, bc`prev, bc`order, bc`released
      ensures With(pins)
      ensures held == old(held)[b := old(held)[b] - 1]
      ensures bc.buf == old(bc.buf)[b := old(bc.buf)[b].(refcnt := Minus(old(bc.buf)[b].refcnt))]
    {
      ReleaseAgrees(l, pins, bc.buf, bc.disk, view, held, b);
      bc.Brelse(b);
      held := held[b := held[b] - 1];
    }

    /** A holder changes its buffer and calls `log_write`; `ok` is false at the panic of line 220. */
    method LogWrite(b: nat, data: Block) returns (ok: bool)
      requires Valid() && b < bc.n && held[b] > 0 && bc.buf[b].valid
      requires bc.buf[b].key in view && bc.buf[b].key != NOKEY && bc.buf[b].key.dev == l.dev
      modifies this`lh, this`view, bc`buf
      ensures ok <==> old(|lh|) < logsize && old(|lh|) < l.size - 1
      ensures !ok ==> lh == old(lh) && bc.buf == old(bc.buf) && view == old(view)
      ensures Valid() && bc.disk == old(bc.disk)
      ensures ok ==> view == old(view)[old(bc.buf)[b].key := data]
      ensures ok ==> var no := old(bc.buf)[b].key.blockno;
                && lh == (if no in old(lh) then old(lh) else old(lh) + [no])
                && bc.buf == old(bc.buf)[b := Changed(old(bc.buf)[b], data, no in old(lh))]
    {
      if |lh| >= logsize || |lh| >= l.size - 1 { return false; }
      var key := bc.buf[b].key;
      bc.SetData(b, data);
      var i := FindLogged(key.blockno);
      if i == |lh| {
        bc.Bpin(b);
        lh := lh + [key.blockno];
      }
      WriteAgrees(l, old(lh), old(bc.buf), bc.disk, view, held, b, data, lh, bc.buf);
      view := view[key := data];
      ok := true;
    }

    /** Lines 225-228. */
    method FindLogged(no: nat) returns (i: nat)
      ensures i <= |lh| && (i == |lh| <==> no !in lh)
    {
      i := 0;
      while i < |lh| && lh[i] != no
        invariant i <= |lh| && no !in lh[..i]
      {
        i := i + 1;
      }
    }

    /** One block that is not logged yet: read it, change it, log it, give it back. */
    method Change(no: nat, data: Block)
      requires Valid() && no !in lh && |lh| < bc.n && |lh| < logsize && |lh| < l.size - 1
      requires HomeKey(l, no) in view && HomeKey(l, no) != NOKEY
      requires forall i | 0 <= i < |held| :: held[i] == 0
      modifies this`held, this`lh, this`view, bc
      ensures Valid() && lh == old(lh) + [no] && view == old(view)[HomeKey(l, no) := data]
      ensures held == old(held) && bc.disk == old(bc.disk)
    {
      FreeIff(l, lh, bc.buf, bc.disk, view, held);
      var r := Take(HomeKey(l, no), lh);
      var ok := LogWrite(r.value, data);
      Drop(r.value, lh);
      assert held == old(held);
    }

    /** As many different blocks as there are buffers are logged, one after the other. The commit that
        follows then fails: the state that `Commit` excludes is reached from any boot. */
    method FillAndCommit(blocks: seq<nat>, data: Block) returns (ok: bool)
      requires Valid() && lh == [] && |blocks| == bc.n > 0 && bc.n <= logsize && bc.n < l.size
      requires forall i, j | 0 <= i < j < |blocks| :: blocks[i] != blocks[j]
      requires forall i | 0 <= i < |blocks| :: HomeKey(l, blocks[i]) in view && HomeKey(l, blocks[i]) != NOKEY
      requires forall i | 0 <= i < |held| :: held[i] == 0
      modifies this`held, this`lh, this`view, bc
      ensures !ok && bc.disk == old(bc.disk)
    {
      Fill(blocks, data);
      ok := Commit();
    }

    method Fill(blocks: seq<nat>, data: Block)
      requires Valid() && lh == [] && |blocks| <= bc.n && |blocks| <= logsize && |blocks| < l.size
      requires forall i, j | 0 <= i < j < |blocks| :: blocks[i] != blocks[j]
      requires forall i | 0 <= i < |blocks| :: HomeKey(l, blocks[i]) in view && HomeKey(l, blocks[i]) != NOKEY
      requires forall i | 0 <= i < |held| :: held[i] == 0
      modifies this`held, this`lh, this`view, bc
      ensures Valid() && lh == blocks && held == old(held) && bc.disk == old(bc.disk)
      ensures forall i | 0 <= i < |blocks| :: HomeKey(l, blocks[i]) in view && view[HomeKey(l, blocks[i])] == data
    {
      var k := 0;
      while k < |blocks|
        invariant k <= |blocks| && Valid() && lh == blocks[..k] && held == old(held) && bc.disk == old(bc.disk)
        invariant view.Keys == old(view).Keys
        invariant forall i | 0 <= i < k :: view[HomeKey(l, blocks[i])] == data
      {
        Change(blocks[k], data);
        k := k + 1;
      }
    }

    // ---------------------------------------------------------------- commit

    /** Puts `data` in a buffer of the log area and writes it to the disk. */
    method PutLog(b: nat, data: Block, ghost pins: seq<nat>)
      requires With(pins) && b < bc.n && bc.buf[b].valid && InLog(l, bc.buf[b].key) && bc.buf[b].key in bc.disk
      requires bc.buf[b].key == Head(l) ==> logsize < |data|
      modifies bc`buf, bc`disk, bc`history
      ensures With(pins)
      ensures bc.buf == old(bc.buf)[b := old(bc.buf)[b].(data := data)]
      ensures bc.disk == old(bc.disk)[old(bc.buf)[b].key := data] && bc.history == old(bc.history) + [bc.disk]
    {
      LogAreaAgrees(l, pins, bc.buf, bc.disk, view, held, b, data);
      bc.SetData(b, data);
      bc.Bwrite(b);
    }

    /** Lines 183-188: one block from the cache to the log. It is pinned, so what is copied is its
        latest contents and never a re-read from the disk. */
    method CopyOne(t: nat) returns (ok: bool)
      requires With(lh) && t < |lh| < l.size && forall i | 0 <= i < |held| :: held[i] + 3 < UINT
      modifies this`held, bc
      ensures With(lh) && held == old(held)
      ensures HomeKey(l, lh[t]) in view
      ensures !ok ==> bc.disk == old(bc.disk) && bc.history == old(bc.history)
      ensures ok ==> bc.disk == old(bc.disk)[Slot(l, t) := view[HomeKey(l, lh[t])]]
      ensures ok ==> bc.history == old(bc.history) + [bc.disk]
      ensures HasFree(old(bc.buf)) ==> ok && HasFree(bc.buf)
      ensures Cached(old(bc.buf), Slot(l, t)) ==> ok && KeysSame(old(bc.buf), bc.buf)
      ensures !Cached(old(bc.buf), Slot(l, t)) && !HasFree(old(bc.buf)) ==> !ok
      ensures ok && !HasFree(old(bc.buf)) ==> !HasFree(bc.buf)
    {
      LoggedBuffer(l, lh, bc.buf, bc.disk, view, held, lh[t]);
      var home := HomeKey(l, lh[t]);
      var r := Take(Slot(l, t), lh);
      if r.None? { return false; }
      var to := r.value;
      CopyInto(to, home, t);
      Drop(to, lh);
      ok := true;
      assert held == old(held);
      FreeKept(l, lh, old(bc.buf), bc.buf, old(bc.disk), bc.disk, view, held, to);
      if KeysSame(old(bc.buf), bc.buf) { FreeSame(l, lh, old(bc.buf), bc.buf, old(bc.disk), bc.disk, view, held); }
    }

    /** Lines 184-187. */
    method CopyInto(to: nat, home: Key, ghost t: nat)
      requires With(lh) && t < |lh| < l.size && home == HomeKey(l, lh[t]) && home in view
      requires to < bc.n && bc.buf[to].key == Slot(l, t) && bc.buf[to].valid && Slot(l, t) in bc.disk
      requires forall i | 0 <= i < |held| :: held[i] + 2 < UINT
      modifies this`held, bc
      ensures With(lh) && held == old(held)
      ensures bc.buf == old(bc.buf)[to := old(bc.buf)[to].(data := view[home])]
      ensures bc.disk == old(bc.disk)[Slot(l, t) := view[home]] && bc.history == old(bc.history) + [bc.disk]
    {
      LoggedBuffer(l, lh, bc.buf, bc.disk, view, held, lh[t]);
      var q := Take(home, lh);
      var from := q.value;
      PutLog(to, bc.buf[from].data, lh);
      Drop(from, lh);
    }

    /** The disk is where `t` rounds along `path` take it, and `h` is its history before them. */
    ghost predicate OnPath(path: seq<Disk>, t: nat, h: seq<Disk>)
      requires t < |path|
      reads bc
    {
      true == (bc.disk == path[t] && bc.history == h + path[1..t + 1])
    }

    /** A cache that was `was` before `t` rounds of `write_log`: without a free buffer nothing in it is
        replaced, and every round found its log block there. */
    ghost predicate Lasting(was: seq<Buf>, t: nat)
      reads this, bc
    {
      true == (
        && (HasFree(was) ==> HasFree(bc.buf))
        && (SlotsCached(l, was, |lh|) || !HasFree(was) ==> KeysSame(was, bc.buf))
        && (!HasFree(was) ==> !HasFree(bc.buf) && SlotsCached(l, was, t)))
    }

    method CopyRound(t: nat, ghost path: seq<Disk>, ghost h: seq<Disk>, ghost was: seq<Buf>) returns (ok: bool)
      requires With(lh) && t < |lh| < l.size && forall i | 0 <= i < |held| :: held[i] + 3 < UINT
      requires |path| == |lh| + 1 && PathAt(l, path, lh, view, false, t) && OnPath(path, t, h) && Lasting(was, t)
      modifies this`held, bc
      ensures With(lh) && held == old(held)
      ensures ok ==> OnPath(path, t + 1, h) && Lasting(was, t + 1)
      ensures !ok ==> OnPath(path, t, h) && !HasFree(was) && !SlotsCached(l, was, |lh|)
    {
      if KeysSame(was, bc.buf) { KeysSameCached(was, bc.buf, Slot(l, t)); }
      PathStep(h, path, t);
      ok := CopyOne(t);
    }

    /** `write_log`; `t` is how many blocks reached the log. */
    method WriteLog(ghost path: seq<Disk>) returns (ok: bool, t: nat)
      requires With(lh) && |lh| < l.size && forall i | 0 <= i < |held| :: held[i] + 3 < UINT
      requires IsPath(l, path, bc.disk, lh, view, false)
      modifies this`held, bc
      ensures With(lh) && held == old(held) && t <= |lh| && (ok ==> t == |lh|)
      ensures bc.disk == path[t] && bc.history == old(bc.history) + path[1..t + 1]
      ensures HasFree(old(bc.buf)) ==> ok && HasFree(bc.buf)
      ensures lh != [] && |lh| >= bc.n ==> !ok && t == 0
      ensures SlotsCached(l, old(bc.buf), |lh|) ==> ok && KeysSame(old(bc.buf), bc.buf)
      ensures ok && !HasFree(old(bc.buf)) ==> !HasFree(bc.buf) && SlotsCached(l, old(bc.buf), |lh|)
    {
      t := 0;
      assert path[1..1] == [];
      if lh != [] && |lh| >= bc.n { FullCache(l, lh, bc.buf, bc.disk, view, held, Slot(l, 0)); }
      while t < |lh|
        invariant t <= |lh| && With(lh) && held == old(held)
        invariant OnPath(path, t, old(bc.history)) && Lasting(old(bc.buf), t)
      {
        ok := CopyRound(t, path, old(bc.history), old(bc.buf));
        if !ok { return; }
        t := t + 1;
      }
      ok := true;
    }

    /** `write_head`. */
    method WriteHead(ghost pins: seq<nat>) returns (ok: bool)
      requires With(pins) && |lh| <= logsize && forall i | 0 <= i < |held| :: held[i] + 3 < UINT
      modifies this`held, bc
      ensures With(pins) && held == old(held)
      ensures !ok ==> bc.disk == old(bc.disk) && bc.history == old(bc.history)
      ensures ok ==> bc.disk == old(bc.disk)[Head(l) := WithList(old(bc.disk)[Head(l)], lh)]
      ensures ok ==> bc.history == old(bc.history) + [bc.disk]
      ensures HasFree(old(bc.buf)) ==> ok && HasFree(bc.buf)
      ensures Cached(old(bc.buf), Head(l)) ==> ok && KeysSame(old(bc.buf), bc.buf)
      ensures !Cached(old(bc.buf), Head(l)) && !HasFree(old(bc.buf)) ==> !ok
    {
      assert InLog(l, Head(l));
      var r := Take(Head(l), pins);
      if r.None? { return false; }
      var b := r.value;
      PutLog(b, WithList(bc.buf[b].data, lh), pins);
      Drop(b, pins);
      ok := true;
      assert held == old(held);
      FreeKept(l, pins, old(bc.buf), bc.buf, old(bc.disk), bc.disk, view, held, b);
    }

    /** Lines 75-78, with the log block in buffer `lb`. */
    method CopyHome(lb: nat, home: Key, ghost pins: seq<nat>) returns (db: nat)
      requires With(pins) && pins != [] && home == HomeKey(l, pins[0]) && home in view
      requires lb < bc.n && bc.buf[lb].key != home && bc.buf[lb].data == view[home]
      requires forall i | 0 <= i < |held| :: held[i] + 2 < UINT
      modifies this`held, bc
      ensures With(pins[1..]) && db < bc.n && db != lb && held == old(held)[db := old(held)[db] + 1]
      ensures bc.disk == old(bc.disk)[home := view[home]] && bc.history == old(bc.history) + [bc.disk]
      ensures forall i | 0 <= i < bc.n :: bc.buf[i].key == old(bc.buf)[i].key
    {
      LoggedBuffer(l, pins, bc.buf, bc.disk, view, held, pins[0]);
      var q := Take(home, pins);
      db := q.value;
      WriteHome(db, bc.buf[lb].data, pins);
    }

    /** Lines 76-78. */
    method WriteHome(db: nat, data: Block, ghost pins: seq<nat>)
      requires With(pins) && pins != [] && db < bc.n && bc.buf[db].key == HomeKey(l, pins[0])
      requires HomeKey(l, pins[0]) in view && data == view[HomeKey(l, pins[0])]
      modifies bc`buf, bc`disk, bc`history
      ensures With(pins[1..])
      ensures bc.disk == old(bc.disk)[HomeKey(l, pins[0]) := data] && bc.history == old(bc.history) + [bc.disk]
      ensures bc.buf == old(bc.buf)[db := old(bc.buf)[db].(refcnt := Minus(old(bc.buf)[db].refcnt))]
    {
      ghost var mid := bc.buf;
      InstallAgrees(l, pins, bc.buf, bc.disk, view, held, db);
      bc.SetData(db, data);
      assert bc.buf == mid;
      bc.Bwrite(db);
      bc.Bunpin(db);
    }

    /** Lines 79-80. */
    method DropBoth(lb: nat, db: nat, ghost pins: seq<nat>, ghost was: seq<nat>)
      requires With(pins) && lb < bc.n && db < bc.n && lb != db && |was| == bc.n
      requires held == was[lb := was[lb] + 1][db := was[db] + 1]
      modifies this`held, bc`buf, bc`next, bc`prev, bc`order, bc`released
      ensures With(pins) && held == was
      ensures forall i | 0 <= i < bc.n :: bc.buf[i].key == old(bc.buf)[i].key
    {
      Drop(lb, pins);
      Drop(db, pins);
    }

    /** Lines 74-80: one logged block to its home. */
    method InstallOne(t: nat) returns (ok: bool)
      requires t < |lh| < l.size && With(lh[t..]) && forall i | 0 <= i < |held| :: held[i] + 3 < UINT
      requires HomeKey(l, lh[t]) in view && Slot(l, t) in bc.disk && bc.disk[Slot(l, t)] == view[HomeKey(l, lh[t])]
      modifies this`held, bc
      ensures held == old(held)
      ensures !ok ==> With(lh[t..]) && bc.disk == old(bc.disk) && bc.history == old(bc.history)
      ensures ok ==> With(lh[t + 1..]) && bc.history == old(bc.history) + [bc.disk]
      ensures ok ==> bc.disk == old(bc.disk)[HomeKey(l, lh[t]) := old(bc.disk)[Slot(l, t)]]
      ensures HasFree(old(bc.buf)) ==> ok && HasFree(bc.buf)
      ensures Cached(old(bc.buf), Slot(l, t)) ==> ok && KeysSame(old(bc.buf), bc.buf)
    {
      ghost var pins, rest := lh[t..], lh[t + 1..];
      assert pins[1..] == rest;
      LoggedBuffer(l, pins, bc.buf, bc.disk, view, held, lh[t]);
      var r := Take(Slot(l, t), pins);
      if r.None? { return false; }
      var lb := r.value;
      var db := CopyHome(lb, HomeKey(l, lh[t]), pins);
      DropBoth(lb, db, rest, old(held));
      ok := true;
      FreeKeptInstalled(l, pins, old(bc.buf), bc.buf, old(bc.disk), bc.disk, view, held, lb);
    }

    /** A cache that was `was` before `install_trans`. */
    ghost predicate Freeing(was: seq<Buf>)
      reads this, bc
    {
      true == (
        (HasFree(was) ==> HasFree(bc.buf)) && (SlotsCached(l, was, |lh|) ==> KeysSame(was, bc.buf)))
    }

    method InstallRound(t: nat, ghost path: seq<Disk>, ghost h: seq<Disk>, ghost was: seq<Buf>) returns (ok: bool)
      requires t < |lh| < l.size && With(lh[t..]) && forall i | 0 <= i < |held| :: held[i] + 3 < UINT
      requires |path| == |lh| + 1 && PathAt(l, path, lh, view, true, t) && OnPath(path, t, h) && Freeing(was)
      modifies this`held, bc
      ensures held == old(held)
      ensures ok ==> With(lh[t + 1..]) && OnPath(path, t + 1, h) && Freeing(was)
      ensures !ok ==> OnPath(path, t, h) && !HasFree(was) && !SlotsCached(l, was, |lh|)
    {
      if KeysSame(was, bc.buf) { KeysSameCached(was, bc.buf, Slot(l, t)); }
      PathStep(h, path, t);
      ok := InstallOne(t);
    }

    /** `install_trans`, when the log holds the latest contents of every logged block. */
    method InstallTrans(ghost path: seq<Disk>) returns (ok: bool, t: nat)
      requires With(lh) && |lh| < l.size && forall i | 0 <= i < |held| :: held[i] + 3 < UINT
      requires IsPath(l, path, bc.disk, lh, view, true)
      modifies this`held, bc
      ensures held == old(held) && t <= |lh| && (ok ==> t == |lh| && With([]))
      ensures bc.disk == path[t] && bc.history == old(bc.history) + path[1..t + 1]
      ensures HasFree(old(bc.buf)) ==> ok && HasFree(bc.buf)
      ensures SlotsCached(l, old(bc.buf), |lh|) ==> ok && KeysSame(old(bc.buf), bc.buf)
    {
      t := 0;
      assert lh[0..] == lh && path[1..1] == [];
      while t < |lh|
        invariant t <= |lh| && With(lh[t..]) && held == old(held)
        invariant OnPath(path, t, old(bc.history)) && Freeing(old(bc.buf))
      {
        ok := InstallRound(t, path, old(bc.history), old(bc.buf));
        if !ok { return; }
        t := t + 1;
      }
      assert lh[t..] == [];
      ok := true;
    }

    /** `commit`. Every disk state it passes through is one that recovers to the old or to the new
        file system; if one buffer is free it completes, and then the disk holds the new one. A
        logged block in every buffer makes it fail before the first write. */
    method Commit() returns (ok: bool)
      requires Valid() && forall i | 0 <= i < |held| :: held[i] + 3 < UINT
      modifies this`held, this`lh, bc
      ensures held == old(held)
      ensures forall i | 0 <= i < |old(lh)| :: HomeKey(l, old(lh)[i]) in view
      ensures CanCommit(l, old(bc.disk), old(lh), Values(l, old(lh), view))
      ensures Updated(l, Home(l, old(bc.disk)), old(lh), Values(l, old(lh), view), |old(lh)|) == view
      ensures Traced(l, old(bc.disk), old(lh), Values(l, old(lh), view), bc.history, |old(bc.history)|)
      ensures ok ==> Valid() && lh == [] && Home(l, bc.disk) == view
      ensures HasFree(old(bc.buf)) ==> ok && HasFree(bc.buf)
      ensures old(lh) == [] || |old(lh)| >= bc.n ==>
                ok == (old(lh) == []) && bc.history == old(bc.history) && bc.disk == old(bc.disk)
      ensures (forall i | 0 <= i < |held| :: held[i] == 0) ==> (ok <==> old(lh) == [] || |old(lh)| < bc.n)
      ensures ok <==> || old(lh) == [] || HasFree(old(bc.buf))
                      || (Cached(old(bc.buf), Head(l)) && SlotsCached(l, old(bc.buf), |old(lh)|))
    {
      CommitReady();
      if forall i | 0 <= i < |held| :: held[i] == 0 { FreeIff(l, lh, bc.buf, bc.disk, view, held); }
      if |lh| >= bc.n { FullCache(l, lh, bc.buf, bc.disk, view, held, Head(l)); }
      ok := true;
      if |lh| > 0 {
        ok := CommitBlocks(bc.disk, Values(l, lh, view));
      }
      if ok { DiskIsView(l, bc.buf, bc.disk, view, held); }
    }

    /** Lines 196-200. */
    method CommitBlocks(ghost d: Disk, ghost vals: seq<Block>) returns (ok: bool)
      requires Valid() && lh != [] && d == bc.disk && forall i | 0 <= i < |held| :: held[i] + 3 < UINT
      requires forall i | 0 <= i < |lh| :: HomeKey(l, lh[i]) in view
      requires vals == Values(l, lh, view) && CanCommit(l, d, lh, vals)
      modifies this`held, this`lh, bc
      ensures held == old(held)
      ensures Traced(l, d, old(lh), vals, bc.history, |old(bc.history)|)
      ensures ok ==> Valid() && lh == []
      ensures HasFree(old(bc.buf)) ==> ok && HasFree(bc.buf)
      ensures |old(lh)| >= bc.n ==> !ok && bc.history == old(bc.history) && bc.disk == old(bc.disk)
      ensures ok <==> HasFree(old(bc.buf)) || (Cached(old(bc.buf), Head(l)) && SlotsCached(l, old(bc.buf), |old(lh)|))
    {
      ghost var h := bc.history;
      var t: nat;
      LogPathIs(l, d, lh, view);
      ok, t := WriteLog(LogPath(l, d, vals));
      LogTraced(l, d, lh, vals, h, |h|, t);
      if !ok { return; }
      if KeysSame(old(bc.buf), bc.buf) {
        KeysSameCached(old(bc.buf), bc.buf, Head(l));
        SlotsStayCached(l, old(bc.buf), bc.buf, |lh|);
      }
      ok := PublishAndInstall(d, vals, |h|);
    }

    lemma CommitReady()
      requires Valid()
      ensures forall i | 0 <= i < |lh| :: HomeKey(l, lh[i]) in view
      ensures CanCommit(l, bc.disk, lh, Values(l, lh, view))
      ensures Updated(l, Home(l, bc.disk), lh, Values(l, lh, view), |lh|) == view
    {
      forall i | 0 <= i < |lh|
        ensures HomeKey(l, lh[i]) in view && HomeKey(l, lh[i]) in bc.disk && !InLog(l, HomeKey(l, lh[i]))
      {
        LoggedBuffer(l, lh, bc.buf, bc.disk, view, held, lh[i]);
      }
      UpdatedIsView(l, lh, bc.buf, bc.disk, view, held);
    }

    /** Line 197: the commit point. */
    method Publish(ghost d: Disk, ghost vals: seq<Block>) returns (ok: bool)
      requires With(lh) && |lh| <= logsize && forall i | 0 <= i < |held| :: held[i] + 3 < UINT
      requires CanCommit(l, d, lh, vals) && bc.disk == Logged(l, d, vals, |vals|)
      modifies this`held, bc
      ensures held == old(held) && With(lh)
      ensures !ok ==> bc.history == old(bc.history)
      ensures ok ==> bc.disk == Committed(l, d, lh, vals) && bc.history == old(bc.history) + [bc.disk]
      ensures HasFree(old(bc.buf)) ==> ok && HasFree(bc.buf)
      ensures Cached(old(bc.buf), Head(l)) ==> ok && KeysSame(old(bc.buf), bc.buf)
      ensures !Cached(old(bc.buf), Head(l)) && !HasFree(old(bc.buf)) ==> !ok
    {
      LoggedIs(l, d, vals, |vals|);
      ok := WriteHead(lh);
    }

    /** Lines 197-200. */
    method PublishAndInstall(ghost d: Disk, ghost vals: seq<Block>, ghost from: nat) returns (ok: bool)
      requires With(lh) && |lh| < l.size && |lh| <= logsize && forall i | 0 <= i < |held| :: held[i] + 3 < UINT
      requires forall i | 0 <= i < |lh| :: HomeKey(l, lh[i]) in view
      requires vals == Values(l, lh, view) && CanCommit(l, d, lh, vals) && bc.disk == Logged(l, d, vals, |vals|)
      requires Traced(l, d, lh, vals, bc.history, from)
      modifies this`held, this`lh, bc
      ensures held == old(held)
      ensures Traced(l, d, old(lh), vals, bc.history, from)
      ensures ok ==> Valid() && lh == []
      ensures HasFree(old(bc.buf)) ==> ok && HasFree(bc.buf)
      ensures Cached(old(bc.buf), Head(l)) && SlotsCached(l, old(bc.buf), |old(lh)|) ==> ok
      ensures !Cached(old(bc.buf), Head(l)) && !HasFree(old(bc.buf)) ==> !ok
    {
      CommitPointTraced(l, d, lh, vals, bc.history, from);
      ok := Publish(d, vals);
      if !ok { return; }
      if KeysSame(old(bc.buf), bc.buf) {
        KeysSameCached(old(bc.buf), bc.buf, Head(l));
        SlotsStayCached(l, old(bc.buf), bc.buf, |lh|);
      }
      ok := InstallAndClear(d, vals, from);
    }

    /** Lines 198-200. */
    method InstallAndClear(ghost d: Disk, ghost vals: seq<Block>, ghost from: nat) returns (ok: bool)
      requires With(lh) && |lh| < l.size && forall i | 0 <= i < |held| :: held[i] + 3 < UINT
      requires forall i | 0 <= i < |lh| :: HomeKey(l, lh[i]) in view
      requires vals == Values(l, lh, view) && CanCommit(l, d, lh, vals) && bc.disk == Committed(l, d, lh, vals)
      requires Traced(l, d, lh, vals, bc.history, from)
      modifies this`held, this`lh, bc
      ensures held == old(held)
      ensures Traced(l, d, old(lh), vals, bc.history, from)
      ensures ok ==> Valid() && lh == []
      ensures HasFree(old(bc.buf)) ==> ok && HasFree(bc.buf)
      ensures Cached(old(bc.buf), Head(l)) && SlotsCached(l, old(bc.buf), |old(lh)|) ==> ok
    {
      CommittedSlots(l, d, lh, vals, 0);
      InstallPathIs(l, Committed(l, d, lh, vals), lh, view);
      ghost var h := bc.history;
      var t: nat;
      ok, t := InstallTrans(InstallPath(l, Committed(l, d, lh, vals), lh));
      InstallTraced(l, d, lh, vals, h, from, t);
      if !ok { return; }
      ClearedTraced(l, d, lh, vals, bc.history, from);
      if KeysSame(old(bc.buf), bc.buf) { KeysSameCached(old(bc.buf), bc.buf, Head(l)); }
      ok := ClearLog();
    }

    /** Lines 199-200. */
    method ClearLog() returns (ok: bool)
      requires With([]) && forall i | 0 <= i < |held| :: held[i] + 3 < UINT
      requires Head(l) in bc.disk && |bc.disk[Head(l)]| > 0
      modifies this`held, this`lh, bc
      ensures held == old(held) && lh == [] && With([])
      ensures !ok ==> bc.history == old(bc.history)
      ensures ok ==> bc.disk == Cleared(l, old(bc.disk)) && bc.history == old(bc.history) + [bc.disk]
      ensures HasFree(old(bc.buf)) ==> ok && HasFree(bc.buf)
      ensures Cached(old(bc.buf), Head(l)) ==> ok
    {
      lh := [];
      ok := WriteHead([]);
    }
  }
}
