/** `recover_from_log` of kernel/log.c at boot, on a cache nobody uses yet.

    `install_trans` unpins buffers that were never pinned, so each one it installs keeps a reference
    count that wrapped around below 0. Recovery completes exactly when the cache has more buffers than
    the log has different blocks; either way every disk state on the way is recoverable. The next
    `bread` of such a block then takes the count to 0: the buffer is held and counts as unused. */
module Recovery {
  import opened Options
  import opened Bcache
  import opened LogDisk
  import opened Log

  /** How many different blocks a list has. */
  function Different(hdr: seq<nat>): nat {
    if hdr == [] then 0
    else Different(hdr[..|hdr| - 1]) + if hdr[|hdr| - 1] in hdr[..|hdr| - 1] then 0 else 1
  }

  ghost predicate Rebooting(l: Layout, buf: seq<Buf>, disk: Disk, done: seq<nat>) {
    && UniqueKeys(buf) && InUse(buf) == Different(done)
    && (forall x | x in done :: Cached(buf, HomeKey(l, x)))
    && forall i {:trigger RebootAt(l, buf, disk, done, i)} | 0 <= i < |buf| :: RebootAt(l, buf, disk, done, i)
  }

  /** (`true ==` keeps the conjunction whole where it is passed on from call to call.) */
  ghost predicate Booting(bc: Cache, l: Layout, done: seq<nat>)
    reads bc
  {
    true == (bc.Valid() && Rebooting(l, bc.buf, bc.disk, done))
  }

  /** Reading a block whose buffer, if it has one, is unused and in step with the disk. */
  lemma ReadUnused(buf: seq<Buf>, disk: Disk, key: Key)
    requires key in disk
    requires Unused(buf, disk, key)
    ensures !Cached(buf, key) && AllInUse(buf) <==> InUse(buf) == |buf|
    ensures forall b: nat, now | ReadInto(buf, disk, key, b, now) ::
              now == buf[b := Buf(key, true, 1, disk[key])] && InUse(now) == InUse(buf) + 1
  {
    InUseFull(buf);
    forall b: nat, now | ReadInto(buf, disk, key, b, now)
      ensures now == buf[b := Buf(key, true, 1, disk[key])] && InUse(now) == InUse(buf) + 1
    {
      InUseUpdate(buf, b, Buf(key, true, 1, disk[key]));
    }
  }

  lemma DifferentMore(done: seq<nat>, no: nat)
    ensures Different(done + [no]) == Different(done) + if no in done then 0 else 1
  {
    assert (done + [no])[..|done|] == done;
  }

  lemma {:induction false} DifferentUpTo(hdr: seq<nat>, t: nat)
    requires t <= |hdr|
    ensures Different(hdr[..t]) <= Different(hdr)
  {
    if t == |hdr| {
      assert hdr[..t] == hdr;
    } else {
      DifferentUpTo(hdr[..|hdr| - 1], t);
      assert hdr[..|hdr| - 1][..t] == hdr[..t];
    }
  }

  lemma {:induction false} DifferentBound(hdr: seq<nat>)
    ensures Different(hdr) <= |hdr|
    ensures Different(hdr) == |hdr| <==> forall i, j | 0 <= i < j < |hdr| :: hdr[i] != hdr[j]
  {
    if hdr != [] {
      var n := |hdr| - 1;
      DifferentBound(hdr[..n]);
      assert hdr[n] in hdr[..n] ==> exists i | 0 <= i < n :: hdr[i] == hdr[n];
    }
  }

  /** The two buffers of round `no` are buffers of different blocks of the right kind. */
  predicate Apart(l: Layout, disk: Disk, done: seq<nat>, no: nat, slot: Key) {
    && InLog(l, slot) && slot in disk && slot != NOKEY && !InLog(l, HomeKey(l, no)) && HomeKey(l, no) != NOKEY
    && forall x | x in done :: !InLog(l, HomeKey(l, x))
  }

  /** No block of `done` or `no` is listed so often that its count comes around again. */
  ghost predicate Few(done: seq<nat>, no: nat) {
    multiset(done)[no] + 1 < UINT && forall x | x in done :: multiset(done)[x] < UINT
  }

  /** One block installed: two buffers were used and one of them stays behind with a wrapped count. */
  lemma InstalledAtBoot(l: Layout, buf: seq<Buf>, disk: Disk, done: seq<nat>, no: nat, slot: Key, lb: nat, db: nat)
    requires Rebooting(l, buf, disk, done) && no !in done && lb < |buf| && db < |buf| && lb != db
    requires Apart(l, disk, done, no, slot)
    requires buf[lb].refcnt == 0 && buf[db].refcnt == 0
    requires buf[lb].key == slot || !Cached(buf, slot)
    requires var mid := buf[lb := Buf(slot, true, 0, disk[slot])];
             mid[db].key == HomeKey(l, no) || !Cached(mid, HomeKey(l, no))
    requires Few(done, no)
    ensures var data := disk[slot];
            Rebooting(l, buf[lb := Buf(slot, true, 0, data)][db := Buf(HomeKey(l, no), true, Wrapped(1), data)],
                      disk[HomeKey(l, no) := data], done + [no])
  {
    var home, data := HomeKey(l, no), disk[slot];
    var mid := buf[lb := Buf(slot, true, 0, data)];
    var now, disk', done' := mid[db := Buf(home, true, Wrapped(1), data)], disk[home := data], done + [no];
    KeysStayUnique(buf, mid, lb);
    KeysStayUnique(mid, now, db);
    InUseUpdate(buf, lb, mid[lb]);
    InUseUpdate(mid, db, now[db]);
    DifferentMore(done, no);
    assert !IsLogged(l, done', slot);
    forall i | 0 <= i < |now|
      ensures RebootAt(l, now, disk', done', i)
    {
      assert RebootAt(l, buf, disk, done, i) && KeysApart(now, i, db) && KeysApart(now, i, lb);
    }
    forall x | x in done'
      ensures Cached(now, HomeKey(l, x))
    {
      if x == no {
        assert now[db].key == home;
      } else {
        StillCached(l, buf, now, disk, done, x, lb, db);
      }
    }
  }

  /** A buffer with a wrapped count is not taken over by another block. */
  lemma StillCached(l: Layout, buf: seq<Buf>, now: seq<Buf>, disk: Disk, done: seq<nat>, x: nat, lb: nat, db: nat)
    requires Rebooting(l, buf, disk, done) && x in done && multiset(done)[x] < UINT && |now| == |buf|
    requires forall i | 0 <= i < |buf| && i != lb && i != db :: now[i] == buf[i]
    requires forall i | 0 <= i < |buf| && buf[i].refcnt != 0 :: now[i].key == buf[i].key
    ensures Cached(now, HomeKey(l, x))
  {
    var i :| 0 <= i < |buf| && buf[i].key == HomeKey(l, x);
    assert RebootAt(l, buf, disk, done, i);
    assert now[i].key == HomeKey(l, x);
  }

  /** A block that is listed again is found by its key, and its count goes down by one more. */
  lemma InstalledAgain(l: Layout, buf: seq<Buf>, disk: Disk, done: seq<nat>, no: nat, slot: Key, lb: nat, db: nat)
    requires Rebooting(l, buf, disk, done) && no in done && lb < |buf| && db < |buf| && lb != db
    requires Apart(l, disk, done, no, slot)
    requires buf[lb].refcnt == 0 && buf[db].key == HomeKey(l, no)
    requires buf[lb].key == slot || !Cached(buf, slot)
    requires Few(done, no)
    ensures var data := disk[slot];
            Rebooting(l, buf[lb := Buf(slot, true, 0, data)]
                            [db := Buf(HomeKey(l, no), true, Wrapped(multiset(done)[no] + 1), data)],
                      disk[HomeKey(l, no) := data], done + [no])
  {
    var home, data := HomeKey(l, no), disk[slot];
    var mid := buf[lb := Buf(slot, true, 0, data)];
    var now := mid[db := Buf(home, true, Wrapped(multiset(done)[no] + 1), data)];
    var disk', done' := disk[home := data], done + [no];
    KeysStayUnique(buf, mid, lb);
    KeysStayUnique(mid, now, db);
    InUseUpdate(buf, lb, mid[lb]);
    InUseUpdate(mid, db, now[db]);
    DifferentMore(done, no);
    assert RebootAt(l, buf, disk, done, db);
    assert !IsLogged(l, done', slot);
    forall i | 0 <= i < |now|
      ensures RebootAt(l, now, disk', done', i)
    {
      assert RebootAt(l, buf, disk, done, i) && KeysApart(now, i, db) && KeysApart(now, i, lb);
    }
    forall x | x in done'
      ensures Cached(now, HomeKey(l, x))
    {
      StillCached(l, buf, now, disk, done, x, lb, db);
    }
  }

  /** Lines 74-80, at boot. */
  method RecoverOne(bc: Cache, l: Layout, slot: Key, home: Key, ghost done: seq<nat>, ghost no: nat) returns (ok: bool)
    requires Booting(bc, l, done) && Different(done) < bc.n
    requires home == HomeKey(l, no) && home in bc.disk && Apart(l, bc.disk, done, no, slot) && Few(done, no)
    modifies bc
    ensures bc.Valid() && (ok <==> Different(done + [no]) < bc.n)
    ensures !ok ==> bc.disk == old(bc.disk) && bc.history == old(bc.history)
    ensures ok ==> Booting(bc, l, done + [no])
    ensures ok ==> bc.disk == old(bc.disk)[home := old(bc.disk)[slot]] && bc.history == old(bc.history) + [bc.disk]
  {
    ghost var b0, d0, c := bc.buf, bc.disk, multiset(done)[no];
    RoundReady(l, b0, d0, done, no, slot);
    var lb, db: nat;
    ok, lb, db := ReadPair(bc, slot, home, c);
    if !ok { return; }
    CopyBack(bc, lb, db);
    WrapOnce(c);
    assert bc.buf == b0[lb := Buf(slot, true, 0, d0[slot])][db := Buf(home, true, Wrapped(c + 1), d0[slot])];
    RoundDone(l, b0, d0, done, no, slot, lb, db);
  }

  lemma WrapOnce(c: nat)
    requires c + 1 < UINT
    ensures Minus(Minus(Plus(Wrapped(c)))) == Wrapped(c + 1)
  {
  }

  ghost predicate Unused(buf: seq<Buf>, disk: Disk, key: Key)
    requires key in disk
  {
    forall i | 0 <= i < |buf| && buf[i].key == key :: buf[i].refcnt == 0 && (buf[i].valid ==> buf[i].data == disk[key])
  }

  /** The block of `key` was installed `c` times. */
  ghost predicate UsedUp(buf: seq<Buf>, disk: Disk, key: Key, c: nat)
    requires key in disk
  {
    && (c > 0 ==> Cached(buf, key))
    && forall i | 0 <= i < |buf| && buf[i].key == key ::
         buf[i].refcnt == Wrapped(c) && (buf[i].valid ==> buf[i].data == disk[key])
  }

  /** What reading the log block into `lb` and the home block into `db` found there. */
  ghost predicate Found(buf: seq<Buf>, disk: Disk, slot: Key, home: Key, c: nat, lb: nat, db: nat)
    requires slot in disk
  {
    && lb < |buf| && db < |buf| && lb != db && buf[lb].refcnt == 0
    && (buf[lb].key == slot || !Cached(buf, slot))
    && if c > 0 then buf[db].key == home
       else
         && buf[db].refcnt == 0
         && var mid := buf[lb := Buf(slot, true, 0, disk[slot])];
            mid[db].key == home || !Cached(mid, home)
  }

  /** Lines 74-75. */
  method ReadPair(bc: Cache, slot: Key, home: Key, ghost c: nat) returns (ok: bool, lb: nat, db: nat)
    requires bc.Valid() && slot in bc.disk && home in bc.disk && slot != home && c < UINT
    requires Unused(bc.buf, bc.disk, slot) && UsedUp(bc.buf, bc.disk, home, c)
    modifies bc`buf
    ensures bc.Valid() && (ok <==> InUse(old(bc.buf)) + (if c == 0 then 1 else 0) < bc.n)
    ensures ok ==> Found(old(bc.buf), bc.disk, slot, home, c, lb, db)
    ensures ok ==> bc.buf == old(bc.buf)[lb := Buf(slot, true, 1, bc.disk[slot])]
                                        [db := Buf(home, true, Plus(Wrapped(c)), bc.disk[home])]
  {
    lb, db := 0, 0;
    ghost var b0 := bc.buf;
    ReadUnused(b0, bc.disk, slot);
    InUseFull(b0);
    var r := bc.Bread(slot);
    if r.None? { return false, 0, 0; }
    lb := r.value;
    ghost var b1 := bc.buf;
    SecondRead(b0, b1, bc.disk, slot, home, c, lb);
    var q := bc.Bread(home);
    if q.None? { return false, 0, 0; }
    db := q.value;
    ok := true;
  }

  /** The home block is read while the log block is held. */
  lemma SecondRead(b0: seq<Buf>, b1: seq<Buf>, disk: Disk, slot: Key, home: Key, c: nat, lb: nat)
    requires slot in disk && home in disk && slot != home && c < UINT
    requires Unused(b0, disk, slot) && UsedUp(b0, disk, home, c) && ReadInto(b0, disk, slot, lb, b1)
    ensures !Cached(b1, home) && AllInUse(b1) <==> c == 0 && InUse(b0) + 1 == |b0|
    ensures forall db: nat, now | ReadInto(b1, disk, home, db, now) ::
              && Found(b0, disk, slot, home, c, lb, db)
              && now == b1[db := Buf(home, true, Plus(Wrapped(c)), disk[home])]
  {
    ReadUnused(b0, disk, slot);
    var mid := b0[lb := Buf(slot, true, 0, disk[slot])];
    KeysSameCached(mid, b1, home);
    if c == 0 {
      ReadUnused(b1, disk, home);
      InUseFull(b1);
    } else {
      var i :| 0 <= i < |b0| && b0[i].key == home;
      assert b1[i].key == home;
    }
  }

  /** Lines 76-80. */
  method CopyBack(bc: Cache, lb: nat, db: nat)
    requires bc.Valid() && lb < bc.n && db < bc.n && lb != db && bc.buf[lb].refcnt == 1
    modifies bc
    ensures bc.Valid()
    ensures var data := old(bc.buf)[lb].data;
            && bc.disk == old(bc.disk)[old(bc.buf)[db].key := data] && bc.history == old(bc.history) + [bc.disk]
            && var x := old(bc.buf)[db].(data := data, refcnt := Minus(Minus(old(bc.buf)[db].refcnt)));
               bc.buf == old(bc.buf)[lb := old(bc.buf)[lb].(refcnt := 0)][db := x]
  {
    bc.SetData(db, bc.buf[lb].data);
    bc.Bwrite(db);
    bc.Bunpin(db);
    bc.Brelse(lb);
    bc.Brelse(db);
  }

  /** The log block has no buffer in use, the home block only if it was installed before. */
  lemma RoundReady(l: Layout, buf: seq<Buf>, disk: Disk, done: seq<nat>, no: nat, slot: Key)
    requires Rebooting(l, buf, disk, done) && Apart(l, disk, done, no, slot) && HomeKey(l, no) in disk
    ensures Unused(buf, disk, slot) && UsedUp(buf, disk, HomeKey(l, no), multiset(done)[no])
    ensures Different(done + [no]) == Different(done) + if multiset(done)[no] == 0 then 1 else 0
  {
    DifferentMore(done, no);
    assert multiset(done)[no] == 0 <==> no !in done;
    forall i | 0 <= i < |buf| && (buf[i].key == slot || buf[i].key == HomeKey(l, no))
      ensures buf[i].refcnt == Leftover(l, done, buf[i].key) && (buf[i].valid ==> buf[i].data == disk[buf[i].key])
    {
      assert RebootAt(l, buf, disk, done, i);
    }
  }

  lemma RoundDone(l: Layout, buf: seq<Buf>, disk: Disk, done: seq<nat>, no: nat, slot: Key, lb: nat, db: nat)
    requires Rebooting(l, buf, disk, done) && Apart(l, disk, done, no, slot) && HomeKey(l, no) in disk && Few(done, no)
    requires Found(buf, disk, slot, HomeKey(l, no), multiset(done)[no], lb, db)
    ensures var data := disk[slot];
            Rebooting(l, buf[lb := Buf(slot, true, 0, data)]
                            [db := Buf(HomeKey(l, no), true, Wrapped(multiset(done)[no] + 1), data)],
                      disk[HomeKey(l, no) := data], done + [no])
  {
    if no in done {
      InstalledAgain(l, buf, disk, done, no, slot, lb, db);
    } else {
      InstalledAtBoot(l, buf, disk, done, no, slot, lb, db);
    }
  }

  /** What is demanded of a header to recover from: none of its blocks has the key of a fresh buffer,
      and none is listed so often that its count comes around again. */
  ghost predicate FewEach(l: Layout, hdr: seq<nat>) {
    forall x | x in hdr :: HomeKey(l, x) != NOKEY && multiset(hdr)[x] < UINT
  }

  lemma FewBefore(l: Layout, disk: Disk, hdr: seq<nat>, t: nat)
    requires FewEach(l, hdr) && t < |hdr| && GoodList(l, disk, hdr) && l.start > 0
    ensures Few(hdr[..t], hdr[t]) && Apart(l, disk, hdr[..t], hdr[t], Slot(l, t)) && HomeKey(l, hdr[t]) in disk
    ensures hdr[..t + 1] == hdr[..t] + [hdr[t]]
  {
    assert hdr[t] in hdr && InLog(l, Slot(l, t));
    CountUpTo(hdr, t, hdr[t]);
    forall x | x in hdr[..t]
      ensures multiset(hdr[..t])[x] < UINT
    {
      CountUpTo(hdr, t, x);
    }
  }

  lemma CountUpTo(hdr: seq<nat>, t: nat, x: nat)
    requires t < |hdr|
    ensures multiset(hdr[..t])[x] + (if hdr[t] == x then 1 else 0) <= multiset(hdr)[x]
  {
    assert hdr == hdr[..t] + [hdr[t]] + hdr[t + 1..];
  }

  /** A block of the log area read, or read and rewritten, by way of buffer `b`. */
  lemma LogAreaAtBoot(l: Layout, buf: seq<Buf>, disk: Disk, done: seq<nat>, key: Key, b: nat, data: Block)
    requires Rebooting(l, buf, disk, done) && InLog(l, key) && key != NOKEY && key in disk
    requires forall x | x in done :: !InLog(l, HomeKey(l, x)) && multiset(done)[x] < UINT
    requires b < |buf| && buf[b].refcnt == 0 && (buf[b].key == key || !Cached(buf, key))
    ensures Rebooting(l, buf[b := Buf(key, true, 0, data)], disk[key := data], done)
  {
    var now, disk' := buf[b := Buf(key, true, 0, data)], disk[key := data];
    KeysStayUnique(buf, now, b);
    InUseUpdate(buf, b, now[b]);
    assert !IsLogged(l, done, key);
    forall i | 0 <= i < |now|
      ensures RebootAt(l, now, disk', done, i)
    {
      assert RebootAt(l, buf, disk, done, i) && KeysApart(now, i, b);
    }
    forall x | x in done
      ensures Cached(now, HomeKey(l, x))
    {
      StillCached(l, buf, now, disk, done, x, b, b);
    }
  }

  lemma LogAreaUnused(l: Layout, buf: seq<Buf>, disk: Disk, done: seq<nat>, key: Key)
    requires Rebooting(l, buf, disk, done) && InLog(l, key) && key != NOKEY && key in disk
    requires forall x | x in done :: !InLog(l, HomeKey(l, x))
    ensures Unused(buf, disk, key)
  {
    assert !IsLogged(l, done, key);
    forall i | 0 <= i < |buf| && buf[i].key == key
      ensures buf[i].refcnt == 0 && (buf[i].valid ==> buf[i].data == disk[key])
    {
      assert RebootAt(l, buf, disk, done, i);
    }
  }

  /** `bread` of the header block. */
  method TakeHead(bc: Cache, l: Layout, ghost done: seq<nat>) returns (r: Option<nat>)
    requires bc.Valid() && l.start > 0 && l.size > 0 && Head(l) in bc.disk
    requires Rebooting(l, bc.buf, bc.disk, done)
    requires forall x | x in done :: !InLog(l, HomeKey(l, x)) && multiset(done)[x] < UINT
    modifies bc`buf
    ensures bc.Valid() && (r.Some? <==> Different(done) < bc.n)
    ensures r.Some? ==> r.value < bc.n && bc.buf == old(bc.buf)[r.value := Buf(Head(l), true, 1, bc.disk[Head(l)])]
    ensures r.Some? ==> forall data ::
      Rebooting(l, old(bc.buf)[r.value := Buf(Head(l), true, 0, data)], bc.disk[Head(l) := data], done)
  {
    assert InLog(l, Head(l));
    LogAreaUnused(l, bc.buf, bc.disk, done, Head(l));
    ReadUnused(bc.buf, bc.disk, Head(l));
    InUseFull(bc.buf);
    r := bc.Bread(Head(l));
    if r.Some? {
      forall data
        ensures Rebooting(l, old(bc.buf)[r.value := Buf(Head(l), true, 0, data)], bc.disk[Head(l) := data], done)
      {
        LogAreaAtBoot(l, old(bc.buf), bc.disk, done, Head(l), r.value, data);
      }
    }
  }

  /** `read_head`. */
  method LoadHead(bc: Cache, l: Layout, logsize: nat) returns (ok: bool, hdr: seq<nat>)
    requires bc.Valid() && l.start > 0 && GoodDisk(l, bc.disk) && Rebooting(l, bc.buf, bc.disk, [])
    requires |HeaderOf(l, bc.disk)| <= logsize
    modifies bc
    ensures bc.Valid() && (ok <==> 0 < bc.n) && bc.disk == old(bc.disk) && bc.history == old(bc.history)
    ensures ok ==> Rebooting(l, bc.buf, bc.disk, []) && hdr == HeaderOf(l, bc.disk)
  {
    hdr := [];
    ghost var b0, data := bc.buf, bc.disk[Head(l)];
    var r := TakeHead(bc, l, []);
    if r.None? { return false, []; }
    var b := r.value;
    hdr := ReadHead(bc.buf[b].data, logsize);
    bc.Brelse(b);
    assert bc.buf == b0[b := Buf(Head(l), true, 0, data)] && bc.disk[Head(l) := data] == bc.disk;
    ok := true;
  }

  /** `write_head` of the empty list. */
  method ClearHead(bc: Cache, l: Layout, ghost done: seq<nat>) returns (ok: bool)
    requires bc.Valid() && l.start > 0 && l.size > 0 && Head(l) in bc.disk && |bc.disk[Head(l)]| > 0
    requires Rebooting(l, bc.buf, bc.disk, done)
    requires forall x | x in done :: !InLog(l, HomeKey(l, x)) && multiset(done)[x] < UINT
    modifies bc
    ensures bc.Valid() && (ok <==> Different(done) < bc.n)
    ensures !ok ==> bc.history == old(bc.history)
    ensures ok ==> Rebooting(l, bc.buf, bc.disk, done)
    ensures ok ==> bc.disk == Cleared(l, old(bc.disk)) && bc.history == old(bc.history) + [bc.disk]
  {
    ghost var b0 := bc.buf;
    var r := TakeHead(bc, l, done);
    if r.None? { return false; }
    var b := r.value;
    var data := WithList(bc.buf[b].data, []);
    bc.SetData(b, data);
    bc.Bwrite(b);
    bc.Brelse(b);
    assert bc.buf == b0[b := Buf(Head(l), true, 0, data)];
    ok := true;
  }

  /** Lines 91-94: the loop stays inside the array of `logsize` block numbers. */
  method ReadHead(data: Block, logsize: nat) returns (hdr: seq<nat>)
    requires GoodHeader(data) && data[0] <= logsize
    ensures hdr == Listed(data)
  {
    hdr := [];
    while |hdr| < data[0]
      invariant |hdr| <= data[0] && forall i | 0 <= i < |hdr| :: hdr[i] == data[i + 1]
      decreases data[0] - |hdr|
    {
      assert |hdr| < logsize;
      hdr := hdr + [data[|hdr| + 1]];
    }
  }

  /** `recover_from_log`. Every disk state on the way is one of the recovery of the first; it
      completes exactly when the log has fewer different blocks than there are buffers. */
  method RecoverFromLog(bc: Cache, l: Layout, logsize: nat) returns (ok: bool)
    requires bc.Valid() && GoodDisk(l, bc.disk) && l.start > 0 && Rebooting(l, bc.buf, bc.disk, [])
    requires FewEach(l, HeaderOf(l, bc.disk)) && |HeaderOf(l, bc.disk)| <= logsize
    modifies bc
    ensures bc.Valid() && (ok <==> Different(HeaderOf(l, old(bc.disk))) < bc.n)
    ensures forall k | |old(bc.history)| <= k < |bc.history| :: Recovering(l, old(bc.disk), bc.history[k])
    ensures ok ==> bc.disk == Recovered(l, old(bc.disk)) && Rebooting(l, bc.buf, bc.disk, HeaderOf(l, old(bc.disk)))
  {
    var hdr: seq<nat>;
    ok, hdr := LoadHead(bc, l, logsize);
    if !ok { return; }
    ok := InstallAndClear(bc, l, hdr);
  }

  /** Lines 119-121. */
  method InstallAndClear(bc: Cache, l: Layout, hdr: seq<nat>) returns (ok: bool)
    requires Booting(bc, l, []) && GoodDisk(l, bc.disk) && l.start > 0 && bc.n > 0
    requires hdr == HeaderOf(l, bc.disk) && FewEach(l, hdr)
    modifies bc
    ensures true == bc.Valid() && (ok <==> Different(hdr) < bc.n)
    ensures forall k | |old(bc.history)| <= k < |bc.history| :: Recovering(l, old(bc.disk), bc.history[k])
    ensures ok ==> bc.disk == Recovered(l, old(bc.disk)) && Booting(bc, l, hdr)
  {
    ghost var d := bc.disk;
    assert InLog(l, Head(l));
    var t: nat;
    ghost var path, h := InstallPath(l, d, hdr), bc.history;
    assert h + path[1..1] == h && hdr[..0] == [];
    ok, t := RecoverAll(bc, l, hdr, path, d, h);
    PathRecovers(l, d, t);
    if !ok { return; }
    assert hdr[..t] == hdr;
    ok := ClearHead(bc, l, hdr);
  }

  lemma RoundOfPath(l: Layout, d: Disk, hdr: seq<nat>, t: nat, path: seq<Disk>, h: seq<Disk>)
    requires GoodList(l, d, hdr) && t < |hdr| && l.start > 0 && FewEach(l, hdr) && path == InstallPath(l, d, hdr)
    ensures Few(hdr[..t], hdr[t]) && Apart(l, path[t], hdr[..t], hdr[t], Slot(l, t))
    ensures hdr[..t + 1] == hdr[..t] + [hdr[t]] && Different(hdr[..t + 1]) <= Different(hdr)
    ensures HomeKey(l, hdr[t]) in path[t] && path[t + 1] == path[t][HomeKey(l, hdr[t]) := path[t][Slot(l, t)]]
    ensures h + path[1..t + 1] + [path[t + 1]] == h + path[1..t + 2]
  {
    InstallStep(l, d, hdr, t);
    SlotsKept(l, d, hdr, t);
    PathStep(h, path, t);
    FewBefore(l, path[t], hdr, t);
    DifferentUpTo(hdr, t + 1);
  }

  /** After `t` rounds of an installation along `path` that began with the history `h`. */
  ghost predicate Reached(bc: Cache, hdr: seq<nat>, t: nat, path: seq<Disk>, h: seq<Disk>)
    requires t <= |hdr| && |path| == |hdr| + 1
    reads bc
  {
    true == (bc.Valid() && bc.disk == path[t] && bc.history == h + path[1..t + 1])
  }

  /** And the cache is as `t` rounds leave it. */
  ghost predicate Rounds(bc: Cache, l: Layout, hdr: seq<nat>, t: nat, path: seq<Disk>, h: seq<Disk>)
    requires t <= |hdr| && |path| == |hdr| + 1
    reads bc
  {
    true == (Reached(bc, hdr, t, path, h) && Booting(bc, l, hdr[..t]) && Different(hdr[..t]) < bc.n)
  }

  ghost predicate IsInstall(l: Layout, d: Disk, hdr: seq<nat>, path: seq<Disk>) {
    true == (GoodList(l, d, hdr) && l.start > 0 && FewEach(l, hdr) && path == InstallPath(l, d, hdr))
  }

  method RecoverRound(bc: Cache, l: Layout, hdr: seq<nat>, t: nat, ghost path: seq<Disk>, ghost d: Disk,
                      ghost h: seq<Disk>)
    returns (ok: bool)
    requires IsInstall(l, d, hdr, path) && t < |hdr| && |path| == |hdr| + 1 && Rounds(bc, l, hdr, t, path, h)
    modifies bc
    ensures ok ==> Rounds(bc, l, hdr, t + 1, path, h)
    ensures !ok ==> Different(hdr) >= bc.n && Reached(bc, hdr, t, path, h)
  {
    RoundOfPath(l, d, hdr, t, path, h);
    ok := RecoverOne(bc, l, Slot(l, t), HomeKey(l, hdr[t]), hdr[..t], hdr[t]);
  }

  /** `install_trans` at boot; `t` is how many blocks went home. */
  method RecoverAll(bc: Cache, l: Layout, hdr: seq<nat>, ghost path: seq<Disk>, ghost d: Disk, ghost h: seq<Disk>)
    returns (ok: bool, t: nat)
    requires IsInstall(l, d, hdr, path) && |path| == |hdr| + 1 && Rounds(bc, l, hdr, 0, path, h)
    modifies bc
    ensures t <= |hdr| && Reached(bc, hdr, t, path, h)
    ensures if ok then t == |hdr| && Rounds(bc, l, hdr, t, path, h) else Different(hdr) >= bc.n
  {
    ok, t := true, 0;
    while t < |hdr|
      invariant t <= |hdr| && Rounds(bc, l, hdr, t, path, h)
    {
      ok := RecoverRound(bc, l, hdr, t, path, d, h);
      if !ok { return; }
      t := t + 1;
    }
    ok := true;
  }

  lemma PathRecovers(l: Layout, d: Disk, t: nat)
    requires GoodDisk(l, d) && t <= |HeaderOf(l, d)|
    ensures var path := InstallPath(l, d, HeaderOf(l, d))[1..t + 1];
            forall k | 0 <= k < |path| :: Recovering(l, d, path[k])
  {
    var hdr := HeaderOf(l, d);
    var path := InstallPath(l, d, hdr)[1..t + 1];
    forall k | 0 <= k < |path|
      ensures Recovering(l, d, path[k])
    {
      assert path[k] == Install(l, d, hdr, k + 1);
    }
  }

  // ---------------------------------------------------------------- crashes of a commit

  /** `recover_from_log` may be called on `d`, and completes with `n` buffers. */
  ghost predicate CanRecover(l: Layout, d: Disk, n: nat, logsize: nat) {
    && GoodDisk(l, d) && FewEach(l, HeaderOf(l, d)) && |HeaderOf(l, d)| <= logsize
    && Different(HeaderOf(l, d)) < n
  }

  /** Once the header of a commit is on the disk, fewer blocks are logged than there are buffers. So
      a crash at any write of the commit and at any writes of the recoveries after it leaves a disk that
      `recover_from_log` completes on with as many buffers, and what clients then see is the file
      system before the commit or the one they saw at the commit, `view`. */
  lemma CrashRecovers(l: Layout, d: Disk, lh: seq<nat>, view: Disk, history: seq<Disk>, from: nat, k: nat,
                      ds: seq<Disk>, n: nat, logsize: nat)
    requires forall i | 0 <= i < |lh| :: HomeKey(l, lh[i]) in view
    requires var vals := Values(l, lh, view);
             && CanCommit(l, d, lh, vals) && Traced(l, d, lh, vals, history, from)
             && Updated(l, Home(l, d), lh, vals, |lh|) == view
    requires PinsOk(l, lh, d) && |lh| < n && |lh| <= logsize
    requires from <= k < |history| && Boots(l, ds) && ds[0] == history[k]
    ensures CanRecover(l, ds[|ds| - 1], n, logsize)
    ensures var final := Home(l, Recovered(l, ds[|ds| - 1])); final == Home(l, d) || final == view
  {
    var vals := Values(l, lh, view);
    assert TracedAt(l, d, lh, vals, history, k);
    CommitIsAtomic(l, d, lh, vals, ds);
    CommittingHeader(l, d, lh, vals, ds[0]);
    BootsHeader(l, ds);
    DifferentBound(lh);
    FewOfEach(l, d, lh);
  }

  lemma FewOfEach(l: Layout, d: Disk, lh: seq<nat>)
    requires PinsOk(l, lh, d)
    ensures FewEach(l, lh)
  {
    forall x | x in lh
      ensures HomeKey(l, x) != NOKEY && multiset(lh)[x] < UINT
    {
      assert PinAt(l, d, x);
      OneOfEach(lh, x);
    }
  }

  lemma {:induction false} OneOfEach(lh: seq<nat>, x: nat)
    requires forall i, j | 0 <= i < j < |lh| :: lh[i] != lh[j]
    ensures multiset(lh)[x] <= 1
  {
    if lh != [] {
      var n := |lh| - 1;
      OneOfEach(lh[..n], x);
      assert lh == lh[..n] + [lh[n]];
      assert lh[n] !in lh[..n];
    }
  }

  // ---------------------------------------------------------------- held and counted as unused

  /** After recovery, `bread` leaves the buffer it returns at count 0 exactly for the blocks that the
      recovered header listed once. */
  lemma HeldAtZero(l: Layout, buf: seq<Buf>, disk: Disk, hdr: seq<nat>, key: Key, b: nat, now: seq<Buf>)
    requires Rebooting(l, buf, disk, hdr) && FewEach(l, hdr) && key in disk && ReadInto(buf, disk, key, b, now)
    ensures now[b].refcnt == 0 <==> key.dev == l.dev && multiset(hdr)[key.blockno] == 1
  {
    assert RebootAt(l, buf, disk, hdr, b);
    if IsLogged(l, hdr, key) {
      assert key == HomeKey(l, key.blockno);
    }
  }

  /** With the other buffers in use, the next block that is not cached takes that buffer over. */
  lemma TakenWhileHeld(l: Layout, buf: seq<Buf>, disk: Disk, hdr: seq<nat>, key: Key, b: nat, now: seq<Buf>,
                       other: Key, c: nat, after: seq<Buf>)
    requires Rebooting(l, buf, disk, hdr) && FewEach(l, hdr) && key in disk && ReadInto(buf, disk, key, b, now)
    requires key.dev == l.dev && multiset(hdr)[key.blockno] == 1
    requires forall i | 0 <= i < |now| && i != b :: now[i].refcnt > 0
    requires other in disk && !Cached(now, other)
    ensures !AllInUse(now) && (ReadInto(now, disk, other, c, after) ==> c == b && after[b].key == other)
  {
    HeldAtZero(l, buf, disk, hdr, key, b, now);
  }
}
