/** The ring buffer of kernel/pipe.c with its wrapping 32-bit counters.

    `pipewrite` and `piperead` give up the pipe's lock only in `sleep`, so each method below runs
    one of them from where it holds the lock to where it returns or goes to sleep. Any run of a
    pipe is a sequence of such calls, and every call keeps `Valid`. */
module Pipe {
  import opened Options

  const PIPESIZE: nat := 512
  const UINT: nat := 0x1_0000_0000

  datatype Outcome = Returned(value: nat) | Failed | Asleep

  // ---------------------------------------------------------------- the counters

  /** The wrapping counters tell a full ring and an empty one from all others, and index the
      ring as unbounded counters would. */
  lemma CountersFaithful(written: nat, read: nat)
    requires read <= written <= read + PIPESIZE
    ensures written % UINT == (read % UINT + PIPESIZE) % UINT <==> written == read + PIPESIZE
    ensures read % UINT == written % UINT <==> written == read
    ensures written % UINT % PIPESIZE == written % PIPESIZE
    ensures (written % UINT + 1) % UINT == (written + 1) % UINT
  {
    var d := written - read;
    if read % UINT + d < UINT {
      assert written % UINT == read % UINT + d;
    } else {
      assert written % UINT == read % UINT + d - UINT;
    }
    assert written == UINT * (written / UINT) + written % UINT;
    assert UINT == PIPESIZE * 0x80_0000;
  }

  lemma SlotsDistinct(i: nat, j: nat)
    requires i < j < i + PIPESIZE
    ensures i % PIPESIZE != j % PIPESIZE
  {
  }

  class Pipe {
    const data: array<char>
    var nread: nat
    var nwrite: nat
    var readopen: bool
    var writeopen: bool
    var readers: set<nat>         // the processes asleep on &nread
    var writers: set<nat>         // and those asleep on &nwrite
    ghost var stored: seq<char>
    ghost var taken: seq<char>

    /** What was taken out is a prefix of what was put in, at most a ring behind it, and the ring
        holds exactly the difference. */
    ghost predicate Valid()
      reads this, data
    {
      && data.Length == PIPESIZE
      && taken <= stored && |stored| - |taken| <= PIPESIZE
      && nread == |taken| % UINT && nwrite == |stored| % UINT
      && forall j | |taken| <= j < |stored| :: data[j % PIPESIZE] == stored[j]
    }

    /** A reader sleeps only while there is nothing to read and a writer may come. */
    ghost predicate ReadersOk()
      reads this
    {
      readers != {} ==> stored == taken && writeopen
    }

    /** A writer sleeps only while there is no room and a reader may come. */
    ghost predicate WritersOk()
      reads this
    {
      writers != {} ==> |stored| == |taken| + PIPESIZE && readopen
    }

    constructor ()
      ensures Valid() && fresh(data) && stored == [] && taken == [] && readopen && writeopen
      ensures readers == {} && writers == {}
    {
      data := new char[PIPESIZE];
      nread, nwrite, readopen, writeopen, readers, writers := 0, 0, true, true, {}, {};
      stored, taken := [], [];
    }

    /** `pipewrite` of process `p` from byte `start` of `src` on; a byte is `None` where `copyin` fails.
        It leaves readers asleep beside a full ring exactly when they were asleep, it has more bytes than
        the ring, and it may not wait: line 88 returns without the wakeup. */
    method Write(p: nat, src: seq<Option<char>>, start: nat, killed: bool) returns (next: nat, r: Outcome)
      requires Valid() && start <= |src| && p !in readers && p !in writers
      modifies this`nwrite, this`stored, this`readers, this`writers, data
      ensures Valid()
      ensures readers == if r == Failed then old(readers) else {}
      ensures writers == if r == Asleep then old(writers) + {p} else old(writers)
      ensures old(WritersOk()) ==> WritersOk()
      ensures old(ReadersOk()) ==>
                (ReadersOk() <==>
                 !(old(readers) != {} && |src| - start > PIPESIZE && (!readopen || killed) &&
                   forall i | start <= i < start + PIPESIZE :: src[i].Some?))
      ensures start <= next <= |src| && (forall i | start <= i < next :: src[i].Some?)
      ensures |stored| == |old(stored)| + (next - start) && old(stored) <= stored
      ensures forall i | start <= i < next :: stored[|old(stored)| + i - start] == src[i].value
      ensures r.Returned? <==> next == |src| || (|stored| - |taken| < PIPESIZE && src[next].None?)
      ensures r.Returned? ==> r.value == |src|
      ensures r == Failed <==> next < |src| && |stored| - |taken| == PIPESIZE && (!readopen || killed)
      ensures r == Asleep <==> next < |src| && |stored| - |taken| == PIPESIZE && readopen && !killed
    {
      next := start;
      while next < |src|
        invariant readers == old(readers) && writers == old(writers)
        invariant Valid() && start <= next <= |src| && forall i | start <= i < next :: src[i].Some?
        invariant |stored| == |old(stored)| + (next - start) && old(stored) <= stored
        invariant forall i | start <= i < next :: stored[|old(stored)| + i - start] == src[i].value
      {
        CountersFaithful(|stored|, |taken|);
        if nwrite == (nread + PIPESIZE) % UINT {
          if !readopen || killed { return next, Failed; }
          readers, writers := {}, writers + {p};
          return next, Asleep;
        }
        if src[next].None? { break; }
        forall j | |taken| <= j < |stored|
          ensures j % PIPESIZE != |stored| % PIPESIZE
        {
          SlotsDistinct(j, |stored|);
        }
        data[nwrite % PIPESIZE] := src[next].value;
        nwrite := (nwrite + 1) % UINT;
        stored := stored + [src[next].value];
        next := next + 1;
      }
      CountersFaithful(|stored|, |taken|);
      readers := {};
      r := Returned(|src|);
    }

    /** `piperead` of up to `n` bytes by process `p`; the user buffer accepts the first `room` of them. */
    method Read(p: nat, n: nat, room: nat, killed: bool) returns (out: seq<char>, r: Outcome)
      requires Valid() && p !in readers && p !in writers
      modifies this`nread, this`taken, this`readers, this`writers
      ensures Valid() && stored == old(stored)
      ensures readers == if r == Asleep then old(readers) + {p} else old(readers)
      ensures writers == if r.Returned? then {} else old(writers)
      ensures (old(ReadersOk()) ==> ReadersOk()) && (old(WritersOk()) ==> WritersOk())
      ensures r == Failed <==> old(taken) == stored && writeopen && killed
      ensures r == Asleep <==> old(taken) == stored && writeopen && !killed
      ensures !r.Returned? ==> out == [] && taken == old(taken)
      ensures r.Returned? ==>
                var want := if n < |stored| - |old(taken)| then n else |stored| - |old(taken)|;
                && r.value == |out| == (if want < room then want else room)
                && |taken| == |old(taken)| + |out| + (if room < want then 1 else 0)
                && old(taken) + out == stored[..|old(taken)| + |out|]
    {
      out := [];
      CountersFaithful(|stored|, |taken|);
      if nread == nwrite && writeopen {
        if killed { return out, Failed; }
        readers := readers + {p};
        return out, Asleep;
      }
      var i := 0;
      while i < n
        invariant readers == old(readers) && writers == old(writers)
        invariant Valid() && i <= n && i <= room && |out| == i && |taken| == |old(taken)| + i
        invariant taken == old(taken) + out
      {
        CountersFaithful(|stored|, |taken|);
        if nread == nwrite { break; }
        CountersFaithful(|taken|, |taken|);
        var ch := data[nread % PIPESIZE];
        nread := (nread + 1) % UINT;
        taken := taken + [stored[|taken|]];
        if i >= room { break; }
        out := out + [ch];
        i := i + 1;
      }
      writers := {};
      r := Returned(i);
    }

    /** `pipeclose`: `gone` tells that the page goes back to the allocator. */
    method Close(writable: bool) returns (gone: bool)
      requires Valid()
      modifies this`readopen, this`writeopen, this`readers, this`writers
      ensures Valid() && (old(ReadersOk()) ==> ReadersOk()) && (old(WritersOk()) ==> WritersOk())
      ensures writable ==> !writeopen && readopen == old(readopen) && readers == {} && writers == old(writers)
      ensures !writable ==> !readopen && writeopen == old(writeopen) && writers == {} && readers == old(readers)
      ensures gone <==> !readopen && !writeopen
    {
      if writable {
        writeopen := false;
        readers := {};
      } else {
        readopen := false;
        writers := {};
      }
      gone := !readopen && !writeopen;
    }
  }

  /** A reader that is left asleep beside a full ring: process 1 waits for data, and process 2, which
      has been killed, writes more than the ring holds. */
  method ReaderLeftAsleep(src: seq<Option<char>>) returns (pipe: Pipe)
    requires |src| > PIPESIZE && forall i | 0 <= i < |src| :: src[i].Some?
    ensures fresh(pipe) && pipe.Valid() && pipe.writeopen && pipe.readers == {1}
    ensures |pipe.stored| == PIPESIZE && pipe.taken == [] && pipe.writers == {}
  {
    pipe := new Pipe();
    var out, r := pipe.Read(1, PIPESIZE, PIPESIZE, false);
    var next;
    next, r := pipe.Write(2, src, 0, true);
    assert next == PIPESIZE;
  }
}
