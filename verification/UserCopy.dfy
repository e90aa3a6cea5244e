/** `walkaddr`, `copyin`, `copyout` and `copyinstr` of kernel/vm.c: bytes between the kernel and user
    addresses, page by page, through the flat map from page number to entry that a page table stands for.

    Frames hold bytes here, and addresses are bytes. */
module UserCopy {
  import opened Options
  import opened PageTable

  type Bytes = seq<bv8>

  /** Frame number to the 4096 bytes of the frame. */
  type Frames = map<nat, Bytes>

  /** Where in physical memory a byte is. */
  datatype Place = Place(frame: nat, off: nat)

  /** Where user code finds each of its addresses, if it may use it. */
  type Translation = nat -> Option<Place>

  /** `walkaddr`: the frame of page `v`, whose entry is `pte`, if user code may use it, or 0. */
  function FrameFor(v: nat, pte: nat): nat {
    if v >= MAXPAGE || !IsValid(pte) || pte / 16 % 2 == 0 then 0 else FrameOf(pte)
  }

  /** User code reaches a page exactly if it is below MAXVA and its entry is valid and has PTE_U. */
  lemma UsableIff(v: nat, pte: nat)
    ensures FrameFor(v, pte) == if v < MAXPAGE && IsValid(pte) && FlagsOf(pte) / 16 % 2 == 1 then FrameOf(pte) else 0
  {
    assert pte == 1024 * (pte / 1024) + FlagsOf(pte);
    assert pte / 16 == 64 * (pte / 1024) + FlagsOf(pte) / 16;
  }

  function UserFrame(pt: nat -> nat, v: nat): nat {
    FrameFor(v, pt(v))
  }

  function Translated(pt: nat -> nat, a: nat): Option<Place> {
    var f := UserFrame(pt, a / 4096);
    if f == 0 then None else Some(Place(f, a % 4096))
  }

  /** The translation that a page table gives. */
  function Translate(pt: nat -> nat): Translation {
    (a: nat) => Translated(pt, a)
  }

  /** The frames that it leads to are there. */
  ghost predicate Backed(tr: Translation, mem: Frames) {
    forall a | tr(a).Some? :: tr(a).value.frame in mem && tr(a).value.off < |mem[tr(a).value.frame]|
  }

  /** What user code reads at `a`. */
  function ByteAt(tr: Translation, mem: Frames, a: nat): bv8
    requires Backed(tr, mem) && tr(a).Some?
  {
    mem[tr(a).value.frame][tr(a).value.off]
  }

  /** The first `n` bytes from `va` on can be reached. */
  ghost predicate AllMapped(tr: Translation, va: nat, n: nat) {
    forall a | va <= a < va + n :: tr(a).Some?
  }

  /** `n` is how far a copy of up to `len` bytes from `va` on gets. */
  ghost predicate Reach(tr: Translation, va: nat, len: nat, n: nat) {
    n <= len && AllMapped(tr, va, n) && (n < len ==> tr(va + n).None?)
  }

  // ---------------------------------------------------------------- pages

  /** Bytes from `va` on are next to each other from `off` on in frame `f`. */
  ghost predicate InFrame(tr: Translation, va: nat, n: nat, f: nat, off: nat) {
    forall a | va <= a < va + n :: tr(a) == Some(Place(f, off + (a - va)))
  }

  lemma Split(v: nat, off: nat)
    requires off < 4096
    ensures (v * 4096 + off) / 4096 == v && (v * 4096 + off) % 4096 == off
  {
  }

  /** A page is in one frame, or out of reach. */
  ghost predicate PageAt(pt: nat -> nat, tr: Translation, v: nat, off: nat, n: nat) {
    off < 4096 && off + n <= 4096 ==>
      if UserFrame(pt, v) == 0 then tr(v * 4096 + off).None? else InFrame(tr, v * 4096 + off, n, UserFrame(pt, v), off)
  }

  /** All that the copying loops need of a translation. */
  ghost predicate ByPages(pt: nat -> nat, tr: Translation) {
    forall v, off, n {:trigger PageAt(pt, tr, v, off, n)} :: PageAt(pt, tr, v, off, n)
  }

  lemma OnePage(pt: nat -> nat, v: nat, off: nat, n: nat)
    ensures PageAt(pt, Translate(pt), v, off, n)
  {
    if off < 4096 && off + n <= 4096 {
      Split(v, off);
      forall a | v * 4096 + off <= a < v * 4096 + off + n && UserFrame(pt, v) != 0
        ensures Translate(pt)(a) == Some(Place(UserFrame(pt, v), off + (a - (v * 4096 + off))))
      {
        Split(v, a - v * 4096);
      }
    }
  }

  lemma TranslatesByPages(pt: nat -> nat)
    ensures ByPages(pt, Translate(pt))
  {
    forall v, off, n
      ensures PageAt(pt, Translate(pt), v, off, n)
    {
      OnePage(pt, v, off, n);
    }
  }

  /** How many of `len` bytes from offset `off` of a page on are in that page. */
  function InPage(off: nat, len: nat): (n: nat)
    requires off < 4096
    ensures n <= len && off + n <= 4096 && (len > 0 ==> n > 0) && (n < len ==> off + n == 4096)
  {
    if 4096 - off > len then len else 4096 - off
  }

  // ---------------------------------------------------------------- copyin

  /** The bytes `out` are what user code has at `va`. */
  ghost predicate Holds(tr: Translation, mem: Frames, va: nat, out: Bytes)
    requires Backed(tr, mem)
  {
    AllMapped(tr, va, |out|) && forall a | va <= a < va + |out| :: out[a - va] == ByteAt(tr, mem, a)
  }

  lemma HoldsMore(tr: Translation, mem: Frames, va: nat, out: Bytes, n: nat, f: nat, off: nat)
    requires Backed(tr, mem) && Holds(tr, mem, va, out) && InFrame(tr, va + |out|, n, f, off)
    requires f in mem && off + n <= |mem[f]|
    ensures Holds(tr, mem, va, out + mem[f][off..off + n])
  {
  }

  lemma FrameThere(tr: Translation, mem: Frames, va: nat, n: nat, f: nat, off: nat)
    requires Backed(tr, mem) && InFrame(tr, va, n, f, off) && n > 0
    ensures f in mem && off + n <= |mem[f]| && AllMapped(tr, va, n)
  {
    assert tr(va + n - 1) == Some(Place(f, off + (va + n - 1 - va)));
  }

  // ---------------------------------------------------------------- copyout

  function Poke(tr: Translation, mem: Frames, a: nat, x: bv8): Frames {
    if tr(a).Some? && tr(a).value.frame in mem && tr(a).value.off < |mem[tr(a).value.frame]|
    then mem[tr(a).value.frame := mem[tr(a).value.frame][tr(a).value.off := x]]
    else mem
  }

  /** Memory when the first `n` bytes of `src` have been stored one after the other from `va` on. */
  function Stored(tr: Translation, mem: Frames, va: nat, src: Bytes, n: nat): Frames
    requires n <= |src|
  {
    if n == 0 then mem else Poke(tr, Stored(tr, mem, va, src, n - 1), va + n - 1, src[n - 1])
  }

  lemma {:induction false} StoredShape(tr: Translation, mem: Frames, va: nat, src: Bytes, n: nat)
    requires n <= |src|
    ensures var r := Stored(tr, mem, va, src, n);
            r.Keys == mem.Keys && forall f | f in mem :: |r[f]| == |mem[f]|
    ensures Backed(tr, mem) ==> Backed(tr, Stored(tr, mem, va, src, n))
  {
    if n > 0 { StoredShape(tr, mem, va, src, n - 1); }
  }

  /** A page with bytes replaced from `off` on. */
  function Replaced(page: Bytes, off: nat, src: Bytes): Bytes
    requires off + |src| <= |page|
  {
    page[..off] + src + page[off + |src|..]
  }

  lemma ReplacedMore(page: Bytes, off: nat, src: Bytes, n: nat, k: nat)
    requires n + k <= |src| && off + k <= |page| && k > 0
    ensures Replaced(page, off, src[n..n + k]) == Replaced(page, off, src[n..n + k - 1])[off + k - 1 := src[n + k - 1]]
  {
  }

  /** A copy that has got to byte `n` goes on through one page: one `memmove` stores those bytes. */
  lemma {:induction false} StoredOn(tr: Translation, mem: Frames, va: nat, src: Bytes, n: nat, k: nat, f: nat, off: nat)
    requires n + k <= |src| && InFrame(tr, va + n, k, f, off)
    requires var m := Stored(tr, mem, va, src, n); f in m && off + k <= |m[f]|
    ensures var m := Stored(tr, mem, va, src, n);
            Stored(tr, mem, va, src, n + k) == m[f := Replaced(m[f], off, src[n..n + k])]
    decreases k
  {
    var m := Stored(tr, mem, va, src, n);
    if k == 0 {
      assert Replaced(m[f], off, src[n..n]) == m[f] && m[f := m[f]] == m;
    } else {
      StoredOn(tr, mem, va, src, n, k - 1, f, off);
      ReplacedMore(m[f], off, src, n, k);
      var a := va + n + k - 1;
      assert tr(a) == Some(Place(f, off + (a - (va + n))));
    }
  }

  lemma MappedMore(tr: Translation, va: nat, n: nat, k: nat)
    requires AllMapped(tr, va, n) && AllMapped(tr, va + n, k)
    ensures AllMapped(tr, va, n + k)
  {
  }

  lemma WriteOn(tr: Translation, mem: Frames, va: nat, src: Bytes, n: nat, k: nat, f: nat, off: nat)
    requires 0 < k && n + k <= |src| && Backed(tr, mem) && AllMapped(tr, va, n) && InFrame(tr, va + n, k, f, off)
    ensures var m := Stored(tr, mem, va, src, n);
            && f in m && off + k <= |m[f]| && AllMapped(tr, va, n + k)
            && Stored(tr, mem, va, src, n + k) == m[f := Replaced(m[f], off, src[n..n + k])]
  {
    StoredShape(tr, mem, va, src, n);
    FrameThere(tr, Stored(tr, mem, va, src, n), va + n, k, f, off);
    MappedMore(tr, va, n, k);
    StoredOn(tr, mem, va, src, n, k, f, off);
  }

  ghost predicate WrittenTo(tr: Translation, mem0: Frames, va: nat, src: Bytes, n: nat, mem: Frames) {
    true == (n <= |src| && AllMapped(tr, va, n) && mem == Stored(tr, mem0, va, src, n))
  }

  /** No two user addresses share a byte. */
  ghost predicate Injective(tr: Translation) {
    forall a, b | tr(a) == tr(b) && tr(a).Some? :: a == b
  }

  /** In user addresses: the bytes stored are there, and every other byte is as it was. */
  lemma {:induction false} StoredReads(tr: Translation, mem: Frames, va: nat, src: Bytes, n: nat, a: nat)
    requires n <= |src| && Backed(tr, mem) && AllMapped(tr, va, n) && Injective(tr) && tr(a).Some?
    ensures Backed(tr, Stored(tr, mem, va, src, n))
    ensures ByteAt(tr, Stored(tr, mem, va, src, n), a) == if va <= a < va + n then src[a - va] else ByteAt(tr, mem, a)
  {
    StoredShape(tr, mem, va, src, n);
    if n > 0 {
      StoredReads(tr, mem, va, src, n - 1, a);
      StoredShape(tr, mem, va, src, n - 1);
      assert tr(va + n - 1).Some? && (tr(a) == tr(va + n - 1) ==> a == va + n - 1);
    }
  }

  /** What is copied out is what is copied in again. */
  lemma OutThenIn(tr: Translation, mem: Frames, va: nat, src: Bytes, dst: Bytes)
    requires Backed(tr, mem) && AllMapped(tr, va, |src|) && Injective(tr) && |dst| == |src|
    requires Backed(tr, Stored(tr, mem, va, src, |src|)) && Holds(tr, Stored(tr, mem, va, src, |src|), va, dst)
    ensures dst == src
  {
    forall i | 0 <= i < |src|
      ensures dst[i] == src[i]
    {
      HoldsAgree(tr, Stored(tr, mem, va, src, |src|), va, dst, i);
      StoredReads(tr, mem, va, src, |src|, va + i);
    }
  }

  /** A frame that no address in the range leads to is never touched. */
  lemma {:induction false} StoredElsewhere(tr: Translation, mem: Frames, va: nat, src: Bytes, n: nat, f: nat)
    requires n <= |src| && f in mem && forall a | va <= a < va + n && tr(a).Some? :: tr(a).value.frame != f
    ensures f in Stored(tr, mem, va, src, n) && Stored(tr, mem, va, src, n)[f] == mem[f]
  {
    if n > 0 { StoredElsewhere(tr, mem, va, src, n - 1, f); }
  }

  /** Pages that have a frame each share no byte. */
  lemma PagesApart(pt: nat -> nat)
    requires forall v, w | UserFrame(pt, v) == UserFrame(pt, w) != 0 :: v == w
    ensures Injective(Translate(pt))
  {
    var tr := Translate(pt);
    forall a, b | tr(a) == tr(b) && tr(a).Some?
      ensures a == b
    {
      assert Translated(pt, a) == tr(a) && Translated(pt, b) == tr(b);
      assert a == a / 4096 * 4096 + a % 4096 && b == b / 4096 * 4096 + b % 4096;
    }
  }

  // ---------------------------------------------------------------- copyinstr

  predicate NoNul(s: Bytes) {
    forall i | 0 <= i < |s| :: s[i] != 0
  }

  /** A string with its NUL if `ok`, and otherwise a part of one. */
  predicate StringSoFar(ok: bool, dst: Bytes) {
    if ok then dst != [] && dst[|dst| - 1] == 0 && NoNul(dst[..|dst| - 1]) else NoNul(dst)
  }

  lemma HoldsOne(tr: Translation, mem: Frames, va: nat, dst: Bytes, from: nat, n: nat, f: nat, off: nat, at: nat)
    requires Backed(tr, mem) && Holds(tr, mem, va, dst) && InFrame(tr, from, n, f, off) && f in mem
    requires off <= at < off + n <= |mem[f]| && va + |dst| == from + (at - off)
    ensures Holds(tr, mem, va, dst + [mem[f][at]])
  {
  }

  lemma HoldsAgree(tr: Translation, mem: Frames, va: nat, x: Bytes, i: nat)
    requires Backed(tr, mem) && Holds(tr, mem, va, x) && i < |x|
    ensures tr(va + i).Some? && x[i] == ByteAt(tr, mem, va + i)
  {
    var a := va + i;
    assert tr(a).Some? && x[a - va] == ByteAt(tr, mem, a);
  }

  lemma StringEnds(tr: Translation, mem: Frames, va: nat, max: nat, ok: bool, dst: Bytes, s: Bytes)
    requires Backed(tr, mem) && Holds(tr, mem, va, dst) && |dst| <= max && StringSoFar(ok, dst)
    requires !ok ==> Reach(tr, va, max, |dst|)
    requires Holds(tr, mem, va, s) && NoNul(s) && |s| < max && tr(va + |s|).Some? && ByteAt(tr, mem, va + |s|) == 0
    ensures ok && |dst| == |s| + 1
  {
    var k, n := |s|, |dst|;
    assert n < k ==> tr(va + n).Some? && s[n] == ByteAt(tr, mem, va + n) by {
      if n < k { HoldsAgree(tr, mem, va, s, n); }
    }
    assert k < n ==> dst[k] == 0 by {
      if k < n { HoldsAgree(tr, mem, va, dst, k); }
    }
    assert ok;
    HoldsAgree(tr, mem, va, dst, n - 1);
    assert !(n - 1 < k) by {
      if n - 1 < k { HoldsAgree(tr, mem, va, s, n - 1); }
    }
  }

  /** A string at `va` is copied exactly if it can be reached, with its NUL, and fits. */
  lemma StringIff(tr: Translation, mem: Frames, va: nat, max: nat, ok: bool, dst: Bytes, s: Bytes)
    requires Backed(tr, mem) && Holds(tr, mem, va, dst) && |dst| <= max && StringSoFar(ok, dst)
    requires !ok ==> Reach(tr, va, max, |dst|)
    requires Holds(tr, mem, va, s) && NoNul(s)
    ensures (ok && dst == s + [0]) <==> |s| < max && tr(va + |s|).Some? && ByteAt(tr, mem, va + |s|) == 0
  {
    var k := |s|;
    if ok && dst == s + [0] { HoldsAgree(tr, mem, va, dst, k); }
    if k < max && tr(va + k).Some? && ByteAt(tr, mem, va + k) == 0 {
      if k < |dst| { HoldsAgree(tr, mem, va, dst, k); }
      StringEnds(tr, mem, va, max, ok, dst, s);
      forall i | 0 <= i < k
        ensures dst[i] == s[i]
      {
        HoldsAgree(tr, mem, va, dst, i);
        HoldsAgree(tr, mem, va, s, i);
      }
    }
  }

  // ---------------------------------------------------------------- the kernel's side

  /** Physical memory, as the kernel sees it. */
  class Physical {
    var mem: Frames

    constructor (m: Frames)
      ensures mem == m
    {
      mem := m;
    }

    /** `copyin`: the bytes of user memory from `srcva` on, all that were asked for exactly if every one
        of them can be reached, and otherwise those before the first that can not. */
    method CopyIn(pt: nat -> nat, srcva: nat, len: nat) returns (ok: bool, dst: Bytes)
      requires Backed(Translate(pt), mem)
      ensures Holds(Translate(pt), mem, srcva, dst) && Reach(Translate(pt), srcva, len, |dst|) && (ok <==> |dst| == len)
    {
      TranslatesByPages(pt);
      ok, dst := ReadPages(pt, Translate(pt), srcva, len);
    }

    method ReadPages(pt: nat -> nat, ghost tr: Translation, srcva: nat, len: nat)
      returns (ok: bool, dst: Bytes)
      requires ByPages(pt, tr) && Backed(tr, mem)
      ensures Holds(tr, mem, srcva, dst) && Reach(tr, srcva, len, |dst|) && (ok <==> |dst| == len)
    {
      dst := [];
      var v, off, left := srcva / 4096, srcva % 4096, len;
      while left > 0
        invariant |dst| + left == len && Holds(tr, mem, srcva, dst)
        invariant 0 <= off < 4096 && (left > 0 ==> v * 4096 + off == srcva + |dst|)
        decreases left
      {
        var n := InPage(off, left);
        assert PageAt(pt, tr, v, off, n);
        var f := UserFrame(pt, v);
        if f == 0 { return false, dst; }
        FrameThere(tr, mem, v * 4096 + off, n, f, off);
        HoldsMore(tr, mem, srcva, dst, n, f, off);
        dst := dst + mem[f][off..off + n];
        left := left - n;
        v, off := v + 1, 0;
      }
      ok := true;
    }

    /** `copyout`: the first `n` bytes are stored; all of them exactly if every address can be reached,
        and otherwise those before the first that can not. */
    method CopyOut(pt: nat -> nat, dstva: nat, src: Bytes) returns (ok: bool, ghost n: nat)
      requires Backed(Translate(pt), mem)
      modifies this
      ensures Reach(Translate(pt), dstva, |src|, n) && (ok <==> n == |src|)
      ensures mem == Stored(Translate(pt), old(mem), dstva, src, n)
    {
      TranslatesByPages(pt);
      ok, n := WritePages(pt, Translate(pt), dstva, src);
    }

    /** Line 378: one `memmove`. */
    method WriteFrame(ghost tr: Translation, ghost mem0: Frames, ghost dstva: nat, src: Bytes, n: nat, k: nat, f: nat,
                      off: nat)
      requires 0 < k && n + k <= |src| && Backed(tr, mem0) && InFrame(tr, dstva + n, k, f, off)
      requires WrittenTo(tr, mem0, dstva, src, n, mem)
      modifies this
      ensures WrittenTo(tr, mem0, dstva, src, n + k, mem)
    {
      WriteOn(tr, mem0, dstva, src, n, k, f, off);
      mem := mem[f := mem[f][..off] + src[n..n + k] + mem[f][off + k..]];
    }

    /** Lines 371-382: one page; 0 if it is out of reach. */
    method WritePage(pt: nat -> nat, ghost tr: Translation, ghost mem0: Frames, ghost dstva: nat, src: Bytes,
                     v: nat, off: nat, at: nat)
      returns (k: nat)
      requires ByPages(pt, tr) && Backed(tr, mem0) && off < 4096 && at < |src| && v * 4096 + off == dstva + at
      requires WrittenTo(tr, mem0, dstva, src, at, mem)
      modifies this
      ensures at + k <= |src| && WrittenTo(tr, mem0, dstva, src, at + k, mem)
      ensures if k == 0 then tr(dstva + at).None? else at + k < |src| ==> off + k == 4096
    {
      k := InPage(off, |src| - at);
      assert PageAt(pt, tr, v, off, k);
      var f := UserFrame(pt, v);
      if f == 0 { return 0; }
      WriteFrame(tr, mem0, dstva, src, at, k, f, off);
    }

    method WritePages(pt: nat -> nat, ghost tr: Translation, dstva: nat, src: Bytes) returns (ok: bool, ghost n: nat)
      requires ByPages(pt, tr) && Backed(tr, mem)
      modifies this
      ensures Reach(tr, dstva, |src|, n) && (ok <==> n == |src|) && mem == Stored(tr, old(mem), dstva, src, n)
    {
      var v, off, at := dstva / 4096, dstva % 4096, 0;
      while at < |src|
        invariant at <= |src| && WrittenTo(tr, old(mem), dstva, src, at, mem)
        invariant 0 <= off < 4096 && (at < |src| ==> v * 4096 + off == dstva + at)
      {
        var k := WritePage(pt, tr, old(mem), dstva, src, v, off, at);
        if k == 0 { return false, at; }
        at := at + k;
        v, off := v + 1, 0;
      }
      ok, n := true, at;
    }

    /** `copyinstr`: the string at `srcva` with its NUL; or, if there is none in the first `max` bytes that
        can be reached, as much as can be reached. */
    method CopyInStr(pt: nat -> nat, srcva: nat, max: nat) returns (ok: bool, dst: Bytes)
      requires Backed(Translate(pt), mem)
      ensures Holds(Translate(pt), mem, srcva, dst) && |dst| <= max && StringSoFar(ok, dst)
      ensures !ok ==> Reach(Translate(pt), srcva, max, |dst|)
    {
      TranslatesByPages(pt);
      ok, dst := StrPages(pt, Translate(pt), srcva, max);
    }

    method StrPages(pt: nat -> nat, ghost tr: Translation, srcva: nat, max: nat)
      returns (ok: bool, dst: Bytes)
      requires ByPages(pt, tr) && Backed(tr, mem)
      ensures Holds(tr, mem, srcva, dst) && |dst| <= max && StringSoFar(ok, dst)
      ensures !ok ==> Reach(tr, srcva, max, |dst|)
    {
      dst, ok := [], false;
      var v, off := srcva / 4096, srcva % 4096;
      while !ok && |dst| < max
        invariant |dst| <= max && Holds(tr, mem, srcva, dst) && StringSoFar(ok, dst)
        invariant 0 <= off < 4096 && (!ok && |dst| < max ==> v * 4096 + off == srcva + |dst|)
        decreases max - |dst|, !ok
      {
        var n := InPage(off, max - |dst|);
        assert PageAt(pt, tr, v, off, n);
        var f := UserFrame(pt, v);
        if f == 0 { return; }
        FrameThere(tr, mem, v * 4096 + off, n, f, off);
        ok, dst := StrInFrame(tr, srcva, n, f, off, dst);
        v, off := v + 1, 0;
      }
    }

    /** Lines 434-446: the part of the string that is in one page. */
    method StrInFrame(ghost tr: Translation, ghost srcva: nat, n0: nat, f: nat, off0: nat, dst0: Bytes)
      returns (ok: bool, dst: Bytes)
      requires Backed(tr, mem) && Holds(tr, mem, srcva, dst0) && NoNul(dst0) && n0 > 0
      requires f in mem && off0 + n0 <= |mem[f]| && InFrame(tr, srcva + |dst0|, n0, f, off0)
      ensures |dst0| < |dst| <= |dst0| + n0 && (!ok ==> |dst| == |dst0| + n0)
      ensures Holds(tr, mem, srcva, dst) && StringSoFar(ok, dst)
    {
      dst, ok := dst0, false;
      var n, off := n0, off0;
      while n > 0
        invariant n <= n0 && |dst| + n == |dst0| + n0 && off + n == off0 + n0
        invariant Holds(tr, mem, srcva, dst) && NoNul(dst)
      {
        HoldsOne(tr, mem, srcva, dst, srcva + |dst0|, n0, f, off0, off);
        ghost var was := dst;
        if mem[f][off] == 0 {
          dst := dst + [0];
          assert dst[..|dst| - 1] == was;
          return true, dst;
        }
        dst := dst + [mem[f][off]];
        n, off := n - 1, off + 1;
      }
    }
  }
}
