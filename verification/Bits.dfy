/** The packed bit arrays of kernel/buddy.c: one bit per block, eight blocks per char. */
module Bits {

  function Mask(j: nat): bv8
    requires j < 8
  {
    1 << j
  }

  predicate ByteBit(b: bv8, j: nat)
    requires j < 8
  {
    b & Mask(j) == Mask(j)
  }

  predicate IsSet(a: seq<bv8>, i: nat)
    requires i / 8 < |a|
  {
    ByteBit(a[i / 8], i % 8)
  }

  function Set(a: seq<bv8>, i: nat): (r: seq<bv8>)
    requires i / 8 < |a|
    ensures |r| == |a|
    ensures forall j: nat | j / 8 < |a| :: IsSet(r, j) <==> i == j || IsSet(a, j)
  {
    var r := a[i / 8 := a[i / 8] | Mask(i % 8)];
    SetEach(a, i, r);
    r
  }

  function Clear(a: seq<bv8>, i: nat): (r: seq<bv8>)
    requires i / 8 < |a|
    ensures |r| == |a|
    ensures forall j: nat | j / 8 < |a| :: IsSet(r, j) <==> i != j && IsSet(a, j)
  {
    var r := a[i / 8 := a[i / 8] & !Mask(i % 8)];
    ClearEach(a, i, r);
    r
  }

  lemma SetEach(a: seq<bv8>, i: nat, r: seq<bv8>)
    requires i / 8 < |a| && r == a[i / 8 := a[i / 8] | Mask(i % 8)]
    ensures forall j: nat | j / 8 < |a| :: IsSet(r, j) <==> i == j || IsSet(a, j)
  {
    forall j: nat | j / 8 < |a|
      ensures IsSet(r, j) <==> i == j || IsSet(a, j)
    {
      if j / 8 == i / 8 { SetMask(a[i / 8], i % 8, j % 8); }
    }
  }

  lemma ClearEach(a: seq<bv8>, i: nat, r: seq<bv8>)
    requires i / 8 < |a| && r == a[i / 8 := a[i / 8] & !Mask(i % 8)]
    ensures forall j: nat | j / 8 < |a| :: IsSet(r, j) <==> i != j && IsSet(a, j)
  {
    forall j: nat | j / 8 < |a|
      ensures IsSet(r, j) <==> i != j && IsSet(a, j)
    {
      if j / 8 == i / 8 { ClearMask(a[i / 8], i % 8, j % 8); }
    }
  }

  lemma SetMask(b: bv8, i: nat, j: nat)
    requires i < 8 && j < 8
    ensures ByteBit(b | Mask(i), j) <==> i == j || ByteBit(b, j)
  {
  }

  lemma ClearMask(b: bv8, i: nat, j: nat)
    requires i < 8 && j < 8
    ensures ByteBit(b & !Mask(i), j) <==> i != j && ByteBit(b, j)
  {
  }

  lemma ZeroByte(j: nat)
    requires j < 8
    ensures !ByteBit(0, j)
  {
  }
}
