/** The value of a byte. */
module Bytes {

  function FromNat(x: nat): bv8
    requires x < 256
  {
    x as bv8
  }

  function ToNat(b: bv8): nat {
    b as nat
  }

  lemma RoundTrip(x: nat)
    requires x < 256
    ensures ToNat(FromNat(x)) == x
  {
    assert x % 256 == x;
  }
}
