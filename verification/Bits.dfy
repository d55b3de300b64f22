/** Single bits of a byte, and arrays of bits packed eight to a byte. */
module Bits {

  function Mask(k: nat): bv8
    requires k < 8
  {
    if k == 0 then 1 else if k == 1 then 2 else if k == 2 then 4 else if k == 3 then 8
    else if k == 4 then 16 else if k == 5 then 32 else if k == 6 then 64 else 128
  }

  predicate BitOf(x: bv8, k: nat)
    requires k < 8
  {
    x & Mask(k) != 0
  }

  lemma BitAfterSet(x: bv8, j: nat, k: nat)
    requires j < 8 && k < 8
    ensures BitOf(x | Mask(j), k) <==> j == k || BitOf(x, k)
  {
  }

  lemma BitAfterClear(x: bv8, j: nat, k: nat)
    requires j < 8 && k < 8
    ensures BitOf(x & !Mask(j), k) <==> j != k && BitOf(x, k)
  {
  }

  lemma BitsAfter(x: bv8, j: nat)
    requires j < 8
    ensures forall k | 0 <= k < 8 :: BitOf(x | Mask(j), k) <==> k == j || BitOf(x, k)
    ensures forall k | 0 <= k < 8 :: BitOf(x & !Mask(j), k) <==> k != j && BitOf(x, k)
  {
    hide BitOf, Mask;
    forall k | 0 <= k < 8
      ensures BitOf(x | Mask(j), k) <==> k == j || BitOf(x, k)
      ensures BitOf(x & !Mask(j), k) <==> k != j && BitOf(x, k)
    {
      BitAfterSet(x, j, k);
      BitAfterClear(x, j, k);
    }
  }

  function SetBit(x: bv8, j: nat): (r: bv8)
    requires j < 8
    ensures forall k | 0 <= k < 8 :: BitOf(r, k) <==> k == j || BitOf(x, k)
  {
    BitsAfter(x, j);
    x | Mask(j)
  }

  function ClearBit(x: bv8, j: nat): (r: bv8)
    requires j < 8
    ensures forall k | 0 <= k < 8 :: BitOf(r, k) <==> k != j && BitOf(x, k)
  {
    BitsAfter(x, j);
    x & !Mask(j)
  }

  lemma AndCommutes(x: bv8, y: bv8)
    ensures x & y == y & x
  {
  }

  lemma FullByte(k: nat)
    requires k < 8
    ensures BitOf(0xFF, k)
  {
  }

  lemma EmptyByte(k: nat)
    requires k < 8
    ensures !BitOf(0, k)
  {
  }

  lemma SamePosition(i: nat, j: nat)
    ensures i == j <==> i / 8 == j / 8 && i % 8 == j % 8
  {
  }
}
