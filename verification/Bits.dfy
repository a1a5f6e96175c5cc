/** Bits of a free-map block: bit i is bit i%8 of byte i/8. */
module Bits {
  function Mask(k: nat): bv8
    requires k < 8
  {
    1 << k
  }

  predicate Bit(bytes: seq<bv8>, i: nat)
    requires i / 8 < |bytes|
  {
    bytes[i / 8] & Mask(i % 8) != 0
  }

  function SetBit(bytes: seq<bv8>, i: nat): (r: seq<bv8>)
    requires i / 8 < |bytes|
    ensures |r| == |bytes|
  {
    bytes[i / 8 := bytes[i / 8] | Mask(i % 8)]
  }

  function ClearBit(bytes: seq<bv8>, i: nat): (r: seq<bv8>)
    requires i / 8 < |bytes|
    ensures |r| == |bytes|
  {
    bytes[i / 8 := bytes[i / 8] & !Mask(i % 8)]
  }

  lemma MaskOne(k: nat)
    requires k < 8
    ensures Mask(k) == if k == 0 then 1 else if k == 1 then 2 else if k == 2 then 4 else if k == 3 then 8
                       else if k == 4 then 16 else if k == 5 then 32 else if k == 6 then 64 else 128
  {
  }

  lemma MaskBits(x: bv8, k: nat, l: nat)
    requires k < 8 && l < 8
    ensures (x | Mask(k)) & Mask(l) != 0 <==> k == l || x & Mask(l) != 0
    ensures (x & !Mask(k)) & Mask(l) != 0 <==> k != l && x & Mask(l) != 0
  {
    MaskOne(k);
    MaskOne(l);
  }

  lemma SetBitAt(bytes: seq<bv8>, i: nat, j: nat)
    requires i / 8 < |bytes| && j / 8 < |bytes|
    ensures Bit(SetBit(bytes, i), j) <==> i == j || Bit(bytes, j)
  {
    MaskBits(bytes[i / 8], i % 8, j % 8);
  }

  lemma ClearBitAt(bytes: seq<bv8>, i: nat, j: nat)
    requires i / 8 < |bytes| && j / 8 < |bytes|
    ensures Bit(ClearBit(bytes, i), j) <==> i != j && Bit(bytes, j)
  {
    MaskBits(bytes[i / 8], i % 8, j % 8);
  }
}

/** The 32-bit words of a block: word k is bytes 4k..4k+3, least significant first. */
module Words {
  function WordAt(b: seq<int>, k: nat): int
    requires 4 * k + 3 < |b|
  {
    b[4 * k] + 256 * b[4 * k + 1] + 65536 * b[4 * k + 2] + 16777216 * b[4 * k + 3]
  }

  function SetWord(b: seq<int>, k: nat, v: int): (r: seq<int>)
    requires 4 * k + 3 < |b|
    ensures |r| == |b|
  {
    b[4 * k := v % 256][4 * k + 1 := v / 256 % 256][4 * k + 2 := v / 65536 % 256][4 * k + 3 := v / 16777216]
  }

  lemma SetWordAt(b: seq<int>, k: nat, v: int, l: nat)
    requires 4 * k + 3 < |b| && 4 * l + 3 < |b|
    ensures WordAt(SetWord(b, k, v), l) == if k == l then v else WordAt(b, l)
  {
  }
}
