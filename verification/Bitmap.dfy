/** Bitmaps stored in bytes. */
module Bitmap {

  function Mask(k: nat): bv8
    requires k < 8
  {
    (1 as bv8) << k
  }

  predicate BitOf(b: bv8, k: nat)
    requires k < 8
  {
    b & Mask(k) != 0
  }

  lemma BitOn(b: bv8, k: nat, j: nat)
    requires k < 8 && j < 8
    ensures BitOf(b | Mask(k), j) == (j == k || BitOf(b, j))
  {
  }

  lemma BitOff(b: bv8, k: nat, j: nat)
    requires k < 8 && j < 8
    ensures BitOf(b & !Mask(k), j) == (j != k && BitOf(b, j))
  {
  }

  lemma AllSet(b: bv8, k: nat)
    requires b == 0xFF && k < 8
    ensures BitOf(b, k)
  {
  }

  /** Bit `i` of a bitmap. */
  predicate Bit(bytes: seq<bv8>, i: nat)
    requires i < 8 * |bytes|
  {
    BitOf(bytes[i / 8], i % 8)
  }

  /** Bits are counted from the least significant one of each byte on. */
  lemma BitPlace(bytes: seq<bv8>, i: nat)
    requires i < 8 * |bytes|
    ensures Bit(bytes, i) <==> (bytes[i / 8] >> (i % 8)) & 1 == 1
  {
    hide BitOf;
    BitShift(bytes[i / 8], i % 8);
  }

  lemma BitShift(b: bv8, k: nat)
    requires k < 8
    ensures BitOf(b, k) <==> (b >> k) & 1 == 1
  {
  }

  /** The first `n` bits as a sequence. */
  function Bits(bytes: seq<bv8>, n: nat): (r: seq<bool>)
    requires n <= 8 * |bytes|
    ensures |r| == n && forall i :: 0 <= i < n ==> r[i] == Bit(bytes, i)
  {
    seq(n, i requires 0 <= i < n => Bit(bytes, i))
  }

  method Get(bitmap: array<bv8>, index: nat) returns (bit: bool)
    requires index < 8 * bitmap.Length
    ensures bit == Bit(bitmap[..], index)
  {
    var x := Mask(index % 8);
    bit := bitmap[index / 8] & x > 0;
  }

  method Set(bitmap: array<bv8>, index: nat, bit: bool)
    requires index < 8 * bitmap.Length
    modifies bitmap
    ensures forall i :: 0 <= i < 8 * bitmap.Length ==>
      Bit(bitmap[..], i) == if i == index then bit else Bit(old(bitmap[..]), i)
  {
    hide BitOf, Mask;
    var x := Mask(index % 8);
    if bit {
      bitmap[index / 8] := bitmap[index / 8] | x;
    } else {
      bitmap[index / 8] := bitmap[index / 8] & !x;
    }
    ByteSet(old(bitmap[..]), bitmap[..], index, bit);
  }

  /** Changing one bit of one byte changes that bit of the bitmap and no other. */
  lemma ByteSet(before: seq<bv8>, after: seq<bv8>, index: nat, bit: bool)
    requires index < 8 * |before| && |after| == |before|
    requires forall j :: 0 <= j < |before| && j != index / 8 ==> after[j] == before[j]
    requires var b, m := before[index / 8], Mask(index % 8); after[index / 8] == if bit then b | m else b & !m
    ensures forall i :: 0 <= i < 8 * |before| ==> Bit(after, i) == if i == index then bit else Bit(before, i)
  {
    hide BitOf, Mask;
    forall i | 0 <= i < 8 * |before|
      ensures Bit(after, i) == if i == index then bit else Bit(before, i)
    {
      if i / 8 == index / 8 {
        BitOn(before[index / 8], index % 8, i % 8);
        BitOff(before[index / 8], index % 8, i % 8);
      }
    }
  }

  /** A byte of ones is eight set bits. */
  lemma ByteFull(bytes: seq<bv8>, k: nat)
    requires k < |bytes| && bytes[k] == 0xFF
    ensures forall i :: 8 * k <= i < 8 * k + 8 ==> Bit(bytes, i)
  {
    hide BitOf;
    forall i | 8 * k <= i < 8 * k + 8
      ensures Bit(bytes, i)
    {
      assert i / 8 == k;
      AllSet(bytes[k], i % 8);
    }
  }
}
