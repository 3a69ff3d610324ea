/** The bitwise CRC-8 of quantum/crc.c: polynomial 0x31, start value 0xFF. */
module Crc {
  import opened LinearChecksum

  /** One turn of the inner loop. */
  function Shift(crc: bv8): bv8 {
    if crc & 0x80 != 0 then (crc << 1) ^ 0x31 else crc << 1
  }

  function Xor(a: bv8, b: bv8): bv8 {
    a ^ b
  }

  function Checksum(data: seq<bv8>): bv8 {
    Fold(Shift, Xor, 0xFF, data)
  }

  /** crc8 */
  method Crc8(data: seq<bv8>) returns (crc: bv8)
    ensures crc == Checksum(data)
  {
    crc := 0xFF;
    for i := 0 to |data|
      invariant crc == Fold(Shift, Xor, 0xFF, data[..i])
    {
      assert data[..i + 1][..i] == data[..i];
      crc := crc ^ data[i];
      ghost var start := crc;
      for j := 0 to BITS
        invariant crc == Iterate(Shift, start, j)
      {
        if crc & 0x80 != 0 {
          crc := (crc << 1) ^ 0x31;
        } else {
          crc := crc << 1;
        }
      }
    }
    assert data[..|data|] == data;
  }

  lemma OneMoreByte(data: seq<bv8>, b: bv8, crc: bv8, crc': bv8)
    requires Checksum(data) == crc && Update(Shift, Xor, crc, b) == crc'
    ensures Checksum(data + [b]) == crc'
  {
    assert (data + [b])[..|data|] == data;
  }

  /** The checksum of nothing is the start value; that of the bytes BE EF, a usual check value, is 0x92. */
  lemma CheckValue()
    ensures Checksum([]) == 0xFF && Checksum([0xBE, 0xEF]) == 0x92
  {
    OneMoreByte([], 0xBE, 0xFF, 0x0C);
    OneMoreByte([0xBE], 0xEF, 0x0C, 0x92);
    assert [] + [0xBE as bv8] == [0xBE] && [0xBE as bv8] + [0xEF] == [0xBE, 0xEF];
  }

  // -------------------------------------------------------------------- bit by bit

  lemma XorZero(a: bv8, b: bv8)
    ensures a ^ b == 0 <==> a == b
  {
  }

  lemma TopBit(a: bv8, b: bv8, c: bv8)
    requires c == a ^ b
    ensures c & 0x80 != 0 <==> (a & 0x80 != 0) != (b & 0x80 != 0)
  {
  }

  lemma ShiftLinearBoth(a: bv8, b: bv8, c: bv8)
    requires c == a ^ b && a & 0x80 != 0 && b & 0x80 != 0
    ensures Shift(c) == Shift(a) ^ Shift(b)
  {
    TopBit(a, b, c);
  }

  lemma ShiftLinearLeft(a: bv8, b: bv8, c: bv8)
    requires c == a ^ b && a & 0x80 != 0 && b & 0x80 == 0
    ensures Shift(c) == Shift(a) ^ Shift(b)
  {
    TopBit(a, b, c);
  }

  lemma ShiftLinearRight(a: bv8, b: bv8, c: bv8)
    requires c == a ^ b && a & 0x80 == 0 && b & 0x80 != 0
    ensures Shift(c) == Shift(a) ^ Shift(b)
  {
    TopBit(a, b, c);
  }

  lemma ShiftLinearNone(a: bv8, b: bv8, c: bv8)
    requires c == a ^ b && a & 0x80 == 0 && b & 0x80 == 0
    ensures Shift(c) == Shift(a) ^ Shift(b)
  {
    TopBit(a, b, c);
  }

  lemma ShiftLinear(a: bv8, b: bv8, c: bv8)
    requires c == a ^ b
    ensures Shift(c) == Shift(a) ^ Shift(b)
  {
    if a & 0x80 != 0 {
      if b & 0x80 != 0 { ShiftLinearBoth(a, b, c); } else { ShiftLinearLeft(a, b, c); }
    } else {
      if b & 0x80 != 0 { ShiftLinearRight(a, b, c); } else { ShiftLinearNone(a, b, c); }
    }
  }

  lemma ShiftKeepsNonzero(a: bv8)
    ensures Shift(a) == 0 <==> a == 0
  {
  }

  lemma XorMixes(a: bv8, b: bv8, c: bv8, d: bv8, s: bv8, t: bv8, p: bv8, q: bv8)
    requires s == Xor(a, b) && t == Xor(c, d) && p == Xor(a, c) && q == Xor(b, d)
    ensures Xor(s, t) == Xor(p, q)
  {
  }

  lemma XorIsExclusive()
    ensures Exclusive(Xor, 0)
  {
    forall a, b ensures Xor(a, b) == 0 <==> a == b {
      XorZero(a, b);
    }
    forall a, b, c, d ensures Xor(Xor(a, b), Xor(c, d)) == Xor(Xor(a, c), Xor(b, d)) {
      XorMixes(a, b, c, d, Xor(a, b), Xor(c, d), Xor(a, c), Xor(b, d));
    }
  }

  lemma ShiftIsLossless()
    ensures Lossless(Shift, Xor, 0)
  {
    forall a, b ensures Shift(Xor(a, b)) == Xor(Shift(a), Shift(b)) {
      ShiftLinear(a, b, Xor(a, b));
    }
    forall a ensures Shift(a) == 0 <==> a == 0 {
      ShiftKeepsNonzero(a);
    }
  }

  lemma Crc8IsSound()
    ensures Sound(Shift, Xor, 0)
  {
    ShiftIsLossless();
    XorIsExclusive();
    LosslessIsSound(Shift, Xor, 0);
  }

  // --------------------------------------------------------------- error detection

  /** The inner loop is linear over XOR and one-to-one on bytes. */
  lemma InnerLoopOneToOne(a: bv8, b: bv8)
    ensures Iterate(Shift, Xor(a, b), BITS) == Xor(Iterate(Shift, a, BITS), Iterate(Shift, b, BITS))
    ensures Iterate(Shift, a, BITS) == Iterate(Shift, b, BITS) <==> a == b
  {
    ShiftIsLossless();
    IterateLinear(Shift, Xor, 0, a, b, BITS);
    IterateKeepsNonzero(Shift, Xor, 0, Xor(a, b), BITS);
    XorZero(a, b);
    XorZero(Iterate(Shift, a, BITS), Iterate(Shift, b, BITS));
  }

  /** Any error within a single byte of a message of any length changes the CRC. */
  lemma DetectsByteError(a: seq<bv8>, b: seq<bv8>, p: nat)
    requires p < |a| && DifferWithin(a, b, p, p + 1) && a != b
    ensures Checksum(a) != Checksum(b)
  {
    Crc8IsSound();
    DetectsOne(Shift, Xor, 0, 0xFF, a, b, p);
  }

  /** The low j bits of a byte. */
  function LowMask(j: nat): bv8
    requires j <= 8
  {
    match j
    case 0 => 0x00 case 1 => 0x01 case 2 => 0x03 case 3 => 0x07 case 4 => 0x0F
    case 5 => 0x1F case 6 => 0x3F case 7 => 0x7F case 8 => 0xFF
  }

  /**
   A burst that starts in the low j bits of one byte and ends in the high 8 - j bits of
   the next spans at most 8 consecutive bits; shifted through, it never cancels itself.
   */
  lemma BurstNeverCancels(e1: bv8, e2: bv8, j: nat)
    requires j <= 8 && e1 & LowMask(j) == e1 && e2 & LowMask(j) == 0
    ensures Update(Shift, Xor, 0, e1) == e2 ==> e1 == 0 && e2 == 0
  {
  }

  /** Any burst of errors within 8 consecutive bits, across a byte boundary too, changes the CRC. */
  lemma DetectsBurst(a: seq<bv8>, b: seq<bv8>, p: nat, j: nat)
    requires p + 1 < |a| && DifferWithin(a, b, p, p + 2) && a != b && j <= 8
    requires Xor(a[p], b[p]) & LowMask(j) == Xor(a[p], b[p]) && Xor(a[p + 1], b[p + 1]) & LowMask(j) == 0
    ensures Checksum(a) != Checksum(b)
  {
    BurstNeverCancels(Xor(a[p], b[p]), Xor(a[p + 1], b[p + 1]), j);
    Crc8IsSound();
    DetectsTwo(Shift, Xor, 0, 0xFF, a, b, p);
  }

  lemma PolynomialUndoesItself()
    ensures Update(Shift, Xor, 0, 0x01) == 0x31
  {
  }

  /** Eight bits is the limit: the nine bits of the polynomial itself go unseen, wherever they hit. */
  lemma MissesThePolynomial(a: seq<bv8>, b: seq<bv8>, p: nat)
    requires p + 1 < |a| && DifferWithin(a, b, p, p + 2)
    requires Xor(a[p], b[p]) == 0x01 && Xor(a[p + 1], b[p + 1]) == 0x31
    ensures Checksum(a) == Checksum(b)
  {
    Crc8IsSound();
    PolynomialUndoesItself();
    MissesTwoExactly(Shift, Xor, 0, 0xFF, a, b, p);
  }
}
