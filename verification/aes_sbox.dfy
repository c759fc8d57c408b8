/**
 * The S-box of AES (section 5.1.1 of FIPS 197) and its inverse, as the tables Te4 and Td4 of emi_aes.h
 * hold them: sixteen rows of sixteen entries, the row chosen by the high half of the byte.
 */
module AesSBox {
  import opened Gf256
  import opened Fips197
  import opened EmiAes
  import opened EmiAesApi

  /** Entry n of a row, the first entry being the most significant byte; n is the low half of x. */
  function Entry(row: bv128, x: bv8): bv8 {
    var half := if x & 8 == 0 then row >> 64 else row;
    var quarter := if x & 4 == 0 then half >> 32 else half;
    var pair := if x & 2 == 0 then quarter >> 16 else quarter;
    var one := if x & 1 == 0 then pair >> 8 else pair;
    (one & 0xff) as bv8
  }

  function ForwardRow(x: bv8): bv128 {
    if x & 0x80 == 0 then
      if x & 0x40 == 0 then
        if x & 0x20 == 0 then
          if x & 0x10 == 0 then
            0x637c777bf26b6fc53001672bfed7ab76
          else
            0xca82c97dfa5947f0add4a2af9ca472c0
        else
          if x & 0x10 == 0 then
            0xb7fd9326363ff7cc34a5e5f171d83115
          else
            0x04c723c31896059a071280e2eb27b275
      else
        if x & 0x20 == 0 then
          if x & 0x10 == 0 then
            0x09832c1a1b6e5aa0523bd6b329e32f84
          else
            0x53d100ed20fcb15b6acbbe394a4c58cf
        else
          if x & 0x10 == 0 then
            0xd0efaafb434d338545f9027f503c9fa8
          else
            0x51a3408f929d38f5bcb6da2110fff3d2
    else
      if x & 0x40 == 0 then
        if x & 0x20 == 0 then
          if x & 0x10 == 0 then
            0xcd0c13ec5f974417c4a77e3d645d1973
          else
            0x60814fdc222a908846eeb814de5e0bdb
        else
          if x & 0x10 == 0 then
            0xe0323a0a4906245cc2d3ac629195e479
          else
            0xe7c8376d8dd54ea96c56f4ea657aae08
      else
        if x & 0x20 == 0 then
          if x & 0x10 == 0 then
            0xba78252e1ca6b4c6e8dd741f4bbd8b8a
          else
            0x703eb5664803f60e613557b986c11d9e
        else
          if x & 0x10 == 0 then
            0xe1f8981169d98e949b1e87e9ce5528df
          else
            0x8ca1890dbfe6426841992d0fb054bb16
  }

  function InverseRow(x: bv8): bv128 {
    if x & 0x80 == 0 then
      if x & 0x40 == 0 then
        if x & 0x20 == 0 then
          if x & 0x10 == 0 then
            0x52096ad53036a538bf40a39e81f3d7fb
          else
            0x7ce339829b2fff87348e4344c4dee9cb
        else
          if x & 0x10 == 0 then
            0x547b9432a6c2233dee4c950b42fac34e
          else
            0x082ea16628d924b2765ba2496d8bd125
      else
        if x & 0x20 == 0 then
          if x & 0x10 == 0 then
            0x72f8f66486689816d4a45ccc5d65b692
          else
            0x6c704850fdedb9da5e154657a78d9d84
        else
          if x & 0x10 == 0 then
            0x90d8ab008cbcd30af7e45805b8b34506
          else
            0xd02c1e8fca3f0f02c1afbd0301138a6b
    else
      if x & 0x40 == 0 then
        if x & 0x20 == 0 then
          if x & 0x10 == 0 then
            0x3a9111414f67dcea97f2cfcef0b4e673
          else
            0x96ac7422e7ad3585e2f937e81c75df6e
        else
          if x & 0x10 == 0 then
            0x47f11a711d29c5896fb7620eaa18be1b
          else
            0xfc563e4bc6d279209adbc0fe78cd5af4
      else
        if x & 0x20 == 0 then
          if x & 0x10 == 0 then
            0x1fdda8338807c731b11210592780ec5f
          else
            0x60517fa919b54a0d2de57a9f93c99cef
        else
          if x & 0x10 == 0 then
            0xa0e03b4dae2af5b0c8ebbb3c83539961
          else
            0x172b047eba77d626e169146355210c7d
  }

  function Forward(x: bv8): bv8 { Entry(ForwardRow(x), x) }

  function Inverse(x: bv8): bv8 { Entry(InverseRow(x), x) }

  const AES_SBOX := SBox(x => Forward(x), x => Inverse(x))

  lemma InverseUndoesForward(x: bv8)
    ensures Inverse(Forward(x)) == x
  {}

  lemma ForwardUndoesInverse(y: bv8)
    ensures Forward(Inverse(y)) == y
  {}

  /** Multiplication of two bytes (section 4.2): the sum of the xtime multiples of x that y selects. */
  function Product(x: bv8, y: bv8): bv8 {
    var x1 := Times2(x);
    var x2 := Times2(x1);
    var x3 := Times2(x2);
    var x4 := Times2(x3);
    var x5 := Times2(x4);
    var x6 := Times2(x5);
    var x7 := Times2(x6);
    (x * (y & 1)) ^ (x1 * ((y >> 1) & 1)) ^ (x2 * ((y >> 2) & 1)) ^ (x3 * ((y >> 3) & 1))
    ^ (x4 * ((y >> 4) & 1)) ^ (x5 * ((y >> 5) & 1)) ^ (x6 * ((y >> 6) & 1)) ^ (x7 * (y >> 7))
  }

  /** Multiplication by the byte with bit n alone is multiplication by x, n times. */
  lemma ProductByBit(y: bv8)
    ensures var y2 := Times2(Times2(y));
            var y4 := Times2(Times2(y2));
            && Product(y, 0x01) == y && Product(y, 0x02) == Times2(y)
            && Product(y, 0x04) == y2 && Product(y, 0x08) == Times2(y2)
            && Product(y, 0x10) == y4 && Product(y, 0x20) == Times2(y4)
            && Product(y, 0x40) == Times2(Times2(y4)) && Product(y, 0x80) == Times2(Times2(Times2(y4)))
  {}

  /** Powers of x multiply by adding their exponents. */
  lemma PowersMultiply(i: nat, j: nat)
    requires j < 8
    ensures Product(XPower(i), XPower(j)) == XPower(i + j)
  {
    ProductByBit(XPower(i));
    hide Product, Times2;
    XPowers(j);
    assert XPower(i + 2) == Times2(Times2(XPower(i)));
    assert XPower(i + 4) == Times2(Times2(XPower(i + 2)));
    assert XPower(i + 6) == Times2(Times2(XPower(i + 4)));
    assert XPower(i + 7) == Times2(XPower(i + 6));
    assert (1 as bv8) << 0 == 0x01 && (1 as bv8) << 1 == 0x02 && (1 as bv8) << 2 == 0x04 && (1 as bv8) << 3 == 0x08;
    assert (1 as bv8) << 4 == 0x10 && (1 as bv8) << 5 == 0x20 && (1 as bv8) << 6 == 0x40 && (1 as bv8) << 7 == 0x80;
    assert j in {0, 1, 2, 3, 4, 5, 6, 7};
  }

  /**
   * The round constants are powers of x: 1, x to x^7 bit by bit, and each by multiplication with x from the one
   * before.
   */
  lemma {:induction false} XPowers(n: nat)
    ensures XPower(0) == 0x01 && XPower(n + 1) == Product(XPower(n), 0x02)
    ensures n < 8 ==> XPower(n) == (1 as bv8) << n
    ensures XPower(8) == 0x1b && XPower(9) == 0x36
  {
    ProductByBit(XPower(n));
    hide Product, Times2;
    LowPowers(n);
  }

  lemma {:induction false} LowPowers(n: nat)
    ensures n < 8 ==> XPower(n) == (1 as bv8) << n
    ensures XPower(8) == 0x1b && XPower(9) == 0x36
  {
    assert XPower(8) == 0x1b && XPower(9) == 0x36;
    if 0 < n {
      LowPowers(n - 1);
    }
  }

  /** The affine transformation of section 5.1.1. */
  function Affine(y: bv8): bv8 {
    y ^ y.RotateLeft(1) ^ y.RotateLeft(2) ^ y.RotateLeft(3) ^ y.RotateLeft(4) ^ 0x63
  }

  function InvAffine(z: bv8): bv8 {
    z.RotateLeft(1) ^ z.RotateLeft(3) ^ z.RotateLeft(6) ^ 0x05
  }

  lemma AffineUndoes(z: bv8)
    ensures Affine(InvAffine(z)) == z
  {}

  /** The multiplicative inverse of section 5.1.1, where that of 0 is 0. */
  predicate IsInverse(x: bv8, y: bv8) {
    if x == 0 then y == 0 else Product(x, y) == 1
  }

  /** The entry for x is the affine transformation of the multiplicative inverse of x. */
  predicate HoldsInverse(x: bv8) {
    IsInverse(x, InvAffine(Forward(x)))
  }

  /** Row by row. */
  lemma TableIsInverse(x: bv8)
    ensures HoldsInverse(x)
  {
    assert x >> 4 == 0x0 ==> HoldsInverse(x);
    assert x >> 4 == 0x1 ==> HoldsInverse(x);
    assert x >> 4 == 0x2 ==> HoldsInverse(x);
    assert x >> 4 == 0x3 ==> HoldsInverse(x);
    assert x >> 4 == 0x4 ==> HoldsInverse(x);
    assert x >> 4 == 0x5 ==> HoldsInverse(x);
    assert x >> 4 == 0x6 ==> HoldsInverse(x);
    assert x >> 4 == 0x7 ==> HoldsInverse(x);
    assert x >> 4 == 0x8 ==> HoldsInverse(x);
    assert x >> 4 == 0x9 ==> HoldsInverse(x);
    assert x >> 4 == 0xa ==> HoldsInverse(x);
    assert x >> 4 == 0xb ==> HoldsInverse(x);
    assert x >> 4 == 0xc ==> HoldsInverse(x);
    assert x >> 4 == 0xd ==> HoldsInverse(x);
    assert x >> 4 == 0xe ==> HoldsInverse(x);
    assert x >> 4 == 0xf ==> HoldsInverse(x);
  }

  /** The table is the one that FIPS 197 defines: the affine transformation of the multiplicative inverse. */
  lemma TableIsSBox(x: bv8)
    ensures exists y :: Forward(x) == Affine(y) && IsInverse(x, y)
  {
    hide Affine, InvAffine, IsInverse, Forward;
    AffineUndoes(Forward(x));
    TableIsInverse(x);
    assert Forward(x) == Affine(InvAffine(Forward(x)));
  }

  /** AES itself: the S-box of the tables meets the hypothesis of the round trip. */
  lemma AesSBoxBijective()
    ensures AES_SBOX.Bijective()
  {
    hide Forward, Inverse;
    forall x ensures Inverse(Forward(x)) == x && Forward(Inverse(x)) == x {
      InverseUndoesForward(x);
      ForwardUndoesInverse(x);
    }
  }

  /**
   * With the tables of the program: for every key string, bytes that are decrypted from what pt was encrypted to
   * are those of pt.
   */
  lemma EmiAesRoundTrip(key: seq<bv8>, pt: seq<bv8>, ct: seq<bv8>, out: seq<bv8>)
    requires 16 <= |pt| && 16 <= |ct| && 16 <= |out|
    requires BlockAt(ct) == EncryptBlock(AES_SBOX, EffectiveKey(key), BlockAt(pt))
    requires BlockAt(out) == DecryptBlock(AES_SBOX, EffectiveKey(key), BlockAt(ct))
    ensures out[..16] == pt[..16]
  {
    hide DecryptBlock, EncryptBlock, EffectiveKey, AES_SBOX, BlockAt;
    AesSBoxBijective();
    DecryptBlockUndoes(AES_SBOX, EffectiveKey(key), BlockAt(pt));
    BlockHoldsBytes(out, pt);
  }
}
