/**
 * The field GF(2^8) as AES uses it: addition, and multiplication by the constants
 * of MixColumns and InvMixColumns (section 4 of FIPS 197).
 */
module Gf256 {

  /** Addition of bytes (section 4.1 of FIPS 197). */
  function Add(x: bv8, y: bv8): bv8 { x ^ y }

  /** xtime: the product by {02}, reduced by the polynomial 0x11b. */
  function Times2(x: bv8): bv8 {
    (x << 1) ^ ((x >> 7) * 0x1b)
  }

  function Times3(x: bv8): bv8 { Add(Times2(x), x) }

  function Times4(x: bv8): bv8 { Times2(Times2(x)) }

  function Times8(x: bv8): bv8 { Times2(Times4(x)) }

  function Times9(x: bv8): bv8 { Add(Times8(x), x) }

  function TimesB(x: bv8): bv8 { Add(Times8(x), Add(Times2(x), x)) }

  function TimesD(x: bv8): bv8 { Add(Times8(x), Add(Times4(x), x)) }

  function TimesE(x: bv8): bv8 { Add(Times8(x), Add(Times4(x), Times2(x))) }

  /** The sum of four bytes. */
  function Sum4(a: bv8, b: bv8, c: bv8, d: bv8): bv8 { Add(Add(a, b), Add(c, d)) }

  lemma AddCommutes(x: bv8, y: bv8)
    ensures Add(x, y) == Add(y, x)
  {}

  lemma AddAssociates(x: bv8, y: bv8, z: bv8)
    ensures Add(Add(x, y), z) == Add(x, Add(y, z))
  {}

  lemma AddCancels(x: bv8, y: bv8)
    ensures Add(Add(x, y), y) == x
  {}

  lemma AddZero(x: bv8)
    ensures Add(x, 0) == x && Add(0, x) == x
  {}

  lemma AddSwaps(a: bv8, b: bv8, c: bv8, d: bv8)
    ensures Add(Add(a, b), Add(c, d)) == Add(Add(a, c), Add(b, d))
  {
    hide *;
    AddAssociates(a, b, Add(c, d));
    AddAssociates(b, c, d);
    AddCommutes(b, c);
    AddAssociates(c, b, d);
    AddAssociates(a, c, Add(b, d));
  }

  lemma Sum4Adds(a: bv8, b: bv8, c: bv8, d: bv8, e: bv8, f: bv8, g: bv8, h: bv8)
    ensures Sum4(Add(a, e), Add(b, f), Add(c, g), Add(d, h)) == Add(Sum4(a, b, c, d), Sum4(e, f, g, h))
  {
    hide Add;
    AddSwaps(a, e, b, f);
    AddSwaps(c, g, d, h);
    AddSwaps(Add(a, b), Add(e, f), Add(c, d), Add(g, h));
  }

  /** Summing a 4x4 table by rows or by columns gives the same byte. */
  lemma Sum4Transposes(a: (bv8, bv8, bv8, bv8), b: (bv8, bv8, bv8, bv8), c: (bv8, bv8, bv8, bv8),
                       d: (bv8, bv8, bv8, bv8))
    ensures Sum4(Sum4(a.0, a.1, a.2, a.3), Sum4(b.0, b.1, b.2, b.3), Sum4(c.0, c.1, c.2, c.3), Sum4(d.0, d.1, d.2, d.3))
         == Sum4(Sum4(a.0, b.0, c.0, d.0), Sum4(a.1, b.1, c.1, d.1), Sum4(a.2, b.2, c.2, d.2), Sum4(a.3, b.3, c.3, d.3))
  {
    hide Add;
    Sum4Adds(Add(a.0, a.1), Add(b.0, b.1), Add(c.0, c.1), Add(d.0, d.1),
             Add(a.2, a.3), Add(b.2, b.3), Add(c.2, c.3), Add(d.2, d.3));
    Sum4Adds(a.0, b.0, c.0, d.0, a.1, b.1, c.1, d.1);
    Sum4Adds(a.2, b.2, c.2, d.2, a.3, b.3, c.3, d.3);
  }

  lemma Times2Linear(x: bv8, y: bv8)
    ensures Times2(Add(x, y)) == Add(Times2(x), Times2(y))
  {}

  lemma Times4Linear(x: bv8, y: bv8)
    ensures Times4(Add(x, y)) == Add(Times4(x), Times4(y))
  {
    hide Add, Times2;
    Times2Linear(x, y);
    Times2Linear(Times2(x), Times2(y));
  }

  lemma Times8Linear(x: bv8, y: bv8)
    ensures Times8(Add(x, y)) == Add(Times8(x), Times8(y))
  {
    hide Add, Times2, Times4;
    Times4Linear(x, y);
    Times2Linear(Times4(x), Times4(y));
  }

  lemma Times9Linear(x: bv8, y: bv8)
    ensures Times9(Add(x, y)) == Add(Times9(x), Times9(y))
  {
    hide Add, Times8;
    Times8Linear(x, y);
    AddSwaps(Times8(x), Times8(y), x, y);
  }

  lemma TimesBLinear(x: bv8, y: bv8)
    ensures TimesB(Add(x, y)) == Add(TimesB(x), TimesB(y))
  {
    hide Add, Times2, Times8;
    Times2Linear(x, y);
    Times8Linear(x, y);
    AddSwaps(Times2(x), Times2(y), x, y);
    AddSwaps(Times8(x), Times8(y), Add(Times2(x), x), Add(Times2(y), y));
  }

  lemma TimesDLinear(x: bv8, y: bv8)
    ensures TimesD(Add(x, y)) == Add(TimesD(x), TimesD(y))
  {
    hide Add, Times4, Times8;
    Times4Linear(x, y);
    Times8Linear(x, y);
    AddSwaps(Times4(x), Times4(y), x, y);
    AddSwaps(Times8(x), Times8(y), Add(Times4(x), x), Add(Times4(y), y));
  }

  lemma TimesELinear(x: bv8, y: bv8)
    ensures TimesE(Add(x, y)) == Add(TimesE(x), TimesE(y))
  {
    hide Add, Times2, Times4, Times8;
    Times2Linear(x, y);
    Times4Linear(x, y);
    Times8Linear(x, y);
    AddSwaps(Times4(x), Times4(y), Times2(x), Times2(y));
    AddSwaps(Times8(x), Times8(y), Add(Times4(x), Times2(x)), Add(Times4(y), Times2(y)));
  }

  /** {0e}{02} + {0b} + {0d} + {09}{03} = {01}: the diagonal of InvMixColumns times MixColumns. */
  lemma DiagonalProduct(x: bv8)
    ensures Sum4(TimesE(Times2(x)), TimesB(x), TimesD(x), Times9(Times3(x))) == x
  {}

  // The entries off that diagonal vanish: as sums of x and its doubles, they hold each of these an even number of
  // times.

  lemma DoubledProducts(x: bv8)
    ensures var x2, x4, x8, x16 := Times2(x), Times4(x), Times8(x), Times2(Times8(x));
            && TimesE(Times2(x)) == Add(x16, Add(x8, x4)) && TimesB(Times2(x)) == Add(x16, Add(x4, x2))
            && TimesD(Times2(x)) == Add(x16, Add(x8, x2)) && Times9(Times2(x)) == Add(x16, x2)
            && TimesE(Times3(x)) == Add(Add(x16, Add(x8, x4)), TimesE(x))
            && TimesB(Times3(x)) == Add(Add(x16, Add(x4, x2)), TimesB(x))
            && TimesD(Times3(x)) == Add(Add(x16, Add(x8, x2)), TimesD(x))
  {
    TimesELinear(Times2(x), x);
    TimesBLinear(Times2(x), x);
    TimesDLinear(Times2(x), x);
    hide Add, Times2;
  }

  lemma AddSelf(x: bv8)
    ensures Add(x, x) == 0
  {}

  /** What two sums share cancels. */
  lemma SharedCancels(x: bv8, y: bv8, z: bv8)
    ensures Add(Add(x, y), Add(x, z)) == Add(y, z)
  {}

  lemma EvenSum1(x: bv8, x2: bv8, x4: bv8, x8: bv8, x16: bv8)
    ensures Sum4(Add(Add(x16, Add(x8, x4)), Add(x8, Add(x4, x2))), Add(x16, Add(x4, x2)), Add(x8, Add(x4, x)),
                 Add(x8, x)) == 0
  {
    hide Add;
    var e, e2, b2 := Add(x8, Add(x4, x2)), Add(x16, Add(x8, x4)), Add(x16, Add(x4, x2));
    AddAssociates(x8, x4, x2);
    AddCommutes(e2, e);
    AddAssociates(e, e2, b2);
    SharedCancels(x16, Add(x8, x4), Add(x4, x2));
    AddCommutes(x8, x4);
    SharedCancels(x4, x8, x2);
    SharedCancels(x8, Add(x4, x), x);
    AddCancels(x4, x);
    AddSwaps(x8, Add(x4, x2), x8, x2);
    AddSelf(x8);
    AddCancels(x4, x2);
    AddZero(x4);
    AddSelf(x4);
  }

  lemma EvenSum2(x: bv8, x2: bv8, x4: bv8, x8: bv8, x16: bv8)
    ensures Sum4(Add(x8, Add(x4, x2)), Add(Add(x16, Add(x4, x2)), Add(x8, Add(x2, x))), Add(x16, Add(x8, x2)),
                 Add(x8, x)) == 0
  {
    hide Add;
    var e, b, b2, d2 := Add(x8, Add(x4, x2)), Add(x8, Add(x2, x)), Add(x16, Add(x4, x2)), Add(x16, Add(x8, x2));
    AddSwaps(e, Add(b2, b), d2, Add(x8, x));
    SharedCancels(x16, Add(x8, x2), Add(x4, x2));
    SharedCancels(x8, Add(x2, x), x);
    AddCancels(x2, x);
    AddSwaps(b2, b, d2, Add(x8, x));
    SharedCancels(x16, Add(x4, x2), Add(x8, x2));
    AddCommutes(x4, x2);
    AddCommutes(x8, x2);
    SharedCancels(x2, x4, x8);
    AddAssociates(e, Add(b2, b), Add(d2, Add(x8, x)));
    AddCommutes(x4, x8);
    AddAssociates(x8, x4, x2);
    AddSelf(e);
  }

  lemma EvenSum3(x: bv8, x2: bv8, x4: bv8, x8: bv8, x16: bv8)
    ensures Sum4(Add(x8, Add(x4, x2)), Add(x8, Add(x2, x)), Add(Add(x16, Add(x8, x2)), Add(x8, Add(x4, x))),
                 Add(x16, x2)) == 0
  {
    hide Add;
    var d, d2 := Add(x8, Add(x4, x)), Add(x16, Add(x8, x2));
    SharedCancels(x8, Add(x4, x2), Add(x2, x));
    AddCommutes(x4, x2);
    SharedCancels(x2, x4, x);
    AddCommutes(d2, d);
    AddAssociates(d, d2, Add(x16, x2));
    SharedCancels(x16, Add(x8, x2), x2);
    AddCancels(x8, x2);
    AddCommutes(d, x8);
    AddAssociates(x8, x8, Add(x4, x));
    AddSelf(x8);
    AddZero(Add(x4, x));
    AddSelf(Add(x4, x));
  }

  lemma OffDiagonalProduct1(x: bv8)
    ensures Sum4(TimesE(Times3(x)), TimesB(Times2(x)), TimesD(x), Times9(x)) == 0
  {
    DoubledProducts(x);
    EvenSum1(x, Times2(x), Times4(x), Times8(x), Times2(Times8(x)));
    hide Add, Times2, Times3, Times4, Times8;
  }

  lemma OffDiagonalProduct2(x: bv8)
    ensures Sum4(TimesE(x), TimesB(Times3(x)), TimesD(Times2(x)), Times9(x)) == 0
  {
    DoubledProducts(x);
    EvenSum2(x, Times2(x), Times4(x), Times8(x), Times2(Times8(x)));
    hide Add, Times2, Times3, Times4, Times8;
  }

  lemma OffDiagonalProduct3(x: bv8)
    ensures Sum4(TimesE(x), TimesB(x), TimesD(Times3(x)), Times9(Times2(x))) == 0
  {
    DoubledProducts(x);
    EvenSum3(x, Times2(x), Times4(x), Times8(x), Times2(Times8(x)));
    hide Add, Times2, Times3, Times4, Times8;
  }
}
