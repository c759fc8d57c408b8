/** Columns of the AES state, and MixColumns on one column (sections 5.1.3 and 5.3.3 of FIPS 197). */
module Columns {
  import opened Gf256

  datatype Column = Column(b0: bv8, b1: bv8, b2: bv8, b3: bv8)

  function AddColumns(c: Column, d: Column): Column {
    Column(Add(c.b0, d.b0), Add(c.b1, d.b1), Add(c.b2, d.b2), Add(c.b3, d.b3))
  }

  function MixColumn(c: Column): Column {
    Column(Sum4(Times2(c.b0), Times3(c.b1), c.b2, c.b3),
           Sum4(c.b0, Times2(c.b1), Times3(c.b2), c.b3),
           Sum4(c.b0, c.b1, Times2(c.b2), Times3(c.b3)),
           Sum4(Times3(c.b0), c.b1, c.b2, Times2(c.b3)))
  }

  function InvMixColumn(c: Column): Column {
    Column(Sum4(TimesE(c.b0), TimesB(c.b1), TimesD(c.b2), Times9(c.b3)),
           Sum4(Times9(c.b0), TimesE(c.b1), TimesB(c.b2), TimesD(c.b3)),
           Sum4(TimesD(c.b0), Times9(c.b1), TimesE(c.b2), TimesB(c.b3)),
           Sum4(TimesB(c.b0), TimesD(c.b1), Times9(c.b2), TimesE(c.b3)))
  }

  lemma AddColumnsCancels(c: Column, d: Column)
    ensures AddColumns(AddColumns(c, d), d) == c
  {
    hide Add;
    AddCancels(c.b0, d.b0);
    AddCancels(c.b1, d.b1);
    AddCancels(c.b2, d.b2);
    AddCancels(c.b3, d.b3);
  }

  /** The four products that InvMixColumn forms from one byte respect addition. */
  lemma InverseFactorsLinear(x: bv8, y: bv8)
    ensures Times9(Add(x, y)) == Add(Times9(x), Times9(y))
    ensures TimesB(Add(x, y)) == Add(TimesB(x), TimesB(y))
    ensures TimesD(Add(x, y)) == Add(TimesD(x), TimesD(y))
    ensures TimesE(Add(x, y)) == Add(TimesE(x), TimesE(y))
  {
    hide *;
    Times9Linear(x, y);
    TimesBLinear(x, y);
    TimesDLinear(x, y);
    TimesELinear(x, y);
  }

  lemma InverseFactorsSum4(a: bv8, b: bv8, c: bv8, d: bv8)
    ensures Times9(Sum4(a, b, c, d)) == Sum4(Times9(a), Times9(b), Times9(c), Times9(d))
    ensures TimesB(Sum4(a, b, c, d)) == Sum4(TimesB(a), TimesB(b), TimesB(c), TimesB(d))
    ensures TimesD(Sum4(a, b, c, d)) == Sum4(TimesD(a), TimesD(b), TimesD(c), TimesD(d))
    ensures TimesE(Sum4(a, b, c, d)) == Sum4(TimesE(a), TimesE(b), TimesE(c), TimesE(d))
  {
    hide Add, Times9, TimesB, TimesD, TimesE;
    InverseFactorsLinear(a, b);
    InverseFactorsLinear(c, d);
    InverseFactorsLinear(Add(a, b), Add(c, d));
  }

  /** InvMixColumns commutes with AddRoundKey up to transforming the key. */
  lemma InvMixColumnLinear(c: Column, d: Column)
    ensures InvMixColumn(AddColumns(c, d)) == AddColumns(InvMixColumn(c), InvMixColumn(d))
  {
    hide Add, Sum4, Times9, TimesB, TimesD, TimesE;
    InverseFactorsLinear(c.b0, d.b0);
    InverseFactorsLinear(c.b1, d.b1);
    InverseFactorsLinear(c.b2, d.b2);
    InverseFactorsLinear(c.b3, d.b3);
    Sum4Adds(TimesE(c.b0), TimesB(c.b1), TimesD(c.b2), Times9(c.b3), TimesE(d.b0), TimesB(d.b1), TimesD(d.b2),
             Times9(d.b3));
    Sum4Adds(Times9(c.b0), TimesE(c.b1), TimesB(c.b2), TimesD(c.b3), Times9(d.b0), TimesE(d.b1), TimesB(d.b2),
             TimesD(d.b3));
    Sum4Adds(TimesD(c.b0), Times9(c.b1), TimesE(c.b2), TimesB(c.b3), TimesD(d.b0), Times9(d.b1), TimesE(d.b2),
             TimesB(d.b3));
    Sum4Adds(TimesB(c.b0), TimesD(c.b1), Times9(c.b2), TimesE(c.b3), TimesB(d.b0), TimesD(d.b1), Times9(d.b2),
             TimesE(d.b3));
  }

  /** Row i of InvMixColumn, applied to any four bytes. */
  function InvRow(a: bv8, b: bv8, c: bv8, d: bv8): bv8 {
    Sum4(TimesE(a), TimesB(b), TimesD(c), Times9(d))
  }

  /** The first row of InvMixColumns undoes MixColumns; the other rows are rotations of it. */
  lemma InvRowUndoesMix(p: bv8, q: bv8, r: bv8, s: bv8)
    ensures InvRow(Sum4(Times2(p), Times3(q), r, s), Sum4(p, Times2(q), Times3(r), s),
                   Sum4(p, q, Times2(r), Times3(s)), Sum4(Times3(p), q, r, Times2(s))) == p
  {
    hide Add, Sum4, Times2, Times3, Times9, TimesB, TimesD, TimesE;
    InverseFactorsSum4(Times2(p), Times3(q), r, s);
    InverseFactorsSum4(p, Times2(q), Times3(r), s);
    InverseFactorsSum4(p, q, Times2(r), Times3(s));
    InverseFactorsSum4(Times3(p), q, r, Times2(s));
    Sum4Transposes((TimesE(Times2(p)), TimesE(Times3(q)), TimesE(r), TimesE(s)),
                   (TimesB(p), TimesB(Times2(q)), TimesB(Times3(r)), TimesB(s)),
                   (TimesD(p), TimesD(q), TimesD(Times2(r)), TimesD(Times3(s))),
                   (Times9(Times3(p)), Times9(q), Times9(r), Times9(Times2(s))));
    DiagonalProduct(p);
    OffDiagonalProduct1(q);
    OffDiagonalProduct2(r);
    OffDiagonalProduct3(s);
    Sum4Zero(p);
  }

  lemma Sum4Zero(p: bv8)
    ensures Sum4(p, 0, 0, 0) == p
  {
    hide Add;
    AddZero(p);
    AddZero(0);
  }

  lemma Sum4Rotates(a: bv8, b: bv8, c: bv8, d: bv8)
    ensures Sum4(a, b, c, d) == Sum4(b, c, d, a)
  {
    hide Add;
    AddAssociates(a, b, Add(c, d));
    AddAssociates(b, c, d);
    AddCommutes(a, Add(b, Add(c, d)));
    AddAssociates(Add(b, c), d, a);
  }

  /** InvMixColumns undoes MixColumns. */
  lemma InvMixColumnUndoes(c: Column)
    ensures InvMixColumn(MixColumn(c)) == c
  {
    hide Add, Sum4, Times2, Times3, Times9, TimesB, TimesD, TimesE;
    var m := MixColumn(c);
    InvRowUndoesMix(c.b0, c.b1, c.b2, c.b3);
    RotateRows(c);
    InvRowUndoesMix(c.b1, c.b2, c.b3, c.b0);
    InvRowUndoesMix(c.b2, c.b3, c.b0, c.b1);
    InvRowUndoesMix(c.b3, c.b0, c.b1, c.b2);
    RotateInvRows(m);
  }

  /** MixColumn of the rotated column is the rotated MixColumn. */
  lemma RotateRows(c: Column)
    ensures MixColumn(Column(c.b1, c.b2, c.b3, c.b0)) == (var m := MixColumn(c); Column(m.b1, m.b2, m.b3, m.b0))
    ensures MixColumn(Column(c.b2, c.b3, c.b0, c.b1)) == (var m := MixColumn(c); Column(m.b2, m.b3, m.b0, m.b1))
    ensures MixColumn(Column(c.b3, c.b0, c.b1, c.b2)) == (var m := MixColumn(c); Column(m.b3, m.b0, m.b1, m.b2))
  {
    hide *;
    RotateOnce(c);
    RotateOnce(Column(c.b1, c.b2, c.b3, c.b0));
    RotateOnce(Column(c.b2, c.b3, c.b0, c.b1));
  }

  lemma RotateOnce(c: Column)
    ensures MixColumn(Column(c.b1, c.b2, c.b3, c.b0)) == (var m := MixColumn(c); Column(m.b1, m.b2, m.b3, m.b0))
  {
    hide Add, Sum4, Times2, Times3;
    Sum4Rotates(c.b0, Times2(c.b1), Times3(c.b2), c.b3);
    Sum4Rotates(c.b0, c.b1, Times2(c.b2), Times3(c.b3));
    Sum4Rotates(Times3(c.b0), c.b1, c.b2, Times2(c.b3));
    Sum4Rotates(Times2(c.b0), Times3(c.b1), c.b2, c.b3);
  }

  lemma RotateInvRows(m: Column)
    ensures InvMixColumn(m) == Column(InvRow(m.b0, m.b1, m.b2, m.b3), InvRow(m.b1, m.b2, m.b3, m.b0),
                                      InvRow(m.b2, m.b3, m.b0, m.b1), InvRow(m.b3, m.b0, m.b1, m.b2))
  {
    hide Add, Sum4, Times9, TimesB, TimesD, TimesE;
    Sum4Rotates(Times9(m.b0), TimesE(m.b1), TimesB(m.b2), TimesD(m.b3));
    Sum4Rotates(TimesD(m.b0), Times9(m.b1), TimesE(m.b2), TimesB(m.b3));
    Sum4Rotates(Times9(m.b1), TimesE(m.b2), TimesB(m.b3), TimesD(m.b0));
    Sum4Rotates(TimesB(m.b0), TimesD(m.b1), Times9(m.b2), TimesE(m.b3));
    Sum4Rotates(TimesD(m.b1), Times9(m.b2), TimesE(m.b3), TimesB(m.b0));
    Sum4Rotates(Times9(m.b2), TimesE(m.b3), TimesB(m.b0), TimesD(m.b1));
  }
}
