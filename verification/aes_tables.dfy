/** 32-bit words as packed columns: the byte, RORc, LOAD32H and STORE32H macros of emi_aes.c. */
module Words {
  import opened Gf256
  import opened Columns

  function Xor(u: bv32, v: bv32): bv32 { u ^ v }

  /** byte(w, n): byte 3 is the most significant one. */
  function Byte(w: bv32, n: nat): bv8
    requires n < 4
  {
    match n
    case 0 => (w & 0xff) as bv8
    case 1 => ((w >> 8) & 0xff) as bv8
    case 2 => ((w >> 16) & 0xff) as bv8
    case 3 => ((w >> 24) & 0xff) as bv8
  }

  /** RORc(w, 8). */
  function Ror8(w: bv32): bv32 { (w >> 8) | (w << 24) }

  function Pack(a: bv8, b: bv8, c: bv8, d: bv8): bv32 {
    ((a as bv32) << 24) | ((b as bv32) << 16) | ((c as bv32) << 8) | (d as bv32)
  }

  function ToWord(c: Column): bv32 { Pack(c.b0, c.b1, c.b2, c.b3) }

  function ToColumn(w: bv32): Column { Column(Byte(w, 3), Byte(w, 2), Byte(w, 1), Byte(w, 0)) }

  /** Loading four bytes and reading them back are inverse. */
  lemma PackToColumn(a: bv8, b: bv8, c: bv8, d: bv8)
    ensures ToColumn(Pack(a, b, c, d)) == Column(a, b, c, d)
  {}

  lemma ToColumnToWord(w: bv32)
    ensures ToWord(ToColumn(w)) == w
  {}

  lemma XorByte(u: bv32, v: bv32, n: nat)
    requires n < 4
    ensures Byte(Xor(u, v), n) == Add(Byte(u, n), Byte(v, n))
  {
    if n == 0 {
      assert ((u ^ v) & 0xff) as bv8 == ((u & 0xff) as bv8) ^ ((v & 0xff) as bv8);
    } else if n == 1 {
      assert (((u ^ v) >> 8) & 0xff) as bv8 == (((u >> 8) & 0xff) as bv8) ^ (((v >> 8) & 0xff) as bv8);
    } else if n == 2 {
      assert (((u ^ v) >> 16) & 0xff) as bv8 == (((u >> 16) & 0xff) as bv8) ^ (((v >> 16) & 0xff) as bv8);
    } else {
      assert (((u ^ v) >> 24) & 0xff) as bv8 == (((u >> 24) & 0xff) as bv8) ^ (((v >> 24) & 0xff) as bv8);
    }
  }

  lemma XorToColumn(u: bv32, v: bv32)
    ensures ToColumn(Xor(u, v)) == AddColumns(ToColumn(u), ToColumn(v))
  {
    hide Add, Xor, Byte;
    XorByte(u, v, 0);
    XorByte(u, v, 1);
    XorByte(u, v, 2);
    XorByte(u, v, 3);
  }

  lemma Ror8ToColumn(w: bv32)
    ensures ToColumn(Ror8(w)) == (var c := ToColumn(w); Column(c.b3, c.b0, c.b1, c.b2))
  {}

  lemma MaskedPack(s: bv8)
    ensures Pack(s, s, s, s) & 0xff000000 == Pack(s, 0, 0, 0)
    ensures Pack(s, s, s, s) & 0x00ff0000 == Pack(0, s, 0, 0)
    ensures Pack(s, s, s, s) & 0x0000ff00 == Pack(0, 0, s, 0)
    ensures Pack(s, s, s, s) & 0x000000ff == Pack(0, 0, 0, s)
  {}

  /** Exclusive-or of four packed words adds them as columns. */
  lemma Xor4ToColumn(t: bv32, u: bv32, v: bv32, w: bv32)
    ensures ToColumn(Xor(Xor(Xor(t, u), v), w))
         == AddColumns(AddColumns(ToColumn(t), ToColumn(u)), AddColumns(ToColumn(v), ToColumn(w)))
  {
    hide Xor, ToColumn, AddColumns;
    XorToColumn(t, u);
    XorToColumn(Xor(t, u), v);
    XorToColumn(Xor(Xor(t, u), v), w);
    AddColumnsAssociates(Xor(t, u), v, w);
  }

  lemma AddColumnsAssociates(tu: bv32, v: bv32, w: bv32)
    ensures AddColumns(AddColumns(ToColumn(tu), ToColumn(v)), ToColumn(w))
         == AddColumns(ToColumn(tu), AddColumns(ToColumn(v), ToColumn(w)))
  {
    hide Add, Byte;
    AddAssociates(Byte(tu, 3), Byte(v, 3), Byte(w, 3));
    AddAssociates(Byte(tu, 2), Byte(v, 2), Byte(w, 2));
    AddAssociates(Byte(tu, 1), Byte(v, 1), Byte(w, 1));
    AddAssociates(Byte(tu, 0), Byte(v, 0), Byte(w, 0));
  }
}

/** The lookup tables of emi_aes.h, as their header comment defines them from the S-box. */
module AesTables {
  import opened Gf256
  import opened Columns
  import opened Words
  import opened Fips197

  function Te0(box: SBox, x: bv8): bv32 { var s := box.forward(x); Pack(Times2(s), s, s, Times3(s)) }
  function Te1(box: SBox, x: bv8): bv32 { var s := box.forward(x); Pack(Times3(s), Times2(s), s, s) }
  function Te2(box: SBox, x: bv8): bv32 { var s := box.forward(x); Pack(s, Times3(s), Times2(s), s) }
  function Te3(box: SBox, x: bv8): bv32 { var s := box.forward(x); Pack(s, s, Times3(s), Times2(s)) }

  function Te4_3(box: SBox, x: bv8): bv32 { Pack(box.forward(x), 0, 0, 0) }
  function Te4_2(box: SBox, x: bv8): bv32 { Pack(0, box.forward(x), 0, 0) }
  function Te4_1(box: SBox, x: bv8): bv32 { Pack(0, 0, box.forward(x), 0) }
  function Te4_0(box: SBox, x: bv8): bv32 { Pack(0, 0, 0, box.forward(x)) }

  /** Tks0 to Tks3 are the inverse column tables without the inverse S-box. */
  function Tks0(x: bv8): bv32 { Pack(TimesE(x), Times9(x), TimesD(x), TimesB(x)) }
  function Tks1(x: bv8): bv32 { Pack(TimesB(x), TimesE(x), Times9(x), TimesD(x)) }
  function Tks2(x: bv8): bv32 { Pack(TimesD(x), TimesB(x), TimesE(x), Times9(x)) }
  function Tks3(x: bv8): bv32 { Pack(Times9(x), TimesD(x), TimesB(x), TimesE(x)) }

  function Td0(box: SBox, x: bv8): bv32 { Tks0(box.inverse(x)) }
  function Td1(box: SBox, x: bv8): bv32 { Tks1(box.inverse(x)) }
  function Td2(box: SBox, x: bv8): bv32 { Tks2(box.inverse(x)) }
  function Td3(box: SBox, x: bv8): bv32 { Tks3(box.inverse(x)) }
  function Td4(box: SBox, x: bv8): bv32 { var s := box.inverse(x); Pack(s, s, s, s) }

  const RCON: seq<bv32> := [
    0x01000000, 0x02000000, 0x04000000, 0x08000000, 0x10000000,
    0x20000000, 0x40000000, 0x80000000, 0x1b000000, 0x36000000]

  // ----- Four lookups make a column

  /** The four T-table lookups substitute the bytes and mix the column. */
  lemma TeColumn(box: SBox, a: bv8, b: bv8, c: bv8, d: bv8)
    ensures ToColumn(Xor(Xor(Xor(Te0(box, a), Te1(box, b)), Te2(box, c)), Te3(box, d)))
         == MixColumn(MapColumn(box.forward, Column(a, b, c, d)))
  {
    hide Add, Xor, Pack, ToColumn, Times2, Times3;
    var s, t, u, v := box.forward(a), box.forward(b), box.forward(c), box.forward(d);
    Xor4ToColumn(Te0(box, a), Te1(box, b), Te2(box, c), Te3(box, d));
    PackToColumn(Times2(s), s, s, Times3(s));
    PackToColumn(Times3(t), Times2(t), t, t);
    PackToColumn(u, Times3(u), Times2(u), u);
    PackToColumn(v, v, Times3(v), Times2(v));
  }

  /** Tks0 to Tks3 compute InvMixColumns on one column. */
  lemma TksColumn(a: bv8, b: bv8, c: bv8, d: bv8)
    ensures ToColumn(Xor(Xor(Xor(Tks0(a), Tks1(b)), Tks2(c)), Tks3(d))) == InvMixColumn(Column(a, b, c, d))
  {
    hide Add, Xor, Pack, ToColumn, Times9, TimesB, TimesD, TimesE;
    Xor4ToColumn(Tks0(a), Tks1(b), Tks2(c), Tks3(d));
    PackToColumn(TimesE(a), Times9(a), TimesD(a), TimesB(a));
    PackToColumn(TimesB(b), TimesE(b), Times9(b), TimesD(b));
    PackToColumn(TimesD(c), TimesB(c), TimesE(c), Times9(c));
    PackToColumn(Times9(d), TimesD(d), TimesB(d), TimesE(d));
  }

  lemma PackBytes(a: bv8, b: bv8, c: bv8, d: bv8)
    ensures ToColumn(Xor(Xor(Xor(Pack(a, 0, 0, 0), Pack(0, b, 0, 0)), Pack(0, 0, c, 0)), Pack(0, 0, 0, d)))
            == Column(a, b, c, d)
  {
    hide Add, Xor, Pack, ToColumn;
    Xor4ToColumn(Pack(a, 0, 0, 0), Pack(0, b, 0, 0), Pack(0, 0, c, 0), Pack(0, 0, 0, d));
    PackToColumn(a, 0, 0, 0);
    PackToColumn(0, b, 0, 0);
    PackToColumn(0, 0, c, 0);
    PackToColumn(0, 0, 0, d);
    AddZero(0);
    AddZero(a);
    AddZero(b);
    AddZero(c);
    AddZero(d);
  }

  /** The round constants are the powers of x, in the first byte of the word. */
  lemma RconIsPowers(i: nat)
    requires i < |RCON|
    ensures RCON[i] == ToWord(Rcon(i + 1))
  {
    assert XPower(1) == 0x02;
    assert XPower(2) == 0x04;
    assert XPower(3) == 0x08;
    assert XPower(4) == 0x10;
    assert XPower(5) == 0x20;
    assert XPower(6) == 0x40;
    assert XPower(7) == 0x80;
    assert XPower(8) == 0x1b;
    assert XPower(9) == 0x36;
  }
}
