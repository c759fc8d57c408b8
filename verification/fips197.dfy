/**
 * The Advanced Encryption Standard as FIPS 197 describes it, over a byte state.
 *
 * The cipher is stated for any byte substitution, column map and column addition;
 * AesLayers supplies MixColumns and the addition of GF(2^8), and leaves the S-box as the one parameter.
 */
module Fips197 {
  import opened Gf256
  import opened Columns

  /** The state, column by column: byte r of column c is input byte r + 4c (section 3.4). */
  datatype Block = Block(c0: Column, c1: Column, c2: Column, c3: Column)

  datatype Layers = Layers(sub: bv8 -> bv8, subInv: bv8 -> bv8, mix: Column -> Column, mixInv: Column -> Column,
                           add: (Column, Column) -> Column)
  {
    /** What decryption needs of the layers: they can be undone, and mixInv respects addition. */
    ghost predicate Invertible() {
      && (forall x {:trigger subInv(sub(x))} :: subInv(sub(x)) == x)
      && (forall c {:trigger mixInv(mix(c))} :: mixInv(mix(c)) == c)
      && (forall c, d {:trigger add(add(c, d), d)} :: add(add(c, d), d) == c)
      && (forall c, d {:trigger mixInv(add(c, d))} :: mixInv(add(c, d)) == add(mixInv(c), mixInv(d)))
    }
  }

  datatype SBox = SBox(forward: bv8 -> bv8, inverse: bv8 -> bv8)
  {
    ghost predicate Bijective() {
      && (forall x :: inverse(forward(x)) == x)
      && (forall y :: forward(inverse(y)) == y)
    }
  }

  function AesLayers(box: SBox): Layers {
    Layers(box.forward, box.inverse, c => MixColumn(c), c => InvMixColumn(c), (c, d) => AddColumns(c, d))
  }

  /** For every bijective S-box, the layers of AES can be undone. */
  lemma AesLayersInvertible(box: SBox)
    requires box.Bijective()
    ensures AesLayers(box).Invertible()
  {
    hide AddColumns, MixColumn, InvMixColumn;
    forall c ensures InvMixColumn(MixColumn(c)) == c {
      InvMixColumnUndoes(c);
    }
    forall c, d ensures AddColumns(AddColumns(c, d), d) == c {
      AddColumnsCancels(c, d);
    }
    forall c, d ensures InvMixColumn(AddColumns(c, d)) == AddColumns(InvMixColumn(c), InvMixColumn(d)) {
      InvMixColumnLinear(c, d);
    }
  }

  // ----- Transformations of the state (sections 5.1 and 5.3)

  function MapColumn(f: bv8 -> bv8, c: Column): Column {
    Column(f(c.b0), f(c.b1), f(c.b2), f(c.b3))
  }

  function SubBytes(f: bv8 -> bv8, s: Block): Block {
    Block(MapColumn(f, s.c0), MapColumn(f, s.c1), MapColumn(f, s.c2), MapColumn(f, s.c3))
  }

  /** Row r moves r places to the left. */
  function ShiftRows(s: Block): Block {
    Block(Column(s.c0.b0, s.c1.b1, s.c2.b2, s.c3.b3),
          Column(s.c1.b0, s.c2.b1, s.c3.b2, s.c0.b3),
          Column(s.c2.b0, s.c3.b1, s.c0.b2, s.c1.b3),
          Column(s.c3.b0, s.c0.b1, s.c1.b2, s.c2.b3))
  }

  /** Row r moves r places to the right. */
  function InvShiftRows(s: Block): Block {
    Block(Column(s.c0.b0, s.c3.b1, s.c2.b2, s.c1.b3),
          Column(s.c1.b0, s.c0.b1, s.c3.b2, s.c2.b3),
          Column(s.c2.b0, s.c1.b1, s.c0.b2, s.c3.b3),
          Column(s.c3.b0, s.c2.b1, s.c1.b2, s.c0.b3))
  }

  function MixColumns(f: Column -> Column, s: Block): Block {
    Block(f(s.c0), f(s.c1), f(s.c2), f(s.c3))
  }

  function AddRoundKey(f: (Column, Column) -> Column, s: Block, k: Block): Block {
    Block(f(s.c0, k.c0), f(s.c1, k.c1), f(s.c2, k.c2), f(s.c3, k.c3))
  }

  // ----- Cipher (section 5.1), InvCipher (5.3) and EqInvCipher (5.3.5), over the round keys ks

  /** The state after the initial key addition and r full rounds. */
  function Rounds(p: Layers, ks: seq<Block>, input: Block, r: nat): Block
    requires r < |ks|
  {
    if r == 0 then AddRoundKey(p.add, input, ks[0])
    else AddRoundKey(p.add, MixColumns(p.mix, ShiftRows(SubBytes(p.sub, Rounds(p, ks, input, r - 1)))), ks[r])
  }

  function Cipher(p: Layers, ks: seq<Block>, nr: nat, input: Block): Block
    requires 1 <= nr < |ks|
  {
    AddRoundKey(p.add, ShiftRows(SubBytes(p.sub, Rounds(p, ks, input, nr - 1))), ks[nr])
  }

  /** The state after the key addition with round key nr and r full inverse rounds. */
  function InvRounds(p: Layers, ks: seq<Block>, nr: nat, input: Block, r: nat): Block
    requires r <= nr < |ks|
  {
    if r == 0 then AddRoundKey(p.add, input, ks[nr])
    else MixColumns(p.mixInv,
                    AddRoundKey(p.add, SubBytes(p.subInv, InvShiftRows(InvRounds(p, ks, nr, input, r - 1))),
                                ks[nr - r]))
  }

  function InvCipher(p: Layers, ks: seq<Block>, nr: nat, input: Block): Block
    requires 1 <= nr < |ks|
  {
    AddRoundKey(p.add, SubBytes(p.subInv, InvShiftRows(InvRounds(p, ks, nr, input, nr - 1))), ks[0])
  }

  /** The equivalent inverse cipher has the order of steps of Cipher, and its own round keys dks. */
  function EqInvRounds(p: Layers, dks: seq<Block>, input: Block, r: nat): Block
    requires r < |dks|
  {
    if r == 0 then AddRoundKey(p.add, input, dks[0])
    else AddRoundKey(p.add, MixColumns(p.mixInv, InvShiftRows(SubBytes(p.subInv, EqInvRounds(p, dks, input, r - 1)))),
                     dks[r])
  }

  function EqInvCipher(p: Layers, dks: seq<Block>, nr: nat, input: Block): Block
    requires 1 <= nr < |dks|
  {
    AddRoundKey(p.add, InvShiftRows(SubBytes(p.subInv, EqInvRounds(p, dks, input, nr - 1))), dks[nr])
  }

  /** The round keys in reverse order, all but the outer two passed through mixInv. */
  function EqInvKeys(p: Layers, ks: seq<Block>, nr: nat): (dks: seq<Block>)
    requires nr < |ks|
    ensures |dks| == nr + 1
  {
    seq(nr + 1, r requires 0 <= r <= nr =>
      if r == 0 || r == nr then ks[nr - r] else MixColumns(p.mixInv, ks[nr - r]))
  }

  // ----- Key expansion (section 5.2)

  /** The powers of x that the round constants hold. */
  function XPower(n: nat): bv8 {
    if n == 0 then 1 else Times2(XPower(n - 1))
  }

  function RotWord(c: Column): Column { Column(c.b1, c.b2, c.b3, c.b0) }

  function Rcon(i: nat): Column
    requires 1 <= i
  {
    Column(XPower(i - 1), 0, 0, 0)
  }

  predicate KeyLength(n: int) { n == 16 || n == 24 || n == 32 }

  /** Nk = 4, 6, 8 gives Nr = 10, 12, 14. */
  function RoundCount(key: seq<bv8>): nat
    requires KeyLength(|key|)
  {
    |key| / 4 + 6
  }

  function KeyWord(sub: bv8 -> bv8, key: seq<bv8>, i: nat): Column
    requires KeyLength(|key|)
  {
    var nk := |key| / 4;
    if i < nk then Column(key[4 * i], key[4 * i + 1], key[4 * i + 2], key[4 * i + 3])
    else
      var temp := KeyWord(sub, key, i - 1);
      AddColumns(KeyWord(sub, key, i - nk),
                 if i % nk == 0 then AddColumns(MapColumn(sub, RotWord(temp)), Rcon(i / nk))
                 else if nk > 6 && i % nk == 4 then MapColumn(sub, temp)
                 else temp)
  }

  /** The words of the expanded key, four to a round. */
  function KeyExpansion(sub: bv8 -> bv8, key: seq<bv8>): (w: seq<Column>)
    requires KeyLength(|key|)
    ensures |w| == 4 * (RoundCount(key) + 1)
  {
    seq(4 * (RoundCount(key) + 1), i requires 0 <= i => KeyWord(sub, key, i))
  }

  /** Words 4r to 4r+3, as the round key that AddRoundKey uses. */
  function RoundKey(w: seq<Column>, r: nat): Block
    requires 4 * r + 3 < |w|
  {
    Block(w[4 * r], w[4 * r + 1], w[4 * r + 2], w[4 * r + 3])
  }

  function RoundKeys(w: seq<Column>): (ks: seq<Block>)
    ensures |ks| == |w| / 4
  {
    seq(|w| / 4, r requires 0 <= r < |w| / 4 => RoundKey(w, r))
  }
}

/** InvCipher undoes Cipher, and EqInvCipher with the transformed round keys is InvCipher. */
module Fips197Inverse {
  import opened Fips197

  lemma AddRoundKeyCancels(p: Layers, s: Block, k: Block)
    requires p.Invertible()
    ensures AddRoundKey(p.add, AddRoundKey(p.add, s, k), k) == s
  {}

  lemma SubAndShiftCancel(p: Layers, s: Block)
    requires p.Invertible()
    ensures SubBytes(p.subInv, InvShiftRows(ShiftRows(SubBytes(p.sub, s)))) == s
  {}

  lemma MixColumnsCancels(p: Layers, s: Block)
    requires p.Invertible()
    ensures MixColumns(p.mixInv, MixColumns(p.mix, s)) == s
  {}

  /** The state after r inverse rounds is the one encryption had before the last two steps of round nr - r. */
  lemma {:induction false} InvRoundsMirror(p: Layers, ks: seq<Block>, nr: nat, input: Block, r: nat)
    requires p.Invertible() && r < nr < |ks|
    ensures InvRounds(p, ks, nr, Cipher(p, ks, nr, input), r)
            == ShiftRows(SubBytes(p.sub, Rounds(p, ks, input, nr - 1 - r)))
  {
    hide p.Invertible, SubBytes, ShiftRows, InvShiftRows, MixColumns, AddRoundKey;
    if r == 0 {
      AddRoundKeyCancels(p, ShiftRows(SubBytes(p.sub, Rounds(p, ks, input, nr - 1))), ks[nr]);
    } else {
      InvRoundsMirror(p, ks, nr, input, r - 1);
      SubAndShiftCancel(p, Rounds(p, ks, input, nr - r));
      var before := ShiftRows(SubBytes(p.sub, Rounds(p, ks, input, nr - 1 - r)));
      AddRoundKeyCancels(p, MixColumns(p.mix, before), ks[nr - r]);
      MixColumnsCancels(p, before);
    }
  }

  /** The straightforward inverse cipher undoes the cipher, for all round keys and numbers of rounds. */
  lemma InvCipherUndoesCipher(p: Layers, ks: seq<Block>, nr: nat, input: Block)
    requires p.Invertible() && 1 <= nr < |ks|
    ensures InvCipher(p, ks, nr, Cipher(p, ks, nr, input)) == input
  {
    hide p.Invertible, SubBytes, ShiftRows, InvShiftRows, MixColumns, AddRoundKey;
    InvRoundsMirror(p, ks, nr, input, nr - 1);
    SubAndShiftCancel(p, Rounds(p, ks, input, 0));
    AddRoundKeyCancels(p, input, ks[0]);
  }

  lemma MixInvAddRoundKey(p: Layers, s: Block, k: Block)
    requires p.Invertible()
    ensures MixColumns(p.mixInv, AddRoundKey(p.add, s, k))
            == AddRoundKey(p.add, MixColumns(p.mixInv, s), MixColumns(p.mixInv, k))
  {}

  lemma SubAndShiftCommute(f: bv8 -> bv8, s: Block)
    ensures InvShiftRows(SubBytes(f, s)) == SubBytes(f, InvShiftRows(s))
  {}

  lemma {:induction false} EqInvRoundsAgree(p: Layers, ks: seq<Block>, nr: nat, input: Block, r: nat)
    requires p.Invertible() && r < nr < |ks|
    ensures EqInvRounds(p, EqInvKeys(p, ks, nr), input, r) == InvRounds(p, ks, nr, input, r)
  {
    hide p.Invertible, SubBytes, InvShiftRows, MixColumns, AddRoundKey;
    if r > 0 {
      EqInvRoundsAgree(p, ks, nr, input, r - 1);
      var before := InvRounds(p, ks, nr, input, r - 1);
      SubAndShiftCommute(p.subInv, before);
      MixInvAddRoundKey(p, SubBytes(p.subInv, InvShiftRows(before)), ks[nr - r]);
    }
  }

  /** Section 5.3.5 refines section 5.3: the transformed round keys pay for the changed order of steps. */
  lemma EqInvCipherIsInvCipher(p: Layers, ks: seq<Block>, nr: nat, input: Block)
    requires p.Invertible() && 1 <= nr < |ks|
    ensures EqInvCipher(p, EqInvKeys(p, ks, nr), nr, input) == InvCipher(p, ks, nr, input)
  {
    hide p.Invertible, SubBytes, InvShiftRows, MixColumns, AddRoundKey;
    EqInvRoundsAgree(p, ks, nr, input, nr - 1);
    SubAndShiftCommute(p.subInv, InvRounds(p, ks, nr, input, nr - 1));
  }

  // ----- Round keys past number nr are never read

  lemma {:induction false} RoundsPrefix(p: Layers, ks: seq<Block>, n: nat, input: Block, r: nat)
    requires r < n <= |ks|
    ensures Rounds(p, ks[..n], input, r) == Rounds(p, ks, input, r)
  {
    hide SubBytes, ShiftRows, MixColumns, AddRoundKey;
    if r > 0 {
      RoundsPrefix(p, ks, n, input, r - 1);
    }
  }

  lemma CipherPrefix(p: Layers, ks: seq<Block>, nr: nat, input: Block)
    requires 1 <= nr < |ks|
    ensures Cipher(p, ks[..nr + 1], nr, input) == Cipher(p, ks, nr, input)
  {
    hide SubBytes, ShiftRows, AddRoundKey;
    RoundsPrefix(p, ks, nr + 1, input, nr - 1);
  }

  lemma {:induction false} EqInvRoundsPrefix(p: Layers, dks: seq<Block>, n: nat, input: Block, r: nat)
    requires r < n <= |dks|
    ensures EqInvRounds(p, dks[..n], input, r) == EqInvRounds(p, dks, input, r)
  {
    hide SubBytes, InvShiftRows, MixColumns, AddRoundKey;
    if r > 0 {
      EqInvRoundsPrefix(p, dks, n, input, r - 1);
    }
  }

  lemma EqInvCipherPrefix(p: Layers, dks: seq<Block>, nr: nat, input: Block)
    requires 1 <= nr < |dks|
    ensures EqInvCipher(p, dks[..nr + 1], nr, input) == EqInvCipher(p, dks, nr, input)
  {
    hide SubBytes, InvShiftRows, AddRoundKey;
    EqInvRoundsPrefix(p, dks, nr + 1, input, nr - 1);
  }
}
