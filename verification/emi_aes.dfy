/** The block functions of emi_aes.c, proved against FIPS 197. */
module EmiAes {
  import opened Columns
  import opened Fips197
  import opened Words
  import opened AesTables

  // ----- Words and bytes in memory, as columns and blocks

  function ToBlock(w0: bv32, w1: bv32, w2: bv32, w3: bv32): Block {
    Block(ToColumn(w0), ToColumn(w1), ToColumn(w2), ToColumn(w3))
  }

  function ToColumns(words: seq<bv32>): (w: seq<Column>)
    ensures |w| == |words|
  {
    seq(|words|, i requires 0 <= i < |words| => ToColumn(words[i]))
  }

  /** The round keys that a word array holds. */
  function KeysOf(words: seq<bv32>): (ks: seq<Block>)
    ensures |ks| == |words| / 4
  {
    RoundKeys(ToColumns(words))
  }

  /** The state that 16 bytes of memory hold. */
  function BlockAt(bytes: seq<bv8>): Block
    requires 16 <= |bytes|
  {
    Block(Column(bytes[0], bytes[1], bytes[2], bytes[3]), Column(bytes[4], bytes[5], bytes[6], bytes[7]),
          Column(bytes[8], bytes[9], bytes[10], bytes[11]), Column(bytes[12], bytes[13], bytes[14], bytes[15]))
  }

  lemma KeysOfAt(words: seq<bv32>, r: nat)
    requires 4 * r + 3 < |words|
    ensures r < |KeysOf(words)|
    ensures KeysOf(words)[r] == ToBlock(words[4 * r], words[4 * r + 1], words[4 * r + 2], words[4 * r + 3])
  {
    hide ToColumn;
  }

  /** LOAD32H. */
  function Load32H(y: seq<bv8>, at: nat): bv32
    requires at + 4 <= |y|
  {
    Pack(y[at], y[at + 1], y[at + 2], y[at + 3])
  }

  /** STORE32H. */
  method Store32H(x: bv32, y: array<bv8>, at: nat)
    requires at + 4 <= y.Length
    modifies y
    ensures y[at] == Byte(x, 3) && y[at + 1] == Byte(x, 2) && y[at + 2] == Byte(x, 1) && y[at + 3] == Byte(x, 0)
    ensures forall j | 0 <= j < y.Length && !(at <= j < at + 4) :: y[j] == old(y[j])
  {
    hide Byte;
    y[at] := Byte(x, 3);
    y[at + 1] := Byte(x, 2);
    y[at + 2] := Byte(x, 1);
    y[at + 3] := Byte(x, 0);
  }

  // ----- One round at a time

  function EncWord(box: SBox, a: bv32, b: bv32, c: bv32, d: bv32): bv32 {
    Xor(Xor(Xor(Te0(box, Byte(a, 3)), Te1(box, Byte(b, 2))), Te2(box, Byte(c, 1))), Te3(box, Byte(d, 0)))
  }

  function LastEncWord(box: SBox, a: bv32, b: bv32, c: bv32, d: bv32): bv32 {
    Xor(Xor(Xor(Te4_3(box, Byte(a, 3)), Te4_2(box, Byte(b, 2))), Te4_1(box, Byte(c, 1))), Te4_0(box, Byte(d, 0)))
  }

  function DecWord(box: SBox, a: bv32, b: bv32, c: bv32, d: bv32): bv32 {
    Xor(Xor(Xor(Td0(box, Byte(a, 3)), Td1(box, Byte(b, 2))), Td2(box, Byte(c, 1))), Td3(box, Byte(d, 0)))
  }

  function LastDecWord(box: SBox, a: bv32, b: bv32, c: bv32, d: bv32): bv32 {
    Xor(Xor(Xor(Td4(box, Byte(a, 3)) & 0xff000000, Td4(box, Byte(b, 2)) & 0x00ff0000),
            Td4(box, Byte(c, 1)) & 0x0000ff00), Td4(box, Byte(d, 0)) & 0x000000ff)
  }

  /** One T-table round is one round of the cipher. */
  lemma EncRound(box: SBox, s0: bv32, s1: bv32, s2: bv32, s3: bv32, k0: bv32, k1: bv32, k2: bv32, k3: bv32)
    ensures ToBlock(Xor(EncWord(box, s0, s1, s2, s3), k0), Xor(EncWord(box, s1, s2, s3, s0), k1),
                    Xor(EncWord(box, s2, s3, s0, s1), k2), Xor(EncWord(box, s3, s0, s1, s2), k3))
         == (var p := AesLayers(box);
             AddRoundKey(p.add, MixColumns(p.mix, ShiftRows(SubBytes(p.sub, ToBlock(s0, s1, s2, s3)))),
                         ToBlock(k0, k1, k2, k3)))
  {
    EncColumn(box, s0, s1, s2, s3, k0);
    EncColumn(box, s1, s2, s3, s0, k1);
    EncColumn(box, s2, s3, s0, s1, k2);
    EncColumn(box, s3, s0, s1, s2, k3);
    hide Xor, Byte, EncWord, AddColumns, MixColumn;
  }

  lemma EncColumn(box: SBox, a: bv32, b: bv32, c: bv32, d: bv32, k: bv32)
    ensures ToColumn(Xor(EncWord(box, a, b, c, d), k))
         == (var s := Column(ToColumn(a).b0, ToColumn(b).b1, ToColumn(c).b2, ToColumn(d).b3);
             AddColumns(MixColumn(MapColumn(box.forward, s)), ToColumn(k)))
  {
    hide Xor, Byte, Te0, Te1, Te2, Te3, MixColumn, AddColumns;
    XorToColumn(EncWord(box, a, b, c, d), k);
    TeColumn(box, Byte(a, 3), Byte(b, 2), Byte(c, 1), Byte(d, 0));
  }

  lemma LastEncRound(box: SBox, s0: bv32, s1: bv32, s2: bv32, s3: bv32, k0: bv32, k1: bv32, k2: bv32, k3: bv32)
    ensures ToBlock(Xor(LastEncWord(box, s0, s1, s2, s3), k0), Xor(LastEncWord(box, s1, s2, s3, s0), k1),
                    Xor(LastEncWord(box, s2, s3, s0, s1), k2), Xor(LastEncWord(box, s3, s0, s1, s2), k3))
         == (var p := AesLayers(box);
             AddRoundKey(p.add, ShiftRows(SubBytes(p.sub, ToBlock(s0, s1, s2, s3))), ToBlock(k0, k1, k2, k3)))
  {
    LastEncColumn(box, s0, s1, s2, s3, k0);
    LastEncColumn(box, s1, s2, s3, s0, k1);
    LastEncColumn(box, s2, s3, s0, s1, k2);
    LastEncColumn(box, s3, s0, s1, s2, k3);
    hide Xor, Byte, LastEncWord, AddColumns;
  }

  lemma LastEncColumn(box: SBox, a: bv32, b: bv32, c: bv32, d: bv32, k: bv32)
    ensures ToColumn(Xor(LastEncWord(box, a, b, c, d), k))
         == AddColumns(MapColumn(box.forward, Column(ToColumn(a).b0, ToColumn(b).b1, ToColumn(c).b2, ToColumn(d).b3)),
                       ToColumn(k))
  {
    hide Xor, Byte, Pack, AddColumns;
    XorToColumn(LastEncWord(box, a, b, c, d), k);
    PackBytes(box.forward(Byte(a, 3)), box.forward(Byte(b, 2)), box.forward(Byte(c, 1)), box.forward(Byte(d, 0)));
  }

  lemma DecRound(box: SBox, s0: bv32, s1: bv32, s2: bv32, s3: bv32, k0: bv32, k1: bv32, k2: bv32, k3: bv32)
    ensures ToBlock(Xor(DecWord(box, s0, s3, s2, s1), k0), Xor(DecWord(box, s1, s0, s3, s2), k1),
                    Xor(DecWord(box, s2, s1, s0, s3), k2), Xor(DecWord(box, s3, s2, s1, s0), k3))
         == (var p := AesLayers(box);
             AddRoundKey(p.add, MixColumns(p.mixInv, InvShiftRows(SubBytes(p.subInv, ToBlock(s0, s1, s2, s3)))),
                         ToBlock(k0, k1, k2, k3)))
  {
    DecColumn(box, s0, s3, s2, s1, k0);
    DecColumn(box, s1, s0, s3, s2, k1);
    DecColumn(box, s2, s1, s0, s3, k2);
    DecColumn(box, s3, s2, s1, s0, k3);
    hide Xor, Byte, DecWord, AddColumns, InvMixColumn;
  }

  lemma DecColumn(box: SBox, a: bv32, b: bv32, c: bv32, d: bv32, k: bv32)
    ensures ToColumn(Xor(DecWord(box, a, b, c, d), k))
         == (var s := Column(ToColumn(a).b0, ToColumn(b).b1, ToColumn(c).b2, ToColumn(d).b3);
             AddColumns(InvMixColumn(MapColumn(box.inverse, s)), ToColumn(k)))
  {
    hide Xor, Byte, Tks0, Tks1, Tks2, Tks3, InvMixColumn, AddColumns;
    XorToColumn(DecWord(box, a, b, c, d), k);
    TksColumn(box.inverse(Byte(a, 3)), box.inverse(Byte(b, 2)), box.inverse(Byte(c, 1)), box.inverse(Byte(d, 0)));
  }

  lemma LastDecRound(box: SBox, s0: bv32, s1: bv32, s2: bv32, s3: bv32, k0: bv32, k1: bv32, k2: bv32, k3: bv32)
    ensures ToBlock(Xor(LastDecWord(box, s0, s3, s2, s1), k0), Xor(LastDecWord(box, s1, s0, s3, s2), k1),
                    Xor(LastDecWord(box, s2, s1, s0, s3), k2), Xor(LastDecWord(box, s3, s2, s1, s0), k3))
         == (var p := AesLayers(box);
             AddRoundKey(p.add, InvShiftRows(SubBytes(p.subInv, ToBlock(s0, s1, s2, s3))), ToBlock(k0, k1, k2, k3)))
  {
    LastDecColumn(box, s0, s3, s2, s1, k0);
    LastDecColumn(box, s1, s0, s3, s2, k1);
    LastDecColumn(box, s2, s1, s0, s3, k2);
    LastDecColumn(box, s3, s2, s1, s0, k3);
    hide Xor, Byte, LastDecWord, AddColumns;
  }

  lemma LastDecColumn(box: SBox, a: bv32, b: bv32, c: bv32, d: bv32, k: bv32)
    ensures ToColumn(Xor(LastDecWord(box, a, b, c, d), k))
         == AddColumns(MapColumn(box.inverse, Column(ToColumn(a).b0, ToColumn(b).b1, ToColumn(c).b2, ToColumn(d).b3)),
                       ToColumn(k))
  {
    hide Xor, Byte, Pack, AddColumns;
    var w, x, y, z := box.inverse(Byte(a, 3)), box.inverse(Byte(b, 2)), box.inverse(Byte(c, 1)),
        box.inverse(Byte(d, 0));
    XorToColumn(LastDecWord(box, a, b, c, d), k);
    MaskedPack(w);
    MaskedPack(x);
    MaskedPack(y);
    MaskedPack(z);
    PackBytes(w, x, y, z);
  }

  lemma LoadedBlock(bytes: seq<bv8>)
    requires 16 <= |bytes|
    ensures ToBlock(Load32H(bytes, 0), Load32H(bytes, 4), Load32H(bytes, 8), Load32H(bytes, 12)) == BlockAt(bytes)
  {
    hide Pack, ToColumn;
    PackToColumn(bytes[0], bytes[1], bytes[2], bytes[3]);
    PackToColumn(bytes[4], bytes[5], bytes[6], bytes[7]);
    PackToColumn(bytes[8], bytes[9], bytes[10], bytes[11]);
    PackToColumn(bytes[12], bytes[13], bytes[14], bytes[15]);
  }

  /** The initial key addition on loaded words. */
  lemma FirstRound(box: SBox, bytes: seq<bv8>, k0: bv32, k1: bv32, k2: bv32, k3: bv32)
    requires 16 <= |bytes|
    ensures ToBlock(Xor(Load32H(bytes, 0), k0), Xor(Load32H(bytes, 4), k1), Xor(Load32H(bytes, 8), k2),
                    Xor(Load32H(bytes, 12), k3))
         == AddRoundKey(AesLayers(box).add, BlockAt(bytes), ToBlock(k0, k1, k2, k3))
  {
    hide Xor, ToColumn, AddColumns, BlockAt, Load32H;
    LoadedBlock(bytes);
    XorToColumn(Load32H(bytes, 0), k0);
    XorToColumn(Load32H(bytes, 4), k1);
    XorToColumn(Load32H(bytes, 8), k2);
    XorToColumn(Load32H(bytes, 12), k3);
  }

  /** Storing the four words of a block, one after the other. */
  method StoreBlock(s0: bv32, s1: bv32, s2: bv32, s3: bv32, out: array<bv8>)
    requires 16 <= out.Length
    modifies out
    ensures BlockAt(out[..]) == ToBlock(s0, s1, s2, s3)
    ensures out[16..] == old(out[16..])
  {
    hide Byte;
    Store32H(s0, out, 0);
    Store32H(s1, out, 4);
    Store32H(s2, out, 8);
    Store32H(s3, out, 12);
  }

  lemma EncStart(box: SBox, w: seq<bv32>, bytes: seq<bv8>)
    requires 16 <= |bytes| && 4 <= |w|
    ensures ToBlock(Xor(Load32H(bytes, 0), w[0]), Xor(Load32H(bytes, 4), w[1]), Xor(Load32H(bytes, 8), w[2]),
                    Xor(Load32H(bytes, 12), w[3]))
         == Rounds(AesLayers(box), KeysOf(w), BlockAt(bytes), 0)
  {
    hide Xor, Load32H, ToBlock, BlockAt, KeysOf, AesLayers, AddRoundKey;
    FirstRound(box, bytes, w[0], w[1], w[2], w[3]);
    KeysOfAt(w, 0);
  }

  lemma EncStep(box: SBox, w: seq<bv32>, input: Block, r: nat, s0: bv32, s1: bv32, s2: bv32, s3: bv32)
    requires 4 * r + 7 < |w|
    requires ToBlock(s0, s1, s2, s3) == Rounds(AesLayers(box), KeysOf(w), input, r)
    ensures ToBlock(Xor(EncWord(box, s0, s1, s2, s3), w[4 * r + 4]), Xor(EncWord(box, s1, s2, s3, s0), w[4 * r + 5]),
                    Xor(EncWord(box, s2, s3, s0, s1), w[4 * r + 6]), Xor(EncWord(box, s3, s0, s1, s2), w[4 * r + 7]))
         == Rounds(AesLayers(box), KeysOf(w), input, r + 1)
  {
    hide Xor, EncWord, ToBlock, KeysOf, AesLayers, AddRoundKey, MixColumns, ShiftRows, SubBytes;
    EncRound(box, s0, s1, s2, s3, w[4 * r + 4], w[4 * r + 5], w[4 * r + 6], w[4 * r + 7]);
    KeysOfAt(w, r + 1);
  }

  lemma EncFinish(box: SBox, w: seq<bv32>, input: Block, r: nat, t0: bv32, t1: bv32, t2: bv32, t3: bv32)
    requires 4 * r + 7 < |w|
    requires ToBlock(t0, t1, t2, t3) == Rounds(AesLayers(box), KeysOf(w), input, r)
    ensures ToBlock(Xor(LastEncWord(box, t0, t1, t2, t3), w[4 * r + 4]),
                    Xor(LastEncWord(box, t1, t2, t3, t0), w[4 * r + 5]),
                    Xor(LastEncWord(box, t2, t3, t0, t1), w[4 * r + 6]),
                    Xor(LastEncWord(box, t3, t0, t1, t2), w[4 * r + 7]))
         == Cipher(AesLayers(box), KeysOf(w), r + 1, input)
  {
    hide Xor, LastEncWord, ToBlock, KeysOf, AesLayers, AddRoundKey, ShiftRows, SubBytes;
    LastEncRound(box, t0, t1, t2, t3, w[4 * r + 4], w[4 * r + 5], w[4 * r + 6], w[4 * r + 7]);
    KeysOfAt(w, r + 1);
  }

  lemma DecStart(box: SBox, w: seq<bv32>, bytes: seq<bv8>)
    requires 16 <= |bytes| && 4 <= |w|
    ensures ToBlock(Xor(Load32H(bytes, 0), w[0]), Xor(Load32H(bytes, 4), w[1]), Xor(Load32H(bytes, 8), w[2]),
                    Xor(Load32H(bytes, 12), w[3]))
         == EqInvRounds(AesLayers(box), KeysOf(w), BlockAt(bytes), 0)
  {
    hide Xor, Load32H, ToBlock, BlockAt, KeysOf, AesLayers, AddRoundKey;
    FirstRound(box, bytes, w[0], w[1], w[2], w[3]);
    KeysOfAt(w, 0);
  }

  lemma DecStep(box: SBox, w: seq<bv32>, input: Block, r: nat, s0: bv32, s1: bv32, s2: bv32, s3: bv32)
    requires 4 * r + 7 < |w|
    requires ToBlock(s0, s1, s2, s3) == EqInvRounds(AesLayers(box), KeysOf(w), input, r)
    ensures ToBlock(Xor(DecWord(box, s0, s3, s2, s1), w[4 * r + 4]), Xor(DecWord(box, s1, s0, s3, s2), w[4 * r + 5]),
                    Xor(DecWord(box, s2, s1, s0, s3), w[4 * r + 6]), Xor(DecWord(box, s3, s2, s1, s0), w[4 * r + 7]))
         == EqInvRounds(AesLayers(box), KeysOf(w), input, r + 1)
  {
    hide Xor, DecWord, ToBlock, KeysOf, AesLayers, AddRoundKey, MixColumns, InvShiftRows, SubBytes;
    DecRound(box, s0, s1, s2, s3, w[4 * r + 4], w[4 * r + 5], w[4 * r + 6], w[4 * r + 7]);
    KeysOfAt(w, r + 1);
  }

  lemma DecFinish(box: SBox, w: seq<bv32>, input: Block, r: nat, t0: bv32, t1: bv32, t2: bv32, t3: bv32)
    requires 4 * r + 7 < |w|
    requires ToBlock(t0, t1, t2, t3) == EqInvRounds(AesLayers(box), KeysOf(w), input, r)
    ensures ToBlock(Xor(LastDecWord(box, t0, t3, t2, t1), w[4 * r + 4]),
                    Xor(LastDecWord(box, t1, t0, t3, t2), w[4 * r + 5]),
                    Xor(LastDecWord(box, t2, t1, t0, t3), w[4 * r + 6]),
                    Xor(LastDecWord(box, t3, t2, t1, t0), w[4 * r + 7]))
         == EqInvCipher(AesLayers(box), KeysOf(w), r + 1, input)
  {
    hide Xor, LastDecWord, ToBlock, KeysOf, AesLayers, AddRoundKey, InvShiftRows, SubBytes;
    LastDecRound(box, t0, t1, t2, t3, w[4 * r + 4], w[4 * r + 5], w[4 * r + 6], w[4 * r + 7]);
    KeysOfAt(w, r + 1);
  }

  /**
   * Two T-table rounds a turn, and a last round from the single-byte tables. An odd nr runs as nr - 1.
   * The two buffers may be the same one.
   */
  method AesEncrypt(box: SBox, pt: array<bv8>, ct: array<bv8>, ekey: array<bv32>, nr: nat)
    requires 2 <= nr && 16 <= pt.Length && 16 <= ct.Length
    requires 4 * (2 * (nr / 2)) + 3 < ekey.Length
    modifies ct
    ensures BlockAt(ct[..]) == Cipher(AesLayers(box), KeysOf(ekey[..]), 2 * (nr / 2), old(BlockAt(pt[..])))
    ensures ct[16..] == old(ct[16..])
  {
    hide Xor, Byte, EncWord, LastEncWord, Load32H, ToBlock, BlockAt, KeysOf, AesLayers, Rounds, Cipher;
    var rk, r := 0, nr / 2;
    ghost var p, w, ks, input := AesLayers(box), ekey[..], KeysOf(ekey[..]), BlockAt(pt[..]);
    var s0 := Xor(Load32H(pt[..], 0), ekey[0]);
    var s1 := Xor(Load32H(pt[..], 4), ekey[1]);
    var s2 := Xor(Load32H(pt[..], 8), ekey[2]);
    var s3 := Xor(Load32H(pt[..], 12), ekey[3]);
    EncStart(box, w, pt[..]);

    var t0, t1, t2, t3;
    ghost var n := 0;
    while true
      invariant 1 <= r && rk == 4 * n && n + 2 * r == 2 * (nr / 2)
      invariant ToBlock(s0, s1, s2, s3) == Rounds(p, ks, input, n)
      modifies {}
      decreases r
    {
      t0 := Xor(EncWord(box, s0, s1, s2, s3), ekey[rk + 4]);
      t1 := Xor(EncWord(box, s1, s2, s3, s0), ekey[rk + 5]);
      t2 := Xor(EncWord(box, s2, s3, s0, s1), ekey[rk + 6]);
      t3 := Xor(EncWord(box, s3, s0, s1, s2), ekey[rk + 7]);
      EncStep(box, w, input, n, s0, s1, s2, s3);

      rk := rk + 8;
      r := r - 1;
      if r == 0 {
        break;
      }

      s0 := Xor(EncWord(box, t0, t1, t2, t3), ekey[rk]);
      s1 := Xor(EncWord(box, t1, t2, t3, t0), ekey[rk + 1]);
      s2 := Xor(EncWord(box, t2, t3, t0, t1), ekey[rk + 2]);
      s3 := Xor(EncWord(box, t3, t0, t1, t2), ekey[rk + 3]);
      EncStep(box, w, input, n + 1, t0, t1, t2, t3);
      n := n + 2;
    }

    s0 := Xor(LastEncWord(box, t0, t1, t2, t3), ekey[rk]);
    s1 := Xor(LastEncWord(box, t1, t2, t3, t0), ekey[rk + 1]);
    s2 := Xor(LastEncWord(box, t2, t3, t0, t1), ekey[rk + 2]);
    s3 := Xor(LastEncWord(box, t3, t0, t1, t2), ekey[rk + 3]);
    EncFinish(box, w, input, n + 1, t0, t1, t2, t3);
    StoreBlock(s0, s1, s2, s3, ct);
    assert ekey[..] == w;
  }

  /** The same shape with the inverse tables computes the equivalent inverse cipher of the schedule it is given. */
  method AesDecrypt(box: SBox, ct: array<bv8>, pt: array<bv8>, dkey: array<bv32>, nr: nat)
    requires 2 <= nr && 16 <= ct.Length && 16 <= pt.Length
    requires 4 * (2 * (nr / 2)) + 3 < dkey.Length
    modifies pt
    ensures BlockAt(pt[..]) == EqInvCipher(AesLayers(box), KeysOf(dkey[..]), 2 * (nr / 2), old(BlockAt(ct[..])))
    ensures pt[16..] == old(pt[16..])
  {
    hide Xor, Byte, DecWord, LastDecWord, Load32H, ToBlock, BlockAt, KeysOf, AesLayers, EqInvRounds, EqInvCipher;
    var rk, r := 0, nr / 2;
    ghost var p, w, ks, input := AesLayers(box), dkey[..], KeysOf(dkey[..]), BlockAt(ct[..]);
    var s0 := Xor(Load32H(ct[..], 0), dkey[0]);
    var s1 := Xor(Load32H(ct[..], 4), dkey[1]);
    var s2 := Xor(Load32H(ct[..], 8), dkey[2]);
    var s3 := Xor(Load32H(ct[..], 12), dkey[3]);
    DecStart(box, w, ct[..]);

    var t0, t1, t2, t3;
    ghost var n := 0;
    while true
      invariant 1 <= r && rk == 4 * n && n + 2 * r == 2 * (nr / 2)
      invariant ToBlock(s0, s1, s2, s3) == EqInvRounds(p, ks, input, n)
      modifies {}
      decreases r
    {
      t0 := Xor(DecWord(box, s0, s3, s2, s1), dkey[rk + 4]);
      t1 := Xor(DecWord(box, s1, s0, s3, s2), dkey[rk + 5]);
      t2 := Xor(DecWord(box, s2, s1, s0, s3), dkey[rk + 6]);
      t3 := Xor(DecWord(box, s3, s2, s1, s0), dkey[rk + 7]);
      DecStep(box, w, input, n, s0, s1, s2, s3);

      rk := rk + 8;
      r := r - 1;
      if r == 0 {
        break;
      }

      s0 := Xor(DecWord(box, t0, t3, t2, t1), dkey[rk]);
      s1 := Xor(DecWord(box, t1, t0, t3, t2), dkey[rk + 1]);
      s2 := Xor(DecWord(box, t2, t1, t0, t3), dkey[rk + 2]);
      s3 := Xor(DecWord(box, t3, t2, t1, t0), dkey[rk + 3]);
      DecStep(box, w, input, n + 1, t0, t1, t2, t3);
      n := n + 2;
    }

    s0 := Xor(LastDecWord(box, t0, t3, t2, t1), dkey[rk]);
    s1 := Xor(LastDecWord(box, t1, t0, t3, t2), dkey[rk + 1]);
    s2 := Xor(LastDecWord(box, t2, t1, t0, t3), dkey[rk + 2]);
    s3 := Xor(LastDecWord(box, t3, t2, t1, t0), dkey[rk + 3]);
    DecFinish(box, w, input, n + 1, t0, t1, t2, t3);
    StoreBlock(s0, s1, s2, s3, pt);
    assert dkey[..] == w;
  }
}
