/** The example of FIPS 197 (appendices A.1 and B), with the tables of the program, and key words of A.2 and A.3. */
module AesVectors {
  import opened Columns
  import opened Fips197
  import opened EmiAes
  import opened EmiAesApi
  import opened AesSBox

  const KEY: seq<bv8> :=
    [0x2b, 0x7e, 0x15, 0x16, 0x28, 0xae, 0xd2, 0xa6, 0xab, 0xf7, 0x15, 0x88, 0x09, 0xcf, 0x4f, 0x3c]

  const PLAINTEXT: seq<bv8> :=
    [0x32, 0x43, 0xf6, 0xa8, 0x88, 0x5a, 0x30, 0x8d, 0x31, 0x31, 0x98, 0xa2, 0xe0, 0x37, 0x07, 0x34]

  const CIPHERTEXT: seq<bv8> :=
    [0x39, 0x25, 0x84, 0x1d, 0x02, 0xdc, 0x09, 0xfb, 0xdc, 0x11, 0x85, 0x97, 0x19, 0x6a, 0x0b, 0x32]

  // The round keys, the states at the end of each round, and those after ShiftRows

  const K0 := Block(Column(0x2b, 0x7e, 0x15, 0x16), Column(0x28, 0xae, 0xd2, 0xa6),
                    Column(0xab, 0xf7, 0x15, 0x88), Column(0x09, 0xcf, 0x4f, 0x3c))
  const K1 := Block(Column(0xa0, 0xfa, 0xfe, 0x17), Column(0x88, 0x54, 0x2c, 0xb1),
                    Column(0x23, 0xa3, 0x39, 0x39), Column(0x2a, 0x6c, 0x76, 0x05))
  const K2 := Block(Column(0xf2, 0xc2, 0x95, 0xf2), Column(0x7a, 0x96, 0xb9, 0x43),
                    Column(0x59, 0x35, 0x80, 0x7a), Column(0x73, 0x59, 0xf6, 0x7f))
  const K3 := Block(Column(0x3d, 0x80, 0x47, 0x7d), Column(0x47, 0x16, 0xfe, 0x3e),
                    Column(0x1e, 0x23, 0x7e, 0x44), Column(0x6d, 0x7a, 0x88, 0x3b))
  const K4 := Block(Column(0xef, 0x44, 0xa5, 0x41), Column(0xa8, 0x52, 0x5b, 0x7f),
                    Column(0xb6, 0x71, 0x25, 0x3b), Column(0xdb, 0x0b, 0xad, 0x00))
  const K5 := Block(Column(0xd4, 0xd1, 0xc6, 0xf8), Column(0x7c, 0x83, 0x9d, 0x87),
                    Column(0xca, 0xf2, 0xb8, 0xbc), Column(0x11, 0xf9, 0x15, 0xbc))
  const K6 := Block(Column(0x6d, 0x88, 0xa3, 0x7a), Column(0x11, 0x0b, 0x3e, 0xfd),
                    Column(0xdb, 0xf9, 0x86, 0x41), Column(0xca, 0x00, 0x93, 0xfd))
  const K7 := Block(Column(0x4e, 0x54, 0xf7, 0x0e), Column(0x5f, 0x5f, 0xc9, 0xf3),
                    Column(0x84, 0xa6, 0x4f, 0xb2), Column(0x4e, 0xa6, 0xdc, 0x4f))
  const K8 := Block(Column(0xea, 0xd2, 0x73, 0x21), Column(0xb5, 0x8d, 0xba, 0xd2),
                    Column(0x31, 0x2b, 0xf5, 0x60), Column(0x7f, 0x8d, 0x29, 0x2f))
  const K9 := Block(Column(0xac, 0x77, 0x66, 0xf3), Column(0x19, 0xfa, 0xdc, 0x21),
                    Column(0x28, 0xd1, 0x29, 0x41), Column(0x57, 0x5c, 0x00, 0x6e))
  const K10 := Block(Column(0xd0, 0x14, 0xf9, 0xa8), Column(0xc9, 0xee, 0x25, 0x89),
                     Column(0xe1, 0x3f, 0x0c, 0xc8), Column(0xb6, 0x63, 0x0c, 0xa6))

  const S0 := Block(Column(0x19, 0x3d, 0xe3, 0xbe), Column(0xa0, 0xf4, 0xe2, 0x2b),
                    Column(0x9a, 0xc6, 0x8d, 0x2a), Column(0xe9, 0xf8, 0x48, 0x08))
  const S1 := Block(Column(0xa4, 0x9c, 0x7f, 0xf2), Column(0x68, 0x9f, 0x35, 0x2b),
                    Column(0x6b, 0x5b, 0xea, 0x43), Column(0x02, 0x6a, 0x50, 0x49))
  const S2 := Block(Column(0xaa, 0x8f, 0x5f, 0x03), Column(0x61, 0xdd, 0xe3, 0xef),
                    Column(0x82, 0xd2, 0x4a, 0xd2), Column(0x68, 0x32, 0x46, 0x9a))
  const S3 := Block(Column(0x48, 0x6c, 0x4e, 0xee), Column(0x67, 0x1d, 0x9d, 0x0d),
                    Column(0x4d, 0xe3, 0xb1, 0x38), Column(0xd6, 0x5f, 0x58, 0xe7))
  const S4 := Block(Column(0xe0, 0x92, 0x7f, 0xe8), Column(0xc8, 0x63, 0x63, 0xc0),
                    Column(0xd9, 0xb1, 0x35, 0x50), Column(0x85, 0xb8, 0xbe, 0x01))
  const S5 := Block(Column(0xf1, 0x00, 0x6f, 0x55), Column(0xc1, 0x92, 0x4c, 0xef),
                    Column(0x7c, 0xc8, 0x8b, 0x32), Column(0x5d, 0xb5, 0xd5, 0x0c))
  const S6 := Block(Column(0x26, 0x0e, 0x2e, 0x17), Column(0x3d, 0x41, 0xb7, 0x7d),
                    Column(0xe8, 0x64, 0x72, 0xa9), Column(0xfd, 0xd2, 0x8b, 0x25))
  const S7 := Block(Column(0x5a, 0x41, 0x42, 0xb1), Column(0x19, 0x49, 0xdc, 0x1f),
                    Column(0xa3, 0xe0, 0x19, 0x65), Column(0x7a, 0x8c, 0x04, 0x0c))
  const S8 := Block(Column(0xea, 0x83, 0x5c, 0xf0), Column(0x04, 0x45, 0x33, 0x2d),
                    Column(0x65, 0x5d, 0x98, 0xad), Column(0x85, 0x96, 0xb0, 0xc5))
  const S9 := Block(Column(0xeb, 0x40, 0xf2, 0x1e), Column(0x59, 0x2e, 0x38, 0x84),
                    Column(0x8b, 0xa1, 0x13, 0xe7), Column(0x1b, 0xc3, 0x42, 0xd2))
  const S10 := Block(Column(0x39, 0x25, 0x84, 0x1d), Column(0x02, 0xdc, 0x09, 0xfb),
                     Column(0xdc, 0x11, 0x85, 0x97), Column(0x19, 0x6a, 0x0b, 0x32))

  const R1 := Block(Column(0xd4, 0xbf, 0x5d, 0x30), Column(0xe0, 0xb4, 0x52, 0xae),
                    Column(0xb8, 0x41, 0x11, 0xf1), Column(0x1e, 0x27, 0x98, 0xe5))
  const R2 := Block(Column(0x49, 0xdb, 0x87, 0x3b), Column(0x45, 0x39, 0x53, 0x89),
                    Column(0x7f, 0x02, 0xd2, 0xf1), Column(0x77, 0xde, 0x96, 0x1a))
  const R3 := Block(Column(0xac, 0xc1, 0xd6, 0xb8), Column(0xef, 0xb5, 0x5a, 0x7b),
                    Column(0x13, 0x23, 0xcf, 0xdf), Column(0x45, 0x73, 0x11, 0xb5))
  const R4 := Block(Column(0x52, 0xa4, 0xc8, 0x94), Column(0x85, 0x11, 0x6a, 0x28),
                    Column(0xe3, 0xcf, 0x2f, 0xd7), Column(0xf6, 0x50, 0x5e, 0x07))
  const R5 := Block(Column(0xe1, 0xfb, 0x96, 0x7c), Column(0xe8, 0xc8, 0xae, 0x9b),
                    Column(0x35, 0x6c, 0xd2, 0xba), Column(0x97, 0x4f, 0xfb, 0x53))
  const R6 := Block(Column(0xa1, 0x4f, 0x3d, 0xfe), Column(0x78, 0xe8, 0x03, 0xfc),
                    Column(0x10, 0xd5, 0xa8, 0xdf), Column(0x4c, 0x63, 0x29, 0x23))
  const R7 := Block(Column(0xf7, 0x83, 0x40, 0x3f), Column(0x27, 0x43, 0x3d, 0xf0),
                    Column(0x9b, 0xb5, 0x31, 0xff), Column(0x54, 0xab, 0xa9, 0xd3))
  const R8 := Block(Column(0xbe, 0x3b, 0xd4, 0xfe), Column(0xd4, 0xe1, 0xf2, 0xc8),
                    Column(0x0a, 0x64, 0x2c, 0xc0), Column(0xda, 0x83, 0x86, 0x4d))
  const R9 := Block(Column(0x87, 0x6e, 0x46, 0xa6), Column(0xf2, 0x4c, 0xe7, 0x8c),
                    Column(0x4d, 0x90, 0x4a, 0xd8), Column(0x97, 0xec, 0xc3, 0x95))
  const R10 := Block(Column(0xe9, 0x31, 0x7d, 0xb5), Column(0xcb, 0x32, 0x2c, 0x72),
                     Column(0x3d, 0x2e, 0x89, 0x5f), Column(0xaf, 0x09, 0x07, 0x94))

  // ----- One round

  function SubColumn(c: Column): Column { Column(Forward(c.b0), Forward(c.b1), Forward(c.b2), Forward(c.b3)) }

  function Shifted(s: Block): Block {
    ShiftRows(Block(SubColumn(s.c0), SubColumn(s.c1), SubColumn(s.c2), SubColumn(s.c3)))
  }

  function MixBlock(s: Block): Block { Block(MixColumn(s.c0), MixColumn(s.c1), MixColumn(s.c2), MixColumn(s.c3)) }

  function AddBlocks(s: Block, k: Block): Block {
    Block(AddColumns(s.c0, k.c0), AddColumns(s.c1, k.c1), AddColumns(s.c2, k.c2), AddColumns(s.c3, k.c3))
  }

  /** The round key after k, in a schedule with four words to the key. */
  function NextKey(k: Block, r: nat): Block
    requires 1 <= r
  {
    var c0 := AddColumns(k.c0, AddColumns(SubColumn(RotWord(k.c3)), Rcon(r)));
    var c1 := AddColumns(k.c1, c0);
    var c2 := AddColumns(k.c2, c1);
    Block(c0, c1, c2, AddColumns(k.c3, c2))
  }

  lemma Round1()
    ensures K1 == NextKey(K0, 1) && R1 == Shifted(S0) && S1 == AddBlocks(MixBlock(R1), K1)
  {}

  lemma Round2()
    ensures K2 == NextKey(K1, 2) && R2 == Shifted(S1) && S2 == AddBlocks(MixBlock(R2), K2)
  {}

  lemma Round3()
    ensures K3 == NextKey(K2, 3) && R3 == Shifted(S2) && S3 == AddBlocks(MixBlock(R3), K3)
  {}

  lemma Round4()
    ensures K4 == NextKey(K3, 4) && R4 == Shifted(S3) && S4 == AddBlocks(MixBlock(R4), K4)
  {}

  lemma Round5()
    ensures K5 == NextKey(K4, 5) && R5 == Shifted(S4) && S5 == AddBlocks(MixBlock(R5), K5)
  {}

  lemma Round6()
    ensures K6 == NextKey(K5, 6) && R6 == Shifted(S5) && S6 == AddBlocks(MixBlock(R6), K6)
  {}

  lemma Round7()
    ensures K7 == NextKey(K6, 7) && R7 == Shifted(S6) && S7 == AddBlocks(MixBlock(R7), K7)
  {}

  lemma Round8()
    ensures K8 == NextKey(K7, 8) && R8 == Shifted(S7) && S8 == AddBlocks(MixBlock(R8), K8)
  {}

  lemma Round9()
    ensures K9 == NextKey(K8, 9) && R9 == Shifted(S8) && S9 == AddBlocks(MixBlock(R9), K9)
  {}

  lemma Round10()
    ensures K10 == NextKey(K9, 10) && R10 == Shifted(S9) && S10 == AddBlocks(R10, K10)
  {}

  // ----- The whole example

  function Expanded(): seq<Column> { KeyExpansion(AES_SBOX.forward, KEY) }

  function Keys(): seq<Block> { RoundKeys(Expanded()) }

  ghost predicate KeyIs(r: nat, k: Block) { |Expanded()| == 44 && r <= 10 && RoundKey(Expanded(), r) == k }

  ghost predicate StateIs(r: nat, s: Block) {
    |Keys()| == 11 && r < 10 && Rounds(AesLayers(AES_SBOX), Keys(), BlockAt(PLAINTEXT), r) == s
  }

  lemma KeysAt(r: nat, k: Block)
    requires KeyIs(r, k)
    ensures |Keys()| == 11 && Keys()[r] == k
  {
    hide Expanded;
  }

  lemma SubIs(c: Column)
    ensures MapColumn(AES_SBOX.forward, c) == SubColumn(c)
  {
    hide Forward;
  }

  lemma NextWord(r: nat, i: nat)
    requires 1 <= r <= 10 && 4 * r <= i < 4 * r + 4
    ensures |Expanded()| == 44
    ensures var temp := Expanded()[i - 1];
            Expanded()[i] == AddColumns(Expanded()[i - 4],
                                        if i == 4 * r then AddColumns(SubColumn(RotWord(temp)), Rcon(r)) else temp)
  {
    var temp := KeyWord(AES_SBOX.forward, KEY, i - 1);
    SubIs(RotWord(temp));
    assert i / 4 == r && i % 4 == i - 4 * r;
    hide Forward, AddColumns, RotWord, SubColumn, MapColumn, Rcon;
  }

  lemma KeyFollows(r: nat, k: Block)
    requires 1 <= r <= 10 && KeyIs(r - 1, k)
    ensures KeyIs(r, NextKey(k, r))
  {
    hide Expanded, AddColumns, SubColumn, RotWord, Rcon;
    NextWord(r, 4 * r);
    NextWord(r, 4 * r + 1);
    NextWord(r, 4 * r + 2);
    NextWord(r, 4 * r + 3);
  }

  lemma Begins()
    ensures KeyIs(0, K0) && StateIs(0, S0)
  {
    hide Forward;
    assert KeyIs(0, K0);
    KeysAt(0, K0);
  }

  lemma LayersAre(s: Block, k: Block)
    ensures var p := AesLayers(AES_SBOX);
            && ShiftRows(SubBytes(p.sub, s)) == Shifted(s)
            && MixColumns(p.mix, s) == MixBlock(s)
            && AddRoundKey(p.add, s, k) == AddBlocks(s, k)
  {
    hide Forward, MixColumn, AddColumns;
  }

  lemma Step(r: nat, k: Block, s: Block)
    requires 1 <= r < 10 && KeyIs(r - 1, k) && StateIs(r - 1, s)
    ensures KeyIs(r, NextKey(k, r)) && StateIs(r, AddBlocks(MixBlock(Shifted(s)), NextKey(k, r)))
  {
    var k' := NextKey(k, r);
    KeyFollows(r, k);
    KeysAt(r, k');
    LayersAre(s, k');
    LayersAre(Shifted(s), k');
    LayersAre(MixBlock(Shifted(s)), k');
    hide AesLayers, Keys, SubBytes, Shifted, ShiftRows, MixColumns, MixBlock, AddRoundKey, AddBlocks, KeyIs, NextKey;
  }

  lemma LastStep(k: Block, s: Block)
    requires KeyIs(9, k) && StateIs(9, s)
    ensures EncryptBlock(AES_SBOX, KEY, BlockAt(PLAINTEXT)) == AddBlocks(Shifted(s), NextKey(k, 10))
  {
    var k' := NextKey(k, 10);
    KeyFollows(10, k);
    KeysAt(10, k');
    LayersAre(s, k');
    LayersAre(Shifted(s), k');
    hide AesLayers, SubBytes, Shifted, ShiftRows, AddRoundKey, AddBlocks, KeyIs, NextKey, Rounds, BlockAt, KeyExpansion,
         RoundKeys;
  }

  lemma ThreeRounds()
    ensures KeyIs(3, K3) && StateIs(3, S3)
  {
    hide KeyIs, StateIs, NextKey, Shifted, MixBlock, AddBlocks;
    Begins();
    Round1();
    Step(1, K0, S0);
    Round2();
    Step(2, K1, S1);
    Round3();
    Step(3, K2, S2);
  }

  lemma SixRounds()
    ensures KeyIs(6, K6) && StateIs(6, S6)
  {
    hide KeyIs, StateIs, NextKey, Shifted, MixBlock, AddBlocks;
    ThreeRounds();
    Round4();
    Step(4, K3, S3);
    Round5();
    Step(5, K4, S4);
    Round6();
    Step(6, K5, S5);
  }

  lemma NineRounds()
    ensures KeyIs(9, K9) && StateIs(9, S9)
  {
    hide KeyIs, StateIs, NextKey, Shifted, MixBlock, AddBlocks;
    SixRounds();
    Round7();
    Step(7, K6, S6);
    Round8();
    Step(8, K7, S7);
    Round9();
    Step(9, K8, S8);
  }

  lemma CiphertextIs()
    ensures BlockAt(CIPHERTEXT) == S10
  {}

  /** Appendix B: the ciphertext, from the bytes of key and plaintext, and back. */
  lemma KnownAnswer()
    ensures EncryptBlock(AES_SBOX, KEY, BlockAt(PLAINTEXT)) == BlockAt(CIPHERTEXT)
    ensures DecryptBlock(AES_SBOX, KEY, BlockAt(CIPHERTEXT)) == BlockAt(PLAINTEXT)
  {
    hide KeyIs, StateIs, NextKey, Shifted, AddBlocks, EncryptBlock, DecryptBlock, BlockAt;
    NineRounds();
    Round10();
    CiphertextIs();
    LastStep(K9, S9);
    AesSBoxBijective();
    DecryptBlockUndoes(AES_SBOX, KEY, BlockAt(PLAINTEXT));
  }

  // ----- Longer keys

  const KEY192: seq<bv8> :=
    [0x8e, 0x73, 0xb0, 0xf7, 0xda, 0x0e, 0x64, 0x52, 0xc8, 0x10, 0xf3, 0x2b, 0x80, 0x90, 0x79, 0xe5,
     0x62, 0xf8, 0xea, 0xd2, 0x52, 0x2c, 0x6b, 0x7b]

  const KEY256: seq<bv8> :=
    [0x60, 0x3d, 0xeb, 0x10, 0x15, 0xca, 0x71, 0xbe, 0x2b, 0x73, 0xae, 0xf0, 0x85, 0x7d, 0x77, 0x81,
     0x1f, 0x35, 0x2c, 0x07, 0x3b, 0x61, 0x08, 0xd7, 0x2d, 0x98, 0x10, 0xa3, 0x09, 0x14, 0xdf, 0xf4]

  function Word(key: seq<bv8>, i: nat): Column
    requires KeyLength(|key|)
  {
    KeyWord(AES_SBOX.forward, key, i)
  }

  lemma WordFollows(key: seq<bv8>, nk: nat, i: nat)
    requires KeyLength(|key|) && |key| == 4 * nk && nk <= i
    ensures Word(key, i) == AddColumns(Word(key, i - nk),
                                       if i % nk
                                           == 0 then AddColumns(SubColumn(RotWord(Word(key, i - 1))), Rcon(i / nk))
                                       else if nk == 8 && i % nk == 4 then SubColumn(Word(key, i - 1))
                                       else Word(key, i - 1))
  {
    SubIs(RotWord(Word(key, i - 1)));
    SubIs(Word(key, i - 1));
    hide Forward, AddColumns, RotWord, SubColumn, MapColumn, Rcon;
  }

  lemma WordBegins(key: seq<bv8>, i: nat)
    requires KeyLength(|key|) && i < |key| / 4
    ensures Word(key, i) == Column(key[4 * i], key[4 * i + 1], key[4 * i + 2], key[4 * i + 3])
  {}

  lemma Begins192()
    ensures Word(KEY192, 0) == Column(0x8e, 0x73, 0xb0, 0xf7) && Word(KEY192, 1) == Column(0xda, 0x0e, 0x64, 0x52)
    ensures Word(KEY192, 2) == Column(0xc8, 0x10, 0xf3, 0x2b) && Word(KEY192, 3) == Column(0x80, 0x90, 0x79, 0xe5)
    ensures Word(KEY192, 4) == Column(0x62, 0xf8, 0xea, 0xd2) && Word(KEY192, 5) == Column(0x52, 0x2c, 0x6b, 0x7b)
  {
    hide Word;
    WordBegins(KEY192, 0);
    WordBegins(KEY192, 1);
    WordBegins(KEY192, 2);
    WordBegins(KEY192, 3);
    WordBegins(KEY192, 4);
    WordBegins(KEY192, 5);
  }

  lemma Begins256()
    ensures Word(KEY256, 0) == Column(0x60, 0x3d, 0xeb, 0x10) && Word(KEY256, 1) == Column(0x15, 0xca, 0x71, 0xbe)
    ensures Word(KEY256, 2) == Column(0x2b, 0x73, 0xae, 0xf0) && Word(KEY256, 3) == Column(0x85, 0x7d, 0x77, 0x81)
    ensures Word(KEY256, 4) == Column(0x1f, 0x35, 0x2c, 0x07) && Word(KEY256, 7) == Column(0x09, 0x14, 0xdf, 0xf4)
  {
    hide Word;
    WordBegins(KEY256, 0);
    WordBegins(KEY256, 1);
    WordBegins(KEY256, 2);
    WordBegins(KEY256, 3);
    WordBegins(KEY256, 4);
    WordBegins(KEY256, 7);
  }

  /** Appendix A.2: words 6 to 12. */
  lemma Words192()
    ensures Word(KEY192, 6) == Column(0xfe, 0x0c, 0x91, 0xf7) && Word(KEY192, 7) == Column(0x24, 0x02, 0xf5, 0xa5)
    ensures Word(KEY192, 8) == Column(0xec, 0x12, 0x06, 0x8e) && Word(KEY192, 9) == Column(0x6c, 0x82, 0x7f, 0x6b)
    ensures Word(KEY192, 10) == Column(0x0e, 0x7a, 0x95, 0xb9) && Word(KEY192, 11) == Column(0x5c, 0x56, 0xfe, 0xc2)
    ensures Word(KEY192, 12) == Column(0x4d, 0xb7, 0xb4, 0xbd)
  {
    hide Word;
    Begins192();
    WordFollows(KEY192, 6, 6);
    WordFollows(KEY192, 6, 7);
    WordFollows(KEY192, 6, 8);
    WordFollows(KEY192, 6, 9);
    WordFollows(KEY192, 6, 10);
    WordFollows(KEY192, 6, 11);
    WordFollows(KEY192, 6, 12);
  }

  /** Appendix A.3: words 8 to 12; the last one is substituted without a rotation. */
  lemma Words256()
    ensures Word(KEY256, 8) == Column(0x9b, 0xa3, 0x54, 0x11) && Word(KEY256, 9) == Column(0x8e, 0x69, 0x25, 0xaf)
    ensures Word(KEY256, 10) == Column(0xa5, 0x1a, 0x8b, 0x5f) && Word(KEY256, 11) == Column(0x20, 0x67, 0xfc, 0xde)
    ensures Word(KEY256, 12) == Column(0xa8, 0xb0, 0x9c, 0x1a)
  {
    hide Word;
    Begins256();
    WordFollows(KEY256, 8, 8);
    WordFollows(KEY256, 8, 9);
    WordFollows(KEY256, 8, 10);
    WordFollows(KEY256, 8, 11);
    WordFollows(KEY256, 8, 12);
  }
}
