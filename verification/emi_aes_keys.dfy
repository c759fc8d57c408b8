/** schedule_key of emi_aes.c, proved against section 5.2 of FIPS 197. */
module EmiAesKeys {
  import opened Columns
  import opened Fips197
  import opened Words
  import opened AesTables
  import opened EmiAes

  function SetupMix(box: SBox, temp: bv32): bv32 {
    Xor(Xor(Xor(Te4_3(box, Byte(temp, 2)), Te4_2(box, Byte(temp, 1))), Te4_1(box, Byte(temp, 0))),
        Te4_0(box, Byte(temp, 3)))
  }

  /** setup_mix rotates and substitutes. */
  lemma SetupMixRotates(box: SBox, temp: bv32)
    ensures ToColumn(SetupMix(box, temp)) == MapColumn(box.forward, RotWord(ToColumn(temp)))
  {
    hide Xor, Byte, Pack;
    PackBytes(box.forward(Byte(temp, 2)), box.forward(Byte(temp, 1)), box.forward(Byte(temp, 0)),
              box.forward(Byte(temp, 3)));
  }

  /** Rotating back first leaves the substitution alone: the extra step of 256-bit keys. */
  lemma SetupMixOfRor8(box: SBox, temp: bv32)
    ensures ToColumn(SetupMix(box, Ror8(temp))) == MapColumn(box.forward, ToColumn(temp))
  {
    hide Ror8, Byte, SetupMix;
    SetupMixRotates(box, Ror8(temp));
    Ror8ToColumn(temp);
  }

  /** The first count words of the array are those of the key expansion. */
  ghost predicate Expanded(f: bv8 -> bv8, key: seq<bv8>, words: seq<bv32>, count: nat)
    requires KeyLength(|key|)
  {
    count <= |words| && forall i | 0 <= i < count :: ToColumn(words[i]) == KeyWord(f, key, i)
  }

  /** A word that opens a group of Nk. */
  lemma OpeningWord(box: SBox, key: seq<bv8>, words: seq<bv32>, n: nat)
    requires KeyLength(|key|)
    requires var nk := |key| / 4; n % nk == 0 && 1 <= n / nk <= |RCON|
    requires Expanded(box.forward, key, words, n)
    ensures var nk := |key| / 4;
            ToColumn(Xor(Xor(words[n - nk], SetupMix(box, words[n - 1])), RCON[n / nk - 1]))
                == KeyWord(box.forward, key, n)
  {
    hide Xor, ToColumn, AddColumns, SetupMix, MapColumn, RotWord, Rcon, RCON;
    var nk := |key| / 4;
    var u, m, c := words[n - nk], SetupMix(box, words[n - 1]), RCON[n / nk - 1];
    XorToColumn(Xor(u, m), c);
    XorToColumn(u, m);
    AddColumnsAssociates(u, m, c);
    SetupMixRotates(box, words[n - 1]);
    RconWord(n / nk - 1);
  }

  lemma RconWord(i: nat)
    requires i < |RCON|
    ensures ToColumn(RCON[i]) == Rcon(i + 1)
  {
    hide Pack, ToColumn, RCON, XPower;
    RconIsPowers(i);
    var c := Rcon(i + 1);
    PackToColumn(c.b0, c.b1, c.b2, c.b3);
  }

  /** The middle word of a group of eight. */
  lemma MiddleWord(box: SBox, key: seq<bv8>, words: seq<bv32>, n: nat)
    requires |key| == 32 && n % 8 == 4 && 8 <= n
    requires Expanded(box.forward, key, words, n)
    ensures ToColumn(Xor(words[n - 8], SetupMix(box, Ror8(words[n - 1])))) == KeyWord(box.forward, key, n)
  {
    hide Xor, ToColumn, AddColumns, SetupMix, MapColumn, Ror8;
    XorToColumn(words[n - 8], SetupMix(box, Ror8(words[n - 1])));
    SetupMixOfRor8(box, words[n - 1]);
  }

  lemma PlainWord(box: SBox, key: seq<bv8>, words: seq<bv32>, n: nat)
    requires KeyLength(|key|)
    requires var nk := |key| / 4; nk <= n && n % nk != 0 && !(nk > 6 && n % nk == 4)
    requires Expanded(box.forward, key, words, n)
    ensures var nk := |key| / 4; ToColumn(Xor(words[n - nk], words[n - 1])) == KeyWord(box.forward, key, n)
  {
    hide Xor, ToColumn, AddColumns;
    XorToColumn(words[n - |key| / 4], words[n - 1]);
  }

  lemma KeyBytesWord(f: bv8 -> bv8, key: seq<bv8>, i: nat)
    requires KeyLength(|key|) && 4 * i + 4 <= |key|
    ensures ToColumn(Load32H(key, 4 * i)) == KeyWord(f, key, i)
  {
    hide Pack, ToColumn;
    PackToColumn(key[4 * i], key[4 * i + 1], key[4 * i + 2], key[4 * i + 3]);
  }

  // ----- One assignment to the forward schedule: word n from words n - Nk and n - 1

  /** rk[Nk] = rk[0] ^ setup_mix(rk[Nk - 1]) ^ rcon[i]. */
  method PutOpeningWord(box: SBox, ghost key: seq<bv8>, ekey: array<bv32>, nk: nat, n: nat, i: nat)
    requires KeyLength(|key|) && nk == |key| / 4 && n == nk * (i + 1) && i < |RCON| && n < ekey.Length
    requires Expanded(box.forward, key, ekey[..], n)
    modifies ekey
    ensures Expanded(box.forward, key, ekey[..], n + 1)
    ensures forall j | 0 <= j < ekey.Length && j != n :: ekey[j] == old(ekey[j])
  {
    hide Xor, ToColumn, SetupMix, KeyWord, RCON;
    assert n % nk == 0 && n / nk == i + 1;
    OpeningWord(box, key, ekey[..], n);
    ekey[n] := Xor(Xor(ekey[n - nk], SetupMix(box, ekey[n - 1])), RCON[i]);
  }

  /** rk[12] = rk[4] ^ setup_mix(RORc(rk[11], 8)), for 256-bit keys. */
  method PutMiddleWord(box: SBox, ghost key: seq<bv8>, ekey: array<bv32>, n: nat)
    requires |key| == 32 && n % 8 == 4 && 8 <= n < ekey.Length
    requires Expanded(box.forward, key, ekey[..], n)
    modifies ekey
    ensures Expanded(box.forward, key, ekey[..], n + 1)
    ensures forall j | 0 <= j < ekey.Length && j != n :: ekey[j] == old(ekey[j])
  {
    hide Xor, ToColumn, SetupMix, KeyWord, Ror8;
    MiddleWord(box, key, ekey[..], n);
    ekey[n] := Xor(ekey[n - 8], SetupMix(box, Ror8(ekey[n - 1])));
  }

  /** rk[Nk + k] = rk[k] ^ rk[Nk + k - 1]. */
  method PutPlainWord(box: SBox, ghost key: seq<bv8>, ekey: array<bv32>, nk: nat, n: nat)
    requires KeyLength(|key|) && nk == |key| / 4
    requires nk <= n < ekey.Length && n % nk != 0 && !(nk > 6 && n % nk == 4)
    requires Expanded(box.forward, key, ekey[..], n)
    modifies ekey
    ensures Expanded(box.forward, key, ekey[..], n + 1)
    ensures forall j | 0 <= j < ekey.Length && j != n :: ekey[j] == old(ekey[j])
  {
    hide Xor, ToColumn, KeyWord;
    PlainWord(box, key, ekey[..], n);
    ekey[n] := Xor(ekey[n - nk], ekey[n - 1]);
  }

  // ----- The three expansion loops; each leaves its last turn early

  method Expand16(box: SBox, ghost key: seq<bv8>, ekey: array<bv32>)
    requires |key| == 16 && 44 <= ekey.Length && Expanded(box.forward, key, ekey[..], 4)
    modifies ekey
    ensures Expanded(box.forward, key, ekey[..], 44)
    ensures forall j | 44 <= j < ekey.Length :: ekey[j] == old(ekey[j])
  {
    hide Expanded;
    var i, rk := 0, 0;
    while true
      invariant 0 <= i < 10 && rk == 4 * i
      invariant Expanded(box.forward, key, ekey[..], rk + 4)
      invariant forall j | 44 <= j < ekey.Length :: ekey[j] == old(ekey[j])
      decreases 10 - i
    {
      PutOpeningWord(box, key, ekey, 4, rk + 4, i);
      PutPlainWord(box, key, ekey, 4, rk + 5);
      PutPlainWord(box, key, ekey, 4, rk + 6);
      PutPlainWord(box, key, ekey, 4, rk + 7);
      i := i + 1;
      if i == 10 {
        break;
      }
      rk := rk + 4;
    }
  }

  method Expand24(box: SBox, ghost key: seq<bv8>, ekey: array<bv32>)
    requires |key| == 24 && 52 <= ekey.Length && Expanded(box.forward, key, ekey[..], 6)
    modifies ekey
    ensures Expanded(box.forward, key, ekey[..], 52)
    ensures forall j | 52 <= j < ekey.Length :: ekey[j] == old(ekey[j])
  {
    hide Expanded;
    var i, rk := 0, 0;
    while true
      invariant 0 <= i < 8 && rk == 6 * i
      invariant Expanded(box.forward, key, ekey[..], rk + 6)
      invariant forall j | 52 <= j < ekey.Length :: ekey[j] == old(ekey[j])
      decreases 8 - i
    {
      PutOpeningWord(box, key, ekey, 6, rk + 6, i);
      PutPlainWord(box, key, ekey, 6, rk + 7);
      PutPlainWord(box, key, ekey, 6, rk + 8);
      PutPlainWord(box, key, ekey, 6, rk + 9);
      i := i + 1;
      if i == 8 {
        break;
      }
      PutPlainWord(box, key, ekey, 6, rk + 10);
      PutPlainWord(box, key, ekey, 6, rk + 11);
      rk := rk + 6;
    }
  }

  method Expand32(box: SBox, ghost key: seq<bv8>, ekey: array<bv32>)
    requires |key| == 32 && 60 <= ekey.Length && Expanded(box.forward, key, ekey[..], 8)
    modifies ekey
    ensures Expanded(box.forward, key, ekey[..], 60)
    ensures forall j | 60 <= j < ekey.Length :: ekey[j] == old(ekey[j])
  {
    hide Expanded;
    var i, rk := 0, 0;
    while true
      invariant 0 <= i < 7 && rk == 8 * i
      invariant Expanded(box.forward, key, ekey[..], rk + 8)
      invariant forall j | 60 <= j < ekey.Length :: ekey[j] == old(ekey[j])
      decreases 7 - i
    {
      PutOpeningWord(box, key, ekey, 8, rk + 8, i);
      PutPlainWord(box, key, ekey, 8, rk + 9);
      PutPlainWord(box, key, ekey, 8, rk + 10);
      PutPlainWord(box, key, ekey, 8, rk + 11);
      i := i + 1;
      if i == 7 {
        break;
      }
      PutMiddleWord(box, key, ekey, rk + 12);
      PutPlainWord(box, key, ekey, 8, rk + 13);
      PutPlainWord(box, key, ekey, 8, rk + 14);
      PutPlainWord(box, key, ekey, 8, rk + 15);
      rk := rk + 8;
    }
  }

  // ----- The inverse schedule

  function TksWord(temp: bv32): bv32 {
    Xor(Xor(Xor(Tks0(Byte(temp, 3)), Tks1(Byte(temp, 2))), Tks2(Byte(temp, 1))), Tks3(Byte(temp, 0)))
  }

  lemma TksWordMixes(temp: bv32)
    ensures ToColumn(TksWord(temp)) == InvMixColumn(ToColumn(temp))
  {
    hide Xor, Byte, Tks0, Tks1, Tks2, Tks3, InvMixColumn;
    TksColumn(Byte(temp, 3), Byte(temp, 2), Byte(temp, 1), Byte(temp, 0));
  }

  /** The round key that starts at word at. */
  function KeyAt(words: seq<bv32>, at: nat): Block
    requires at + 3 < |words|
  {
    ToBlock(words[at], words[at + 1], words[at + 2], words[at + 3])
  }

  method CopyGroup(ekey: array<bv32>, rrk: nat, dkey: array<bv32>, rk: nat)
    requires ekey != dkey && rrk + 3 < ekey.Length && rk + 3 < dkey.Length
    modifies dkey
    ensures KeyAt(dkey[..], rk) == KeyAt(ekey[..], rrk)
    ensures forall j | 0 <= j < dkey.Length && !(rk <= j < rk + 4) :: dkey[j] == old(dkey[j])
  {
    hide ToColumn;
    dkey[rk] := ekey[rrk];
    dkey[rk + 1] := ekey[rrk + 1];
    dkey[rk + 2] := ekey[rrk + 2];
    dkey[rk + 3] := ekey[rrk + 3];
  }

  method MixGroup(ekey: array<bv32>, rrk: nat, dkey: array<bv32>, rk: nat)
    requires ekey != dkey && rrk + 3 < ekey.Length && rk + 3 < dkey.Length
    modifies dkey
    ensures KeyAt(dkey[..], rk) == MixColumns(c => InvMixColumn(c), KeyAt(ekey[..], rrk))
    ensures forall j | 0 <= j < dkey.Length && !(rk <= j < rk + 4) :: dkey[j] == old(dkey[j])
  {
    hide ToColumn, TksWord, InvMixColumn;
    TksWordMixes(ekey[rrk]);
    TksWordMixes(ekey[rrk + 1]);
    TksWordMixes(ekey[rrk + 2]);
    TksWordMixes(ekey[rrk + 3]);
    dkey[rk] := TksWord(ekey[rrk]);
    dkey[rk + 1] := TksWord(ekey[rrk + 1]);
    dkey[rk + 2] := TksWord(ekey[rrk + 2]);
    dkey[rk + 3] := TksWord(ekey[rrk + 3]);
  }

  /** Group g of the inverse schedule is group nr - g of the forward one, mixed unless it is an outer group. */
  ghost predicate GroupInverted(e: seq<bv32>, d: seq<bv32>, nr: nat, g: nat)
    requires g <= nr && 4 * nr + 3 < |e| && 4 * nr + 3 < |d|
  {
    KeyAt(d, 4 * g) == if g == 0 || g == nr then KeyAt(e, 4 * (nr - g))
                       else MixColumns(c => InvMixColumn(c), KeyAt(e, 4 * (nr - g)))
  }

  lemma GroupsInvert(box: SBox, e: seq<bv32>, d: seq<bv32>, nr: nat)
    requires 4 * (nr + 1) <= |e| && 4 * (nr + 1) <= |d|
    requires forall g | 0 <= g <= nr :: GroupInverted(e, d, nr, g)
    ensures nr < |KeysOf(e)| && nr < |KeysOf(d)|
    ensures KeysOf(d)[..nr + 1] == EqInvKeys(AesLayers(box), KeysOf(e), nr)
  {
    hide ToBlock, InvMixColumn, MixColumns, KeysOf;
    var keys := EqInvKeys(AesLayers(box), KeysOf(e), nr);
    forall g | 0 <= g <= nr
      ensures KeysOf(d)[g] == keys[g]
    {
      assert GroupInverted(e, d, nr, g);
      KeysOfAt(d, g);
      KeysOfAt(e, nr - g);
    }
  }

  /** The two cursors move in opposite directions: rk up in dkey, rrk down in ekey. */
  method InvertKey(box: SBox, ekey: array<bv32>, dkey: array<bv32>, nr: nat, j: nat)
    requires 1 <= nr && j == 4 * (nr + 1) && ekey != dkey && j <= ekey.Length && j <= dkey.Length
    modifies dkey
    ensures nr < |KeysOf(dkey[..])| && nr < |KeysOf(ekey[..])|
    ensures KeysOf(dkey[..])[..nr + 1] == EqInvKeys(AesLayers(box), KeysOf(ekey[..]), nr)
    ensures forall k | j <= k < dkey.Length :: dkey[k] == old(dkey[k])
  {
    hide ToBlock, InvMixColumn, MixColumns, KeysOf, EqInvKeys, AesLayers;
    ghost var e := ekey[..];
    var rk, rrk := 0, j - 4;
    CopyGroup(ekey, rrk, dkey, rk);
    var i := 1;
    while i < nr
      invariant 1 <= i <= nr && rk == 4 * (i - 1) && rrk == 4 * (nr - (i - 1)) && ekey[..] == e
      invariant forall g | 0 <= g < i :: GroupInverted(e, dkey[..], nr, g)
      invariant forall k | j <= k < dkey.Length :: dkey[k] == old(dkey[k])
    {
      rrk := rrk - 4;
      rk := rk + 4;
      ghost var d := dkey[..];
      MixGroup(ekey, rrk, dkey, rk);
      KeepGroups(e, d, dkey[..], nr, i);
      i := i + 1;
    }
    rrk := rrk - 4;
    rk := rk + 4;
    ghost var d := dkey[..];
    CopyGroup(ekey, rrk, dkey, rk);
    KeepGroups(e, d, dkey[..], nr, nr);
    GroupsInvert(box, e, dkey[..], nr);
  }

  /** Writing past the first n groups keeps them. */
  lemma KeepGroups(e: seq<bv32>, d: seq<bv32>, d': seq<bv32>, nr: nat, n: nat)
    requires n <= nr && 4 * nr + 3 < |e| && 4 * nr + 3 < |d| == |d'|
    requires forall g | 0 <= g < n :: GroupInverted(e, d, nr, g)
    requires forall k | 0 <= k < 4 * n :: d'[k] == d[k]
    ensures forall g | 0 <= g < n :: GroupInverted(e, d', nr, g)
  {
    hide ToBlock, InvMixColumn, MixColumns;
    forall g | 0 <= g < n
      ensures GroupInverted(e, d', nr, g)
    {
      assert GroupInverted(e, d, nr, g);
      assert KeyAt(d', 4 * g) == KeyAt(d, 4 * g);
    }
  }

  // ----- schedule_key

  lemma LoadPrefix(y: seq<bv8>, n: nat, at: nat)
    requires at + 4 <= n <= |y|
    ensures Load32H(y[..n], at) == Load32H(y, at)
  {
    hide Pack;
  }

  /** LOAD32H(rk[i], key + 4 * i). */
  method PutKeyWord(box: SBox, key: array<bv8>, ghost bytes: seq<bv8>, ekey: array<bv32>, i: nat)
    requires KeyLength(|bytes|) && |bytes| <= key.Length && bytes == key[..|bytes|]
    requires i < |bytes| / 4 && i < ekey.Length
    requires Expanded(box.forward, bytes, ekey[..], i)
    modifies ekey
    ensures Expanded(box.forward, bytes, ekey[..], i + 1)
    ensures forall j | 0 <= j < ekey.Length && j != i :: ekey[j] == old(ekey[j])
  {
    hide ToColumn, Load32H, KeyWord;
    KeyBytesWord(box.forward, bytes, i);
    LoadPrefix(key[..], |bytes|, 4 * i);
    ekey[i] := Load32H(key[..], 4 * i);
  }

  lemma ExpandedIsExpansion(f: bv8 -> bv8, key: seq<bv8>, words: seq<bv32>)
    requires KeyLength(|key|) && Expanded(f, key, words, |key| + 28)
    ensures ToColumns(words[..|key| + 28]) == KeyExpansion(f, key)
  {
    hide ToColumn, KeyWord;
  }

  /**
   * The forward schedule is the key expansion of section 5.2; the inverse one is what the equivalent
   * inverse cipher of section 5.3.5 needs. Nothing is written past the 4(nr + 1) words, or for another key length.
   */
  method ScheduleKey(box: SBox, key: array<bv8>, keylen: int, ekey: array<bv32>, dkey: array?<bv32>) returns (ret: int)
    requires KeyLength(keylen) ==> keylen <= key.Length && keylen + 28 <= ekey.Length
    requires dkey != null ==> dkey != ekey && (KeyLength(keylen) ==> keylen + 28 <= dkey.Length)
    modifies ekey, dkey
    ensures ret == if KeyLength(keylen) then 0 else -1
    ensures !KeyLength(keylen) ==> unchanged(ekey) && (dkey != null ==> unchanged(dkey))
    ensures KeyLength(keylen) ==>
              && ToColumns(ekey[..keylen + 28]) == KeyExpansion(box.forward, key[..keylen])
              && ekey[keylen + 28..] == old(ekey[keylen + 28..])
    ensures KeyLength(keylen) && dkey != null ==>
              && var nr := RoundCount(key[..keylen]);
              && nr < |KeysOf(dkey[..])| && nr < |KeysOf(ekey[..])|
              && KeysOf(dkey[..])[..nr + 1] == EqInvKeys(AesLayers(box), KeysOf(ekey[..]), nr)
              && dkey[keylen + 28..] == old(dkey[keylen + 28..])
  {
    hide Expanded, KeysOf, EqInvKeys, AesLayers, ToColumns, KeyExpansion;
    if keylen != 16 && keylen != 24 && keylen != 32 {
      return -1;
    }
    var nr := 10 + ((keylen / 8) - 2) * 2;
    ghost var bytes := key[..keylen];
    var j;
    assert Expanded(box.forward, bytes, ekey[..], 0) by {
      ExpandedNone(box.forward, bytes, ekey[..]);
    }
    PutKeyWord(box, key, bytes, ekey, 0);
    PutKeyWord(box, key, bytes, ekey, 1);
    PutKeyWord(box, key, bytes, ekey, 2);
    PutKeyWord(box, key, bytes, ekey, 3);
    if keylen == 16 {
      j := 44;
      Expand16(box, bytes, ekey);
    } else if keylen == 24 {
      j := 52;
      PutKeyWord(box, key, bytes, ekey, 4);
      PutKeyWord(box, key, bytes, ekey, 5);
      Expand24(box, bytes, ekey);
    } else {
      j := 60;
      PutKeyWord(box, key, bytes, ekey, 4);
      PutKeyWord(box, key, bytes, ekey, 5);
      PutKeyWord(box, key, bytes, ekey, 6);
      PutKeyWord(box, key, bytes, ekey, 7);
      Expand32(box, bytes, ekey);
    }
    ExpandedIsExpansion(box.forward, bytes, ekey[..]);
    if dkey != null {
      InvertKey(box, ekey, dkey, nr, j);
    }
    return 0;
  }

  lemma ExpandedNone(f: bv8 -> bv8, key: seq<bv8>, words: seq<bv32>)
    requires KeyLength(|key|)
    ensures Expanded(f, key, words, 0)
  {}
}
