/** emi_aes_encrypt and emi_aes_decrypt, and what decryption undoes. */
module EmiAesApi {
  import opened Fips197
  import opened Fips197Inverse
  import opened Words
  import opened EmiAes
  import opened EmiAesKeys

  /** AES encryption of one block as FIPS 197 composes it, for each of the three key lengths. */
  function EncryptBlock(box: SBox, key: seq<bv8>, block: Block): Block
    requires KeyLength(|key|)
  {
    Cipher(AesLayers(box), RoundKeys(KeyExpansion(box.forward, key)), RoundCount(key), block)
  }

  function DecryptBlock(box: SBox, key: seq<bv8>, block: Block): Block
    requires KeyLength(|key|)
  {
    InvCipher(AesLayers(box), RoundKeys(KeyExpansion(box.forward, key)), RoundCount(key), block)
  }

  /** For every key of 128, 192 or 256 bits and every block, decryption undoes encryption. */
  lemma DecryptBlockUndoes(box: SBox, key: seq<bv8>, block: Block)
    requires box.Bijective() && KeyLength(|key|)
    ensures DecryptBlock(box, key, EncryptBlock(box, key, block)) == block
  {
    hide AesLayers, RoundKeys, KeyExpansion, Cipher, InvCipher;
    AesLayersInvertible(box);
    InvCipherUndoesCipher(AesLayers(box), RoundKeys(KeyExpansion(box.forward, key)), RoundCount(key), block);
  }

  /** The words that ScheduleKey leaves in ekey. */
  ghost predicate ForwardSchedule(box: SBox, key: seq<bv8>, e: seq<bv32>)
    requires KeyLength(|key|)
  {
    |key| + 28 <= |e| && ToColumns(e[..|key| + 28]) == KeyExpansion(box.forward, key)
  }

  /** The words that ScheduleKey leaves in dkey. */
  ghost predicate InverseSchedule(box: SBox, key: seq<bv8>, e: seq<bv32>, d: seq<bv32>)
    requires KeyLength(|key|)
  {
    var nr := RoundCount(key);
    nr < |KeysOf(d)| && nr < |KeysOf(e)| && KeysOf(d)[..nr + 1] == EqInvKeys(AesLayers(box), KeysOf(e), nr)
  }

  lemma ForwardKeys(box: SBox, key: seq<bv8>, e: seq<bv32>)
    requires KeyLength(|key|) && ForwardSchedule(box, key, e)
    ensures RoundCount(key) < |KeysOf(e)|
    ensures KeysOf(e)[..RoundCount(key) + 1] == RoundKeys(KeyExpansion(box.forward, key))
  {
    hide ToColumn, KeyWord;
    var nr := RoundCount(key);
    assert 4 * (nr + 1) == |key| + 28;
    var w, ks := KeyExpansion(box.forward, key), RoundKeys(KeyExpansion(box.forward, key));
    forall r | 0 <= r <= nr
      ensures KeysOf(e)[r] == ks[r]
    {
      KeysOfAt(e, r);
      var head := e[..|key| + 28];
      assert forall c | 4 * r <= c < 4 * r + 4 :: w[c] == ToColumns(head)[c] == ToColumn(e[c]);
    }
  }

  /** On a forward schedule, the cipher of the code is the encryption of section 5.1. */
  lemma ScheduledEncrypt(box: SBox, key: seq<bv8>, e: seq<bv32>, block: Block)
    requires KeyLength(|key|) && ForwardSchedule(box, key, e)
    ensures RoundCount(key) < |KeysOf(e)|
    ensures Cipher(AesLayers(box), KeysOf(e), RoundCount(key), block) == EncryptBlock(box, key, block)
  {
    hide AesLayers, KeysOf, RoundKeys, KeyExpansion, Cipher, ForwardSchedule;
    ForwardKeys(box, key, e);
    CipherPrefix(AesLayers(box), KeysOf(e), RoundCount(key), block);
  }

  /** On the inverse schedule, the equivalent inverse cipher of the code is the decryption of section 5.3. */
  lemma ScheduledDecrypt(box: SBox, key: seq<bv8>, e: seq<bv32>, d: seq<bv32>, block: Block)
    requires box.Bijective() && KeyLength(|key|) && ForwardSchedule(box, key, e) && InverseSchedule(box, key, e, d)
    ensures RoundCount(key) < |KeysOf(d)|
    ensures EqInvCipher(AesLayers(box), KeysOf(d), RoundCount(key), block) == DecryptBlock(box, key, block)
  {
    hide AesLayers, KeysOf, RoundKeys, KeyExpansion, EqInvKeys, EqInvCipher, InvCipher, ForwardSchedule;
    var p, nr := AesLayers(box), RoundCount(key);
    var ks := RoundKeys(KeyExpansion(box.forward, key));
    ForwardKeys(box, key, e);
    EqInvKeysPrefix(p, KeysOf(e), nr);
    EqInvCipherPrefix(p, KeysOf(d), nr, block);
    AesLayersInvertible(box);
    EqInvCipherIsInvCipher(p, ks, nr, block);
  }

  lemma EqInvKeysPrefix(p: Layers, ks: seq<Block>, nr: nat)
    requires nr < |ks|
    ensures EqInvKeys(p, ks, nr) == EqInvKeys(p, ks[..nr + 1], nr)
  {}

  /** aes_decrypt under dkey undoes aes_encrypt under ekey, for the schedules of one call to schedule_key. */
  lemma AesRoundTrip(box: SBox, key: seq<bv8>, e: seq<bv32>, d: seq<bv32>, block: Block)
    requires box.Bijective() && KeyLength(|key|) && ForwardSchedule(box, key, e) && InverseSchedule(box, key, e, d)
    ensures var nr := RoundCount(key);
            && nr < |KeysOf(d)| && nr < |KeysOf(e)|
            && EqInvCipher(AesLayers(box), KeysOf(d), nr, Cipher(AesLayers(box), KeysOf(e), nr, block)) == block
  {
    hide AesLayers, KeysOf, EqInvCipher, Cipher, ForwardSchedule, InverseSchedule, EncryptBlock, DecryptBlock;
    ScheduledEncrypt(box, key, e, block);
    ScheduledDecrypt(box, key, e, d, EncryptBlock(box, key, block));
    DecryptBlockUndoes(box, key, block);
  }

  // ----- The two wrappers

  /** What k[] holds before the caller's key is copied in. */
  const DEFAULT_KEY: seq<bv8> := [
    0x12, 0x45, 0xaf, 0x31, 0x5e, 0x96, 0xe3, 0xd6, 0x9d, 0x7e, 0x49, 0x19, 0x42, 0x38, 0x48, 0x53,
    0x1a, 0x04, 0x32, 0x94, 0xa5, 0xd5, 0x4e, 0x20, 0xe8, 0x21, 0x50, 0x06, 0x0a, 0x4d, 0x58, 0x8a]

  function Min(a: nat, b: nat): nat { if a < b then a else b }

  /** Byte 0 of the AES-128 key is fixed; byte j is character n - j of the key string, or a default past its end. */
  function EffectiveKey(key: seq<bv8>): (k: seq<bv8>)
    ensures |k| == 16
  {
    var n := Min(|key|, 31);
    seq(16, j requires 0 <= j < 16 => if 1 <= j <= n then key[n - j] else DEFAULT_KEY[j])
  }

  /** Byte 0 is the terminator's place, and stays a default; the others are key characters as far as there are any. */
  lemma EffectiveKeyBytes(key: seq<bv8>)
    ensures EffectiveKey(key)[0] == 0x12
    ensures |key| <= 31 ==> forall j | 1 <= j < 16 && j <= |key| :: EffectiveKey(key)[j] == key[|key| - j]
    ensures |key| <= 31 ==> forall j | |key| < j < 16 :: EffectiveKey(key)[j] == DEFAULT_KEY[j]
    ensures 31 < |key| ==> EffectiveKey(key) == EffectiveKey(key[..31])
  {}

  /** The loop that fills k[] backwards; key is the string before its terminator. */
  method FillKey(key: seq<bv8>) returns (k: array<bv8>)
    ensures fresh(k) && k.Length == 32 && k[..16] == EffectiveKey(key)
  {
    k := new bv8[32](j requires 0 <= j < 32 => DEFAULT_KEY[j]);
    var i := |key|;
    if i >= 32 {
      i := 31;
    }
    ghost var n := i;
    var next := 0;
    while i > 0
      invariant 0 <= i && next == n - i && n == Min(|key|, 31)
      invariant forall j | 0 <= j < 32 :: k[j] == if i < j <= n then key[n - j] else DEFAULT_KEY[j]
    {
      k[i] := key[next];
      next := next + 1;
      i := i - 1;
    }
  }

  method EmiAesEncrypt(box: SBox, pt: array<bv8>, ct: array<bv8>, key: seq<bv8>) returns (ret: int)
    requires 16 <= pt.Length && 16 <= ct.Length
    modifies ct
    ensures ret == 0
    ensures BlockAt(ct[..]) == EncryptBlock(box, EffectiveKey(key), old(BlockAt(pt[..])))
    ensures ct[16..] == old(ct[16..])
  {
    hide BlockAt, EncryptBlock, AesLayers, KeysOf, Cipher, EffectiveKey, ToColumns, KeyExpansion;
    var k := FillKey(key);
    var ek := new bv32[60](_ => 0);
    ret := ScheduleKey(box, k, 16, ek, null);
    ScheduledEncrypt(box, k[..16], ek[..], BlockAt(pt[..]));
    AesEncrypt(box, pt, ct, ek, 10);
  }

  method EmiAesDecrypt(box: SBox, ct: array<bv8>, pt: array<bv8>, key: seq<bv8>) returns (ret: int)
    requires box.Bijective()
    requires 16 <= pt.Length && 16 <= ct.Length
    modifies pt
    ensures ret == 0
    ensures BlockAt(pt[..]) == DecryptBlock(box, EffectiveKey(key), old(BlockAt(ct[..])))
    ensures pt[16..] == old(pt[16..])
  {
    hide box.Bijective, BlockAt, DecryptBlock, AesLayers, KeysOf, EqInvCipher, EqInvKeys, EffectiveKey, ToColumns,
         KeyExpansion;
    var k := FillKey(key);
    var dk := new bv32[60](_ => 0);
    var ek := new bv32[60];
    ret := ScheduleKey(box, k, 16, ek, dk);
    ScheduledDecrypt(box, k[..16], ek[..], dk[..], BlockAt(ct[..]));
    AesDecrypt(box, ct, pt, dk, 10);
  }

  /**
   * What of a key string reaches the AES key: the last 15 of its first 31 characters; a shorter string is completed
   * in front by the default bytes, from byte 15 on downwards.
   */
  function Window(key: seq<bv8>): (w: seq<bv8>)
    ensures |w| == 15
  {
    var n := Min(|key|, 31);
    if 15 <= n then key[n - 15..n]
    else seq(15 - n, i requires 0 <= i < 15 - n => DEFAULT_KEY[15 - i]) + key[..n]
  }

  lemma WindowAt(key: seq<bv8>, j: nat)
    requires 1 <= j < 16
    ensures EffectiveKey(key)[j] == Window(key)[15 - j]
  {}

  /** Two key strings give the same AES key exactly when their windows agree. */
  lemma EffectiveKeyIsWindow(key: seq<bv8>, key': seq<bv8>)
    ensures EffectiveKey(key) == EffectiveKey(key') <==> Window(key) == Window(key')
  {
    var k, k' := EffectiveKey(key), EffectiveKey(key');
    assert k[0] == k'[0] == DEFAULT_KEY[0];
    forall j | 1 <= j < 16
      ensures k[j] == Window(key)[15 - j] && k'[j] == Window(key')[15 - j]
    {
      WindowAt(key, j);
      WindowAt(key', j);
    }
    hide EffectiveKey, Window;
    if k == k' {
      forall c | 0 <= c < 15
        ensures Window(key)[c] == Window(key')[c]
      {
        assert k[15 - c] == k'[15 - c];
      }
    }
  }

  // ----- On arrays

  lemma BlockHoldsBytes(a: seq<bv8>, b: seq<bv8>)
    requires 16 <= |a| && 16 <= |b| && BlockAt(a) == BlockAt(b)
    ensures a[..16] == b[..16]
  {}

  /** schedule_key, aes_encrypt and aes_decrypt in a row, for each key length: the first 16 bytes come back. */
  method EncryptAndDecrypt(box: SBox, key: array<bv8>, keylen: int, pt: array<bv8>, ct: array<bv8>, out: array<bv8>)
    requires box.Bijective() && KeyLength(keylen) && keylen <= key.Length
    requires 16 <= pt.Length && 16 <= ct.Length && 16 <= out.Length
    modifies ct, out
    ensures out[..16] == old(pt[..16])
  {
    hide box.Bijective, BlockAt, AesLayers, KeysOf, Cipher, EqInvCipher, EqInvKeys, ToColumns, KeyExpansion;
    ghost var bytes, input := key[..keylen], pt[..];
    var ekey, dkey := new bv32[60], new bv32[60];
    var ret := ScheduleKey(box, key, keylen, ekey, dkey);
    var nr := keylen / 4 + 6;
    AesEncrypt(box, pt, ct, ekey, nr);
    AesDecrypt(box, ct, out, dkey, nr);
    AesRoundTrip(box, bytes, ekey[..], dkey[..], BlockAt(input));
    BlockHoldsBytes(out[..], input);
  }
}
