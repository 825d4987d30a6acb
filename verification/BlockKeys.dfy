/** The cipher seam and the password key schedule of `agile.rs`. */
module BlockKeys {
  import opened Errors
  import opened Octets
  import opened Crypto

  // 2.3.4.13 of [MS-OFFCRYPTO]: the block keys of the three password-encryptor blobs.
  const BLOCK_VERIFIER_INPUT: Bytes := [0xFE, 0xA7, 0xD2, 0x76, 0x3B, 0x4B, 0x9E, 0x79]
  const BLOCK_VERIFIER_HASH: Bytes := [0xD7, 0xAA, 0x0F, 0x6D, 0x30, 0x61, 0x34, 0x4E]
  const BLOCK_KEY_VALUE: Bytes := [0x14, 0x6E, 0x0B, 0xE7, 0xAB, 0xAC, 0xD0, 0xD6]

  function CheckCbcLengths(key: Bytes, iv: Bytes): Result<()> {
    if !AesKey(key) then Err(InvariantViolated(AesKeyLength))
    else if |iv| != AES_BLOCK then Err(InvariantViolated(AesIvLength))
    else Ok(())
  }

  function AesCbcEncrypt(p: Crypto, plain: Bytes, key: Bytes, iv: Bytes): (r: Result<Bytes>)
    ensures r.Ok? <==> AesReady(key, iv, plain)
    ensures r.Ok? ==> |r.value| == |plain|
  {
    var _ :- CheckCbcLengths(key, iv);
    if |plain| % AES_BLOCK != 0 then Err(CipherError) else Ok(p.encrypt(key, iv, plain))
  }

  function AesCbcDecrypt(p: Crypto, cipher: Bytes, key: Bytes, iv: Bytes): (r: Result<Bytes>)
    ensures r.Ok? <==> AesReady(key, iv, cipher)
    ensures r.Ok? ==> |r.value| == |cipher|
  {
    var _ :- CheckCbcLengths(key, iv);
    if |cipher| % AES_BLOCK != 0 then Err(CipherError) else Ok(p.decrypt(key, iv, cipher))
  }

  /** Every blob and every segment comes back through the seam it went out by. */
  lemma DecryptUndoesEncrypt(p: Crypto, plain: Bytes, key: Bytes, iv: Bytes)
    requires AesReady(key, iv, plain)
    ensures AesCbcDecrypt(p, AesCbcEncrypt(p, plain, key, iv).value, key, iv) == Ok(plain)
  {
    assert p.CipherLaws();
  }

  method AesCbcEncryptInPlace(p: Crypto, slot: array<Byte>, n: nat, key: Bytes, iv: Bytes) returns (r: Result<()>)
    requires n <= slot.Length
    modifies slot
    ensures r.Ok? <==> AesReady(key, iv, old(slot[..n]))
    ensures r.Ok? ==> slot[..n] == p.encrypt(key, iv, old(slot[..n]))
    ensures r.Err? ==> slot[..] == old(slot[..]) && r.error.Internal()
    ensures slot[n..] == old(slot[n..])
  {
    var out := AesCbcEncrypt(p, slot[..n], key, iv);
    if out.Err? {
      return Err(out.error);
    }
    forall i | 0 <= i < n {
      slot[i] := out.value[i];
    }
    return Ok(());
  }

  method AesCbcDecryptInPlace(p: Crypto, slot: array<Byte>, n: nat, key: Bytes, iv: Bytes) returns (r: Result<()>)
    requires n <= slot.Length
    modifies slot
    ensures r.Ok? <==> AesReady(key, iv, old(slot[..n]))
    ensures r.Ok? ==> slot[..n] == p.decrypt(key, iv, old(slot[..n]))
    ensures r.Err? ==> slot[..] == old(slot[..]) && r.error.Internal()
    ensures slot[n..] == old(slot[n..])
  {
    var out := AesCbcDecrypt(p, slot[..n], key, iv);
    if out.Err? {
      return Err(out.error);
    }
    forall i | 0 <= i < n {
      slot[i] := out.value[i];
    }
    return Ok(());
  }

  /** `H_0 = H(salt || password)`, `H_(i+1) = H(LE32(i) || H_i)`: section 2.3.4.11. */
  function SpinHash(p: Crypto, hash: HashAlgorithm, password: Bytes, salt: Bytes, rounds: nat): (h: Bytes)
    ensures |h| == hash.DigestLen()
  {
    if rounds == 0 then DigestTwo(p, hash, salt, password)
    else DigestTwo(p, hash, Le32(rounds - 1), SpinHash(p, hash, password, salt, rounds - 1))
  }

  /** Every hash of the spin: the salt before the password, and each round's number before the hash so far. */
  ghost predicate Spun(p: Crypto, hash: HashAlgorithm, salt: Bytes, password: Bytes, hs: seq<Bytes>) {
    && hs != [] && hs[0] == p.digest(hash, salt + password)
    && forall i :: 0 <= i < |hs| - 1 ==> hs[i + 1] == p.digest(hash, Counter(i) + hs[i])
  }

  lemma {:induction false} SpinIsTheChain(p: Crypto, hash: HashAlgorithm, salt: Bytes, password: Bytes, hs: seq<Bytes>)
    requires Spun(p, hash, salt, password, hs)
    ensures SpinHash(p, hash, password, salt, |hs| - 1) == hs[|hs| - 1]
    decreases |hs|
  {
    if |hs| > 1 {
      var n := |hs| - 2;
      var before := hs[..n + 1];
      assert Spun(p, hash, salt, password, before) && before[n] == hs[n];
      SpinIsTheChain(p, hash, salt, password, before);
      FourBytes(n);
      assert hs[n + 1] == p.digest(hash, Counter(n) + hs[n]);
    }
  }

  /** There is such a chain, of every length. */
  lemma {:induction false} ChainOf(p: Crypto, hash: HashAlgorithm, salt: Bytes, password: Bytes, rounds: nat)
    returns (hs: seq<Bytes>)
    ensures Spun(p, hash, salt, password, hs) && |hs| == rounds + 1
  {
    if rounds == 0 {
      hs := [p.digest(hash, salt + password)];
    } else {
      var before := ChainOf(p, hash, salt, password, rounds - 1);
      hs := before + [p.digest(hash, Counter(rounds - 1) + before[rounds - 1])];
      assert forall i :: 0 <= i < rounds ==> hs[i] == before[i];
    }
  }

  /** The two wiped buffers of the loop, each round reading one and writing the other. */
  method ComputeSpinHash(p: Crypto, hash: HashAlgorithm, password: Bytes, salt: Bytes, spinCount: nat)
    returns (h: Bytes)
    ensures h == SpinHash(p, hash, password, salt, spinCount)
    ensures forall hs :: Spun(p, hash, salt, password, hs) && |hs| == spinCount + 1 ==> h == hs[spinCount]
  {
    var current := new Byte[hash.DigestLen()];
    DigestTwoInto(p, hash, salt, password, current);
    var next := new Byte[hash.DigestLen()];
    for i := 0 to spinCount
      invariant fresh(current) && fresh(next) && current != next
      invariant current.Length == next.Length == hash.DigestLen()
      invariant current[..] == SpinHash(p, hash, password, salt, i)
    {
      DigestTwoInto(p, hash, Le32(i), current[..], next);
      current, next := next, current;
    }
    h := current[..];
    forall hs | Spun(p, hash, salt, password, hs) && |hs| == spinCount + 1
      ensures h == hs[spinCount]
    {
      SpinIsTheChain(p, hash, salt, password, hs);
    }
  }

  /** `H(H_final || blockKey)`, truncated and never padded. */
  function DeriveBlockKey(p: Crypto, hash: HashAlgorithm, hFinal: Bytes, blockKey: Bytes, keyBits: nat)
    : (r: Result<Bytes>)
    ensures r.Ok? <==> hash.CanCarryKeyBits(keyBits)
    ensures r.Ok? ==> |r.value| == keyBits / 8
  {
    if !hash.CanCarryKeyBits(keyBits) then Err(UnusableKeyBits(keyBits))
    else Ok(DigestTwo(p, hash, hFinal, blockKey)[..keyBits / 8])
  }

  function UnusableKeyBits(keyBits: nat): Error {
    BadParameters(EncryptedKeyKeyBits, DigestMismatch(keyBits))
  }
}
