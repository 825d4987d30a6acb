/** The package HMAC: `integrity.rs`. */
module Integrity {
  import opened Errors
  import opened Octets
  import opened Crypto
  import opened BlockKeys

  const BLOCK_DATA_INTEGRITY_KEY: Bytes := [0x5F, 0xB2, 0xAD, 0x01, 0x0C, 0xB9, 0xE1, 0xF6]
  const BLOCK_DATA_INTEGRITY_VALUE: Bytes := [0xA0, 0x67, 0x7F, 0x02, 0xB2, 0x2C, 0x84, 0x33]

  datatype IntegrityPolicy = Required | RequireWhereDefined | VerifyIfPresent | Skip

  datatype IntegrityOutcome = Verified | NotDeclared | NotApplicable | Skipped

  datatype IntegrityMaterial = IntegrityMaterial(
    keyDataSalt: Bytes,
    blockSize: nat,
    hashSize: nat,
    hash: HashAlgorithm,
    encryptedHmacKey: Bytes,
    encryptedHmacValue: Bytes)

  /** Decrypt one blob and cut it back to the digest length; shorter is an error. */
  function UnwrapBlob(p: Crypto, sessionKey: Bytes, blob: Bytes, iv: Bytes, hashSize: nat, field: FileField)
    : (r: Result<Bytes>)
    ensures r.Ok? ==> |r.value| == hashSize
    ensures r.Err? && AesKey(sessionKey) && |iv| == AES_BLOCK ==> r.error.BadParameters? && r.error.field == field
  {
    if |blob| < hashSize || |blob| % AES_BLOCK != 0 then
      Err(BadParameters(field, Disagrees(|blob|, RoundUp(hashSize))))
    else
      var plain :- AesCbcDecrypt(p, blob, sessionKey, iv);
      Ok(plain[..hashSize])
  }

  /** The HMAC key and the declared tag, unwrapped once for every pass. */
  datatype IntegrityCheck = IntegrityCheck(hash: HashAlgorithm, hmacKey: Bytes, expected: Bytes) {

    /** Whether a message carries the declared tag. */
    predicate Accepts(p: Crypto, message: Bytes) {
      p.mac(hash, hmacKey, message) == expected
    }
  }

  function NewCheck(p: Crypto, sessionKey: Bytes, m: IntegrityMaterial): (r: Result<IntegrityCheck>)
    ensures r.Ok? ==> r.value.hash == m.hash
    ensures r.Err? && AesKey(sessionKey) ==> !r.error.Internal()
  {
    if m.hashSize != m.hash.DigestLen() then
      Err(BadParameters(KeyDataHashSize, DigestMismatch(m.hashSize)))
    else if m.blockSize != AES_BLOCK then
      Err(BadParameters(KeyDataBlockSize, NotRequiredValue(m.blockSize, AES_BLOCK)))
    else
      var iv1 := Iv(p, m.hash, m.keyDataSalt, BLOCK_DATA_INTEGRITY_KEY);
      var iv2 := Iv(p, m.hash, m.keyDataSalt, BLOCK_DATA_INTEGRITY_VALUE);
      var hmacKey :- UnwrapBlob(p, sessionKey, m.encryptedHmacKey, iv1, m.hashSize, EncryptedHmacKey);
      var expected :- UnwrapBlob(p, sessionKey, m.encryptedHmacValue, iv2, m.hashSize, EncryptedHmacValue);
      Ok(IntegrityCheck(m.hash, hmacKey, expected))
  }

  method Finish(p: Crypto, check: IntegrityCheck, mac: HmacState) returns (r: Result<()>)
    requires mac.hash == check.hash && mac.key == check.hmacKey
    ensures r == if check.Accepts(p, mac.fed) then Ok(()) else Err(IntegrityCheckFailed)
  {
    var actual := mac.Finalize(p);
    r := if actual != check.expected then Err(IntegrityCheckFailed) else Ok(());
  }

  datatype SealedBlobs = SealedBlobs(hmacKey: Bytes, hmacValue: Bytes)

  /** The two blobs of a tag: key and tag zero-padded to the block and encrypted. */
  function SealTag(p: Crypto, sessionKey: Bytes, hash: HashAlgorithm, salt: Bytes, blockSize: nat, hmacKey: Bytes,
                   tag: Bytes)
    : (r: Result<SealedBlobs>)
    ensures r.Ok? <==> blockSize == AES_BLOCK && AesKey(sessionKey)
    ensures r.Ok? ==> |r.value.hmacKey| == RoundUp(|hmacKey|) && |r.value.hmacValue| == RoundUp(|tag|)
  {
    if blockSize != AES_BLOCK then Err(InvariantViolated(AesIvLength))
    else
      var iv1 := Iv(p, hash, salt, BLOCK_DATA_INTEGRITY_KEY);
      var iv2 := Iv(p, hash, salt, BLOCK_DATA_INTEGRITY_VALUE);
      var sealedKey :- AesCbcEncrypt(p, Pad(hmacKey), sessionKey, iv1);
      Ok(SealedBlobs(sealedKey, AesCbcEncrypt(p, Pad(tag), sessionKey, iv2).value))
  }

  /** A slot allocated at its final length, zero before the secret goes in. */
  method PaddedSlot(secret: Bytes) returns (slot: array<Byte>)
    ensures fresh(slot) && slot[..] == Pad(secret)
  {
    slot := new Byte[RoundUp(|secret|)](_ => 0);
    forall i | 0 <= i < |secret| {
      slot[i] := secret[i];
    }
  }

  method Seal(p: Crypto, sessionKey: Bytes, hash: HashAlgorithm, salt: Bytes, blockSize: nat, hmacKey: Bytes,
              mac: HmacState)
    returns (r: Result<SealedBlobs>)
    ensures r == SealTag(p, sessionKey, hash, salt, blockSize, hmacKey, mac.Finalize(p))
  {
    if blockSize != AES_BLOCK {
      return Err(InvariantViolated(AesIvLength));
    }
    var iv1 := Iv(p, hash, salt, BLOCK_DATA_INTEGRITY_KEY);
    var iv2 := Iv(p, hash, salt, BLOCK_DATA_INTEGRITY_VALUE);
    var keySlot := PaddedSlot(hmacKey);
    var sealedKey :- AesCbcEncrypt(p, keySlot[..], sessionKey, iv1);
    var tag := mac.Finalize(p);
    var tagSlot := PaddedSlot(tag);
    var sealedTag := AesCbcEncrypt(p, tagSlot[..], sessionKey, iv2);
    return Ok(SealedBlobs(sealedKey, sealedTag.value));
  }

  /** Key and tag survive the blobs, for every hash and every AES key length. */
  lemma CheckRecoversWhatWasSealed(p: Crypto, sessionKey: Bytes, hash: HashAlgorithm, salt: Bytes, hmacKey: Bytes,
                                   tag: Bytes)
    requires AesKey(sessionKey) && |hmacKey| == |tag| == hash.DigestLen()
    ensures
      var blobs := SealTag(p, sessionKey, hash, salt, AES_BLOCK, hmacKey, tag).value;
      NewCheck(p, sessionKey,
               IntegrityMaterial(salt, AES_BLOCK, hash.DigestLen(), hash, blobs.hmacKey, blobs.hmacValue))
        == Ok(IntegrityCheck(hash, hmacKey, tag))
  {
    var iv1 := Iv(p, hash, salt, BLOCK_DATA_INTEGRITY_KEY);
    var iv2 := Iv(p, hash, salt, BLOCK_DATA_INTEGRITY_VALUE);
    DecryptUndoesEncrypt(p, Pad(hmacKey), sessionKey, iv1);
    DecryptUndoesEncrypt(p, Pad(tag), sessionKey, iv2);
    assert Pad(hmacKey)[..|hmacKey|] == hmacKey && Pad(tag)[..|tag|] == tag;
  }
}
