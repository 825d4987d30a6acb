/**
 The two RC4 families of the binary formats, from their header structures to the schedule
 a right password gives: `rc4_office97.rs`, `rc4_cryptoapi.rs` and the check in `rc4.rs`.
 */
module Rc4Headers {
  import opened Errors
  import opened Octets
  import opened LegacyCiphers

  /** The hashes and RC4 as unknown functions, and the array a password's obfuscation has. */
  datatype LegacyPrimitives = LegacyPrimitives(
    md5: Bytes -> Bytes,
    sha1: Bytes -> Bytes,
    rc4: (Bytes, nat) -> Byte,
    obfuscator: Bytes -> Option<Obfuscator>)
  {
    ghost predicate Lawful() {
      && (forall x :: |md5(x)| == 16)
      && (forall x :: |sha1(x)| == 20)
      && (forall x :: obfuscator(x).Some? ==> obfuscator(x).value.Sized())
    }
  }

  /** Nothing is known of them but the lengths of digests and arrays. */
  type Legacies = f: LegacyPrimitives | f.Lawful() witness
    LegacyPrimitives(x => Zeros(16), x => Zeros(20), (k, i) => 0, x => None)

  /** A range copied into a slot of fixed length; any other length is the program's fault. */
  function Slot(b: Bytes, from: nat, to: nat, len: nat): (r: Result<Bytes>)
    ensures r.Ok? <==> from <= to <= |b| && to - from == len
    ensures r.Ok? ==> r.value == b[from..to]
  {
    if from <= to <= |b| && to - from == len then Ok(b[from..to]) else Err(InvariantViolated(InternalSlice))
  }

  // ----- the password check -----

  /** A run under one block's keystream from an offset into it. */
  function KeyedFrom(s: Schedule, data: Bytes, block: nat, offset: nat): (out: Bytes)
    ensures |out| == |data|
  {
    seq<Byte>(|data|, i requires 0 <= i < |data| => Xor(data[i], s.keystream(block, offset + i)))
  }

  lemma KeyedFromTwice(s: Schedule, data: Bytes, block: nat, offset: nat)
    ensures KeyedFrom(s, KeyedFrom(s, data, block, offset), block, offset) == data
  {
    forall i | 0 <= i < |data|
      ensures KeyedFrom(s, KeyedFrom(s, data, block, offset), block, offset)[i] == data[i]
    {
      XorUndone(data[i], s.keystream(block, offset + i));
    }
  }

  /** Verifier and hash from one keystream, not reset between the two: section 2.3.5.6 of [MS-OFFCRYPTO]. */
  function VerifyPassword(s: Schedule, verifier: Bytes, verifierHash: Bytes, digest: Bytes -> Bytes): (r: Result<()>)
    ensures r.Err? && s.Takes(0) ==> r.error == WrongPassword
  {
    if !s.Takes(0) then Err(InvariantViolated(Rc4KeyLength))
    else if digest(KeyedFrom(s, verifier, 0, 0)) == KeyedFrom(s, verifierHash, 0, |verifier|) then Ok(())
    else Err(WrongPassword)
  }

  /** What a writer stores for a verifier passes the check. */
  lemma StoredVerifierPasses(s: Schedule, verifier: Bytes, digest: Bytes -> Bytes)
    requires s.Takes(0)
    ensures
      VerifyPassword(s, KeyedFrom(s, verifier, 0, 0), KeyedFrom(s, digest(verifier), 0, |verifier|), digest) == Ok(())
  {
    KeyedFromTwice(s, verifier, 0, 0);
    KeyedFromTwice(s, digest(verifier), 0, |verifier|);
  }

  // ----- Office 97: version 1.1 -----

  datatype Office97Header = Office97Header(salt: Bytes, verifier: Bytes, verifierHash: Bytes)

  /** The structure of section 2.3.6.1: 52 bytes and no size field. No bytes reach a fault of the program. */
  function ParseOffice97(structure: Bytes): (r: Result<Office97Header>)
    ensures r.Ok? ==> |r.value.salt| == |r.value.verifier| == |r.value.verifierHash| == 16
    ensures r.Err? ==> !r.error.Internal()
  {
    var major, minor := ReadLe16(structure, 0), ReadLe16(structure, 2);
    if major.None? || minor.None? then Err(BadParameters(Rc4Office97Header, Truncated(|structure|, 4)))
    else if major.value != 1 || minor.value != 1 then Err(UnsupportedEncryptionVersion(major.value, minor.value))
    else if |structure| < 52 then Err(BadParameters(Rc4Office97Header, Truncated(|structure|, 52)))
    else
      var body := structure[4..52];
      var salt :- Slot(body, 0, 16, 16);
      var verifier :- Slot(body, 16, 32, 16);
      var verifierHash :- Slot(body, 32, 48, 16);
      Ok(Office97Header(salt, verifier, verifierHash))
  }

  function Repeated(x: Bytes, n: nat): Bytes {
    if n == 0 then [] else x + Repeated(x, n - 1)
  }

  /** Forty bits of MD5 over sixteen repetitions of forty bits of MD5 and the salt: section 2.3.6.2. */
  function TruncatedH1(f: Legacies, password: Bytes, salt: Bytes): (h: Bytes)
    ensures |h| == 5
  {
    f.md5(Repeated(f.md5(password)[..5] + salt, 16))[..5]
  }

  function Office97Schedule(f: Legacies, password: Bytes, salt: Bytes): (s: Schedule)
    ensures s.Keyable()
  {
    var h1 := TruncatedH1(f, password, salt);
    var s := Schedule((block: nat) => f.md5(h1 + Le32(block)), f.rc4);
    assert forall block: nat :: s.keys(block) == f.md5(h1 + Le32(block)) && |s.keys(block)| == 16;
    s
  }

  function OpenOffice97(f: Legacies, structure: Bytes, password: Bytes): (r: Result<Schedule>)
    ensures r.Ok? ==> r.value.Keyable()
    ensures r.Err? ==> !r.error.Internal()
  {
    var header :- ParseOffice97(structure);
    var schedule := Office97Schedule(f, password, header.salt);
    var _ :- VerifyPassword(schedule, header.verifier, header.verifierHash, f.md5);
    Ok(schedule)
  }

  // ----- CryptoAPI: versions 2.2 to 4.2 -----

  const RC4_ENCRYPTION_HEADER_SIZE_MAX: nat := 1024
  const RC4_KEY_BITS_DEFAULT: nat := 40
  const ALG_ID_RC4: nat := 0x6801
  const ALG_ID_HASH_SHA1: nat := 0x8004

  /** Section 2.3.5.1: 40 to 128 bits in steps of eight. */
  predicate Rc4KeyBits(bits: nat) {
    40 <= bits <= 128 && bits % 8 == 0
  }

  datatype CryptoApiHeader = CryptoApiHeader(keyBits: nat, flags: nat, salt: Bytes, verifier: Bytes,
                                             verifierHash: Bytes) {

    /** `fDocProps`: the properties are not encrypted. */
    predicate PropertiesClear() {
      flags / 8 % 2 == 1
    }
  }

  /** The fixed part of the header: what this path cannot serve, by name, and then the key size. */
  function ParseFixed(header: Bytes): (r: Result<(nat, nat)>)
    ensures r.Ok? ==> Rc4KeyBits(r.value.0)
    ensures r.Err? && |header| >= 32 ==> !r.error.Internal()
  {
    var flags, algId := ReadLe32(header, 0), ReadLe32(header, 8);
    var algIdHash, keySize := ReadLe32(header, 12), ReadLe32(header, 16);
    if flags.None? || algId.None? || algIdHash.None? || keySize.None? then
      Err(InvariantViolated(InternalSlice))
    else if flags.value / 0x10 % 2 == 1 then Err(UnsupportedAlgorithm("fExternal"))
    else if flags.value / 0x20 % 2 == 1 then Err(UnsupportedAlgorithm("fAES"))
    else if flags.value / 4 % 2 == 0 then Err(BadParameters(EncryptionHeaderFlags, FlagClear))
    else if algId.value != 0 && algId.value != ALG_ID_RC4 then Err(UnsupportedAlgorithm("AlgID"))
    else if algIdHash.value != 0 && algIdHash.value != ALG_ID_HASH_SHA1 then Err(UnsupportedAlgorithm("AlgIDHash"))
    else
      var keyBits := if keySize.value == 0 then RC4_KEY_BITS_DEFAULT else keySize.value;
      if !Rc4KeyBits(keyBits) then Err(BadParameters(EncryptionHeaderKeySize, NotInSet(keySize.value)))
      else Ok((keyBits, flags.value))
  }

  function ParseVerifier(verifier: Bytes, keyBits: nat, flags: nat): (r: Result<CryptoApiHeader>)
    ensures r.Ok? ==> |r.value.salt| == |r.value.verifier| == 16 && |r.value.verifierHash| == 20
    ensures r.Ok? ==> r.value.keyBits == keyBits && r.value.flags == flags
    ensures r.Err? && |verifier| == 60 ==> !r.error.Internal()
  {
    var saltSize, hashSize := ReadLe32(verifier, 0), ReadLe32(verifier, 36);
    if saltSize.None? || hashSize.None? then
      Err(InvariantViolated(InternalSlice))
    else if saltSize.value != 16 then Err(BadParameters(VerifierSaltSize, NotRequiredValue(saltSize.value, 16)))
    else if hashSize.value != 20 then Err(BadParameters(VerifierHashSize, NotRequiredValue(hashSize.value, 20)))
    else
      var salt :- Slot(verifier, 4, 20, 16);
      var stored :- Slot(verifier, 20, 36, 16);
      var hash :- Slot(verifier, 40, 60, 20);
      Ok(CryptoApiHeader(keyBits, flags, salt, stored, hash))
  }

  /** The structure of section 2.3.5.1. No bytes reach a fault of the program. */
  function ParseCryptoApi(structure: Bytes): (r: Result<CryptoApiHeader>)
    ensures r.Ok? ==> Rc4KeyBits(r.value.keyBits)
    ensures r.Ok? ==> |r.value.salt| == |r.value.verifier| == 16 && |r.value.verifierHash| == 20
    ensures r.Err? ==> !r.error.Internal()
  {
    var major, minor, size := ReadLe16(structure, 0), ReadLe16(structure, 2), ReadLe32(structure, 8);
    if major.None? || minor.None? || size.None? then
      Err(BadParameters(EncryptionInfoStructure, Truncated(|structure|, 12)))
    else if !(2 <= major.value <= 4) || minor.value != 2 then
      Err(UnsupportedEncryptionVersion(major.value, minor.value))
    else if size.value < 32 || size.value > RC4_ENCRYPTION_HEADER_SIZE_MAX then
      Err(BadParameters(EncryptionHeaderSize, OutOfRange(size.value, 32, RC4_ENCRYPTION_HEADER_SIZE_MAX)))
    else if 12 + size.value > |structure| then
      Err(BadParameters(EncryptionHeaderSize, OutOfBounds(12, size.value, |structure|)))
    else
      var end := 12 + size.value;
      var fixed :- ParseFixed(structure[12..end]);
      if end + 60 > |structure| then
        Err(BadParameters(EncryptionVerifier, Truncated(|structure| - end, 60)))
      else
        ParseVerifier(structure[end..end + 60], fixed.0, fixed.1)
  }

  /** Forty bits are padded to a key of 128; every other size is cut from the digest. */
  function CryptoApiKey(f: Legacies, h0: Bytes, keyBits: nat, block: nat): (key: Bytes)
    ensures Rc4KeyBits(keyBits) ==> 5 <= |key| <= 16
  {
    var hFinal := f.sha1(h0 + Le32(block));
    if keyBits == RC4_KEY_BITS_DEFAULT then hFinal[..5] + Zeros(11) else Take(hFinal, keyBits / 8)
  }

  /** The schedule bounds its key size again: nothing that parsed is refused. */
  function CryptoApiSchedule(f: Legacies, password: Bytes, salt: Bytes, keyBits: nat): (r: Result<Schedule>)
    ensures r.Ok? <==> Rc4KeyBits(keyBits)
    ensures r.Ok? ==> r.value.Keyable()
  {
    if !Rc4KeyBits(keyBits) then Err(InvariantViolated(Rc4KeyLength))
    else
      var h0 := f.sha1(salt + password);
      Ok(Schedule((block: nat) => CryptoApiKey(f, h0, keyBits, block), f.rc4))
  }

  function OpenCryptoApi(f: Legacies, structure: Bytes, password: Bytes): (r: Result<(Schedule, bool)>)
    ensures r.Ok? ==> r.value.0.Keyable()
    ensures r.Err? ==> !r.error.Internal()
  {
    var header :- ParseCryptoApi(structure);
    // The parse bounds the key size, so there is a schedule.
    var schedule := CryptoApiSchedule(f, password, header.salt, header.keyBits).value;
    var _ :- VerifyPassword(schedule, header.verifier, header.verifierHash, f.sha1);
    Ok((schedule, header.PropertiesClear()))
  }

  // ----- the writers of sections 2.3.5.1 and 2.3.6.1 -----

  function WrittenOffice97(h: Office97Header): Bytes {
    Le16(1) + Le16(1) + (h.salt + (h.verifier + h.verifierHash))
  }

  lemma Office97ReadsBack(h: Office97Header, after: Bytes)
    requires |h.salt| == |h.verifier| == |h.verifierHash| == 16
    ensures ParseOffice97(WrittenOffice97(h) + after) == Ok(h)
  {
    var b := WrittenOffice97(h) + after;
    var body := h.salt + (h.verifier + h.verifierHash);
    assert b[0..52] == Le16(1) + Le16(1) + body;
    Split(b, 0, Le16(1) + Le16(1), body);
    Split(b, 0, Le16(1), Le16(1));
    ReadBack16(b, 0, 1);
    ReadBack16(b, 2, 1);
    assert body[0..48] == body;
    Split(body, 0, h.salt, h.verifier + h.verifierHash);
    Split(body, 16, h.verifier, h.verifierHash);
  }

  /** What Office 97 stores for a password opens with it. */
  lemma Office97Opens(f: Legacies, password: Bytes, salt: Bytes, verifier: Bytes, after: Bytes)
    requires |salt| == |verifier| == 16
    ensures
      var s := Office97Schedule(f, password, salt);
      var h := Office97Header(salt, KeyedFrom(s, verifier, 0, 0), KeyedFrom(s, f.md5(verifier), 0, 16));
      OpenOffice97(f, WrittenOffice97(h) + after, password) == Ok(s)
  {
    var s := Office97Schedule(f, password, salt);
    var h := Office97Header(salt, KeyedFrom(s, verifier, 0, 0), KeyedFrom(s, f.md5(verifier), 0, 16));
    Office97ReadsBack(h, after);
    StoredVerifierPasses(s, verifier, f.md5);
  }

  /** `extra` is the rest of the fixed part and the provider's name. */
  function WrittenFixed(flags: nat, keySize: nat, extra: Bytes): (b: Bytes)
    ensures |b| == 20 + |extra|
  {
    Le32(flags) + (Le32(0) + (Le32(ALG_ID_RC4) + (Le32(ALG_ID_HASH_SHA1) + (Le32(keySize) + extra))))
  }

  function WrittenVerifier(salt: Bytes, verifier: Bytes, verifierHash: Bytes): Bytes {
    Le32(16) + (salt + (verifier + (Le32(20) + verifierHash)))
  }

  function WrittenCryptoApi(h: CryptoApiHeader, keySize: nat, extra: Bytes): Bytes {
    Le16(4) + Le16(2) + Le32(h.flags) + Le32(20 + |extra|)
    + (WrittenFixed(h.flags, keySize, extra) + WrittenVerifier(h.salt, h.verifier, h.verifierHash))
  }

  /** RC4 with CryptoAPI, neither external nor AES. */
  predicate ServedFlags(flags: nat) {
    flags < U32_LIMIT && flags / 4 % 2 == 1 && flags / 0x10 % 2 == 0 && flags / 0x20 % 2 == 0
  }

  lemma FixedReadsBack(flags: nat, keySize: nat, extra: Bytes)
    requires ServedFlags(flags) && keySize < U32_LIMIT && |extra| >= 12
    requires Rc4KeyBits(keySize)
    ensures ParseFixed(WrittenFixed(flags, keySize, extra)) == Ok((keySize, flags))
  {
    var b := WrittenFixed(flags, keySize, extra);
    var t4 := Le32(keySize) + extra;
    var t3 := Le32(ALG_ID_HASH_SHA1) + t4;
    var t2 := Le32(ALG_ID_RC4) + t3;
    var t1 := Le32(0) + t2;
    assert b[0..] == b;
    SplitTail(b, 0, Le32(flags), t1);
    SplitTail(b, 4, Le32(0), t2);
    SplitTail(b, 8, Le32(ALG_ID_RC4), t3);
    SplitTail(b, 12, Le32(ALG_ID_HASH_SHA1), t4);
    SplitTail(b, 16, Le32(keySize), extra);
    ReadBack32(b, 0, flags);
    ReadBack32(b, 8, ALG_ID_RC4);
    ReadBack32(b, 12, ALG_ID_HASH_SHA1);
    ReadBack32(b, 16, keySize);
  }

  lemma VerifierReadsBack(h: CryptoApiHeader)
    requires |h.salt| == |h.verifier| == 16 && |h.verifierHash| == 20
    ensures ParseVerifier(WrittenVerifier(h.salt, h.verifier, h.verifierHash), h.keyBits, h.flags) == Ok(h)
  {
    var b := WrittenVerifier(h.salt, h.verifier, h.verifierHash);
    var t3 := Le32(20) + h.verifierHash;
    var t2 := h.verifier + t3;
    var t1 := h.salt + t2;
    assert b[0..] == b;
    SplitTail(b, 0, Le32(16), t1);
    SplitTail(b, 4, h.salt, t2);
    SplitTail(b, 20, h.verifier, t3);
    SplitTail(b, 36, Le32(20), h.verifierHash);
    assert b[40..60] == b[40..];
    ReadBack32(b, 0, 16);
    ReadBack32(b, 36, 20);
  }

  lemma CryptoApiReadsBack(h: CryptoApiHeader, extra: Bytes, after: Bytes)
    requires ServedFlags(h.flags) && Rc4KeyBits(h.keyBits) && 12 <= |extra| <= 1004
    requires |h.salt| == |h.verifier| == 16 && |h.verifierHash| == 20
    ensures ParseCryptoApi(WrittenCryptoApi(h, h.keyBits, extra) + after) == Ok(h)
  {
    var b := WrittenCryptoApi(h, h.keyBits, extra) + after;
    var fixed, verifier := WrittenFixed(h.flags, h.keyBits, extra), WrittenVerifier(h.salt, h.verifier, h.verifierHash);
    var head := Le16(4) + Le16(2) + Le32(h.flags) + Le32(20 + |extra|);
    assert b[0..12 + |fixed| + 60] == head + (fixed + verifier);
    Split(b, 0, head, fixed + verifier);
    Split(b, 12, fixed, verifier);
    Split(b, 0, Le16(4) + Le16(2) + Le32(h.flags), Le32(20 + |extra|));
    Split(b, 0, Le16(4) + Le16(2), Le32(h.flags));
    Split(b, 0, Le16(4), Le16(2));
    ReadBack16(b, 0, 4);
    ReadBack16(b, 2, 2);
    ReadBack32(b, 8, 20 + |extra|);
    FixedReadsBack(h.flags, h.keyBits, extra);
    VerifierReadsBack(h);
  }

  /** What a CryptoAPI writer stores for a password. */
  function Stored(f: Legacies, password: Bytes, keyBits: nat, flags: nat, salt: Bytes, verifier: Bytes): CryptoApiHeader
    requires Rc4KeyBits(keyBits)
  {
    var s := CryptoApiSchedule(f, password, salt, keyBits).value;
    CryptoApiHeader(keyBits, flags, salt, KeyedFrom(s, verifier, 0, 0), KeyedFrom(s, f.sha1(verifier), 0, |verifier|))
  }

  /** It opens with that password, to the schedule it was made with. */
  lemma CryptoApiOpens(f: Legacies, password: Bytes, keyBits: nat, flags: nat, salt: Bytes, verifier: Bytes,
                       extra: Bytes, after: Bytes)
    requires ServedFlags(flags) && Rc4KeyBits(keyBits) && 12 <= |extra| <= 1004 && |salt| == |verifier| == 16
    ensures
      var h := Stored(f, password, keyBits, flags, salt, verifier);
      OpenCryptoApi(f, WrittenCryptoApi(h, keyBits, extra) + after, password)
        == Ok((CryptoApiSchedule(f, password, salt, keyBits).value, h.PropertiesClear()))
  {
    var h := Stored(f, password, keyBits, flags, salt, verifier);
    CryptoApiReadsBack(h, extra, after);
    StoredVerifierPasses(CryptoApiSchedule(f, password, salt, keyBits).value, verifier, f.sha1);
  }
}
