/**
 When a workbook's RC4 password is right, and what it opens to: sections 2.3.5.1 to 2.3.6.4
 of [MS-OFFCRYPTO], read off the bytes of the structure and over the bare hashes and RC4.
 */
module Rc4Standard {
  import opened Errors
  import opened Octets
  import opened LegacyCiphers
  import opened Rc4Headers
  import opened Excel97
  import opened LegacyExcel

  /** A run of bytes under a key's stream, from an offset into it. */
  predicate Under(f: Legacies, key: Bytes, from: nat, stored: Bytes, plain: Bytes) {
    |plain| == |stored| && forall i :: 0 <= i < |stored| ==> plain[i] == Xor(stored[i], f.rc4(key, from + i))
  }

  lemma UnderIsKeyed(s: Schedule, f: Legacies, data: Bytes, from: nat, plain: Bytes)
    requires s.rc4 == f.rc4 && Under(f, s.keys(0), from, data, plain)
    ensures KeyedFrom(s, data, 0, from) == plain
  {
  }

  // ----- Office 97 -----

  predicate Office97Structure(b: Bytes) {
    |b| >= 52 && b[..4] == [1, 0, 1, 0]
  }

  lemma Office97Parses(b: Bytes)
    ensures ParseOffice97(b).Ok? <==> Office97Structure(b)
    ensures Office97Structure(b) ==> ParseOffice97(b) == Ok(Office97Header(b[4..20], b[20..36], b[36..52]))
    ensures ParseOffice97(b).Err? ==> ParseOffice97(b).error != WrongPassword
  {
    if |b| >= 4 {
      assert b[..4] == [b[0], b[1], b[2], b[3]];
    }
    if Office97Structure(b) {
      SliceOfSlice(b, 4, 52, 0, 16);
      SliceOfSlice(b, 4, 52, 16, 32);
      SliceOfSlice(b, 4, 52, 32, 48);
    }
  }

  /** The password's five bytes and the salt, sixteen times over. */
  predicate SixteenTimes(unit: Bytes, buffer: Bytes) {
    |unit| == 21 && |buffer| == 336 && forall i :: 0 <= i < 336 ==> buffer[i] == unit[i % 21]
  }

  lemma {:induction false} RepeatedAt(unit: Bytes, n: nat, i: nat)
    requires |unit| == 21 && i < 21 * n
    ensures |Repeated(unit, n)| == 21 * n && Repeated(unit, n)[i] == unit[i % 21]
    decreases n
  {
    if i >= 21 {
      RepeatedAt(unit, n - 1, i - 21);
      assert (i - 21) % 21 == i % 21;
    } else if n > 1 {
      RepeatedAt(unit, n - 1, 0);
    } else {
      assert Repeated(unit, 0) == [];
    }
  }

  lemma SixteenTimesIsRepeated(unit: Bytes, buffer: Bytes)
    requires SixteenTimes(unit, buffer)
    ensures Repeated(unit, 16) == buffer
  {
    RepeatedAt(unit, 16, 0);
    forall i | 0 <= i < 336
      ensures Repeated(unit, 16)[i] == buffer[i]
    {
      RepeatedAt(unit, 16, i);
    }
  }

  /** The forty bits every key of the document is made from: section 2.3.6.2. */
  ghost predicate FortyBits(f: Legacies, password: Bytes, salt: Bytes, h1: Bytes) {
    exists buffer :: SixteenTimes(f.md5(password)[..5] + salt, buffer) && h1 == f.md5(buffer)[..5]
  }

  /**
   A password opens the structure exactly when the structure has its version and its length,
   and the stored verifier and its stored hash belong together under the key of block zero,
   the hash behind the verifier in one stream.
   */
  lemma Office97ByTheStandard(f: Legacies, b: Bytes, password: Bytes, h1: Bytes, verifier: Bytes, hash: Bytes)
    requires Office97Structure(b) && FortyBits(f, password, b[4..20], h1)
    requires Under(f, f.md5(h1 + [0, 0, 0, 0]), 0, b[20..36], verifier)
    requires Under(f, f.md5(h1 + [0, 0, 0, 0]), 16, b[36..52], hash)
    ensures
      var r := OpenOffice97(f, b, password);
      && (r.Ok? <==> f.md5(verifier) == hash)
      && (r == Err(WrongPassword) <==> f.md5(verifier) != hash)
      && (r.Ok? ==> r.value.rc4 == f.rc4 && forall block: nat :: r.value.keys(block) == f.md5(h1 + Counter(block)))
  {
    Office97Parses(b);
    var buffer :| SixteenTimes(f.md5(password)[..5] + b[4..20], buffer) && h1 == f.md5(buffer)[..5];
    SixteenTimesIsRepeated(f.md5(password)[..5] + b[4..20], buffer);
    var s := Office97Schedule(f, password, b[4..20]);
    assert TruncatedH1(f, password, b[4..20]) == h1;
    forall block: nat
      ensures s.keys(block) == f.md5(h1 + Counter(block))
    {
      FourBytes(block);
    }
    assert Counter(0) == [0, 0, 0, 0];
    UnderIsKeyed(s, f, b[20..36], 0, verifier);
    UnderIsKeyed(s, f, b[36..52], 16, hash);
  }

  /** And any other structure is refused, whatever the password. */
  lemma Office97Refused(f: Legacies, b: Bytes, password: Bytes)
    requires !Office97Structure(b)
    ensures OpenOffice97(f, b, password).Err? && OpenOffice97(f, b, password) != Err(WrongPassword)
  {
    Office97Parses(b);
  }

  // ----- CryptoAPI -----

  /** What section 2.3.5.1 asks of the structure, byte by byte, as the program takes it. */
  predicate CryptoApiStructure(b: Bytes) {
    && SizeServed(b)
    && var at := 12 + ReadLe32(b, 8).value;
    && HeaderServed(b) && at + 60 <= |b| && ReadLe32(b, at) == Some(16) && ReadLe32(b, at + 36) == Some(20)
  }

  /** Version 2.2, 3.2 or 4.2, and a header that fits. */
  predicate SizeServed(b: Bytes) {
    && |b| >= 12 && b[0] in {2, 3, 4} && b[1] == 0 && b[2] == 2 && b[3] == 0
    && 32 <= ReadLe32(b, 8).value <= 1024 && 12 + ReadLe32(b, 8).value <= |b|
  }

  /** Neither external nor AES but CryptoAPI, RC4 with SHA-1, and forty to 128 bits in steps of eight. */
  predicate HeaderServed(b: Bytes) {
    && |b| >= 44
    && b[12] / 4 % 2 == 1 && b[12] / 16 % 2 == 0 && b[12] / 32 % 2 == 0
    && ReadLe32(b, 20).value in {0, 0x6801} && ReadLe32(b, 24).value in {0, 0x8004}
    && ReadLe32(b, 28).value in {0, 40, 48, 56, 64, 72, 80, 88, 96, 104, 112, 120, 128}
  }

  function BitsOf(keySize: nat): nat {
    if keySize == 0 then 40 else keySize
  }

  /** A number within a slice is the number where the slice lies. */
  lemma ReadInSlice(b: Bytes, from: nat, to: nat, at: nat)
    requires from <= to <= |b| && at + 4 <= to - from
    ensures ReadLe32(b[from..to], at) == ReadLe32(b, from + at)
  {
  }

  /** The flags' low byte holds the bits that decide. */
  lemma FlagsByte(b: Bytes)
    requires |b| >= 16
    ensures ReadLe32(b, 12).value / 4 % 2 == b[12] / 4 % 2 && ReadLe32(b, 12).value / 8 % 2 == b[12] / 8 % 2
    ensures ReadLe32(b, 12).value / 16 % 2 == b[12] / 16 % 2 && ReadLe32(b, 12).value / 32 % 2 == b[12] / 32 % 2
  {
    LowBits(b[12], b[13] as nat + 0x100 * b[14] as nat + 0x1_0000 * b[15] as nat);
  }

  lemma LowBits(low: nat, high: nat)
    ensures
      var n := low + 256 * high;
      && n / 4 % 2 == low / 4 % 2 && n / 8 % 2 == low / 8 % 2
      && n / 16 % 2 == low / 16 % 2 && n / 32 % 2 == low / 32 % 2
  {
    var n := low + 256 * high;
    assert n / 4 == low / 4 + 2 * (32 * high) && n / 8 == low / 8 + 2 * (16 * high);
    assert n / 16 == low / 16 + 2 * (8 * high) && n / 32 == low / 32 + 2 * (4 * high);
    EvenMore(low / 4, 32 * high);
    EvenMore(low / 8, 16 * high);
    EvenMore(low / 16, 8 * high);
    EvenMore(low / 32, 4 * high);
  }

  lemma EvenMore(x: nat, y: nat)
    ensures (x + 2 * y) % 2 == x % 2
  {
  }

  lemma FixedParses(b: Bytes, end: nat)
    requires 44 <= end <= |b|
    ensures ParseFixed(b[12..end]).Ok? <==> HeaderServed(b)
    ensures HeaderServed(b) ==>
      ParseFixed(b[12..end]) == Ok((BitsOf(ReadLe32(b, 28).value), ReadLe32(b, 12).value))
    ensures ParseFixed(b[12..end]).Err? ==> ParseFixed(b[12..end]).error != WrongPassword
  {
    ReadInSlice(b, 12, end, 0);
    ReadInSlice(b, 12, end, 8);
    ReadInSlice(b, 12, end, 12);
    ReadInSlice(b, 12, end, 16);
    FlagsByte(b);
    KeySizes(ReadLe32(b, 28).value);
  }

  lemma KeySizes(n: nat)
    ensures Rc4KeyBits(BitsOf(n)) <==> n in {0, 40, 48, 56, 64, 72, 80, 88, 96, 104, 112, 120, 128}
  {
  }

  lemma VerifierParses(b: Bytes, at: nat, keyBits: nat, flags: nat)
    requires at + 60 <= |b|
    ensures
      var r := ParseVerifier(b[at..at + 60], keyBits, flags);
      && (r.Ok? <==> ReadLe32(b, at) == Some(16) && ReadLe32(b, at + 36) == Some(20))
      && (r.Ok? ==>
        r.value == CryptoApiHeader(keyBits, flags, b[at + 4..at + 20], b[at + 20..at + 36], b[at + 40..at + 60]))
      && (r.Err? ==> r.error != WrongPassword)
  {
    ReadInSlice(b, at, at + 60, 0);
    ReadInSlice(b, at, at + 60, 36);
    SliceOfSlice(b, at, at + 60, 4, 20);
    SliceOfSlice(b, at, at + 60, 20, 36);
    SliceOfSlice(b, at, at + 60, 40, 60);
  }

  lemma SizeDecides(b: Bytes)
    ensures !SizeServed(b) ==> ParseCryptoApi(b).Err? && ParseCryptoApi(b).error != WrongPassword
    ensures SizeServed(b) ==>
      var end := 12 + ReadLe32(b, 8).value;
      var fixed := ParseFixed(b[12..end]);
      ParseCryptoApi(b) ==
        if fixed.Err? then Err(fixed.error)
        else if end + 60 > |b| then Err(BadParameters(EncryptionVerifier, Truncated(|b| - end, 60)))
        else ParseVerifier(b[end..end + 60], fixed.value.0, fixed.value.1)
  {
  }

  function HeaderOf(b: Bytes): CryptoApiHeader
    requires CryptoApiStructure(b)
  {
    var at := 12 + ReadLe32(b, 8).value;
    CryptoApiHeader(BitsOf(ReadLe32(b, 28).value), ReadLe32(b, 12).value,
                    b[at + 4..at + 20], b[at + 20..at + 36], b[at + 40..at + 60])
  }

  lemma Accepted(b: Bytes)
    requires CryptoApiStructure(b)
    ensures ParseCryptoApi(b) == Ok(HeaderOf(b))
  {
    var at := 12 + ReadLe32(b, 8).value;
    SizeDecides(b);
    FixedParses(b, at);
    VerifierParses(b, at, BitsOf(ReadLe32(b, 28).value), ReadLe32(b, 12).value);
  }

  lemma Refused(b: Bytes)
    requires !CryptoApiStructure(b)
    ensures ParseCryptoApi(b).Err? && ParseCryptoApi(b).error != WrongPassword
  {
    SizeDecides(b);
    if SizeServed(b) {
      var at := 12 + ReadLe32(b, 8).value;
      FixedParses(b, at);
      if HeaderServed(b) && at + 60 <= |b| {
        VerifierParses(b, at, BitsOf(ReadLe32(b, 28).value), ReadLe32(b, 12).value);
      }
    }
  }

  lemma CryptoApiParses(b: Bytes)
    ensures ParseCryptoApi(b).Ok? <==> CryptoApiStructure(b)
    ensures CryptoApiStructure(b) ==> ParseCryptoApi(b) == Ok(HeaderOf(b))
    ensures ParseCryptoApi(b).Err? ==> ParseCryptoApi(b).error != WrongPassword
  {
    if CryptoApiStructure(b) {
      Accepted(b);
    } else {
      Refused(b);
    }
  }

  /** The key of a block: section 2.3.5.2, with the eleven zeros of a key of forty bits. */
  function KeyOfBlock(f: Legacies, h0: Bytes, bits: nat, block: nat): Bytes {
    var digest := f.sha1(h0 + Counter(block));
    if bits == 40 then digest[..5] + [0, 0, 0, 0, 0, 0, 0, 0, 0, 0, 0] else Take(digest, bits / 8)
  }

  lemma CryptoApiKeys(f: Legacies, password: Bytes, salt: Bytes, bits: nat)
    requires Rc4KeyBits(bits)
    ensures
      var s := CryptoApiSchedule(f, password, salt, bits).value;
      s.rc4 == f.rc4 && forall block: nat :: s.keys(block) == KeyOfBlock(f, f.sha1(salt + password), bits, block)
  {
    var s := CryptoApiSchedule(f, password, salt, bits).value;
    forall block: nat
      ensures s.keys(block) == KeyOfBlock(f, f.sha1(salt + password), bits, block)
    {
      FourBytes(block);
    }
  }

  /** The same check over SHA-1, of a header that parsed. */
  lemma HeaderDecides(f: Legacies, b: Bytes, password: Bytes, h: CryptoApiHeader, verifier: Bytes, hash: Bytes)
    requires ParseCryptoApi(b) == Ok(h)
    requires
      var key := KeyOfBlock(f, f.sha1(h.salt + password), h.keyBits, 0);
      Under(f, key, 0, h.verifier, verifier) && Under(f, key, 16, h.verifierHash, hash)
    ensures
      var r, h0 := OpenCryptoApi(f, b, password), f.sha1(h.salt + password);
      && (r.Ok? <==> f.sha1(verifier) == hash)
      && (r == Err(WrongPassword) <==> f.sha1(verifier) != hash)
      && (r.Ok? ==>
        && r.value.0.rc4 == f.rc4
        && (forall block: nat :: r.value.0.keys(block) == KeyOfBlock(f, h0, h.keyBits, block))
        && r.value.1 == h.PropertiesClear())
  {
    var s := CryptoApiSchedule(f, password, h.salt, h.keyBits).value;
    CryptoApiKeys(f, password, h.salt, h.keyBits);
    UnderIsKeyed(s, f, h.verifier, 0, verifier);
    UnderIsKeyed(s, f, h.verifierHash, 16, hash);
  }

  /** And off the bytes themselves; the properties are clear when bit three of the flags is set. */
  lemma CryptoApiByTheStandard(f: Legacies, b: Bytes, password: Bytes, at: nat, h0: Bytes, verifier: Bytes, hash: Bytes)
    requires CryptoApiStructure(b) && at == 12 + ReadLe32(b, 8).value && h0 == f.sha1(b[at + 4..at + 20] + password)
    requires
      var key := KeyOfBlock(f, h0, BitsOf(ReadLe32(b, 28).value), 0);
      Under(f, key, 0, b[at + 20..at + 36], verifier) && Under(f, key, 16, b[at + 40..at + 60], hash)
    ensures
      var r, bits := OpenCryptoApi(f, b, password), BitsOf(ReadLe32(b, 28).value);
      && (r.Ok? <==> f.sha1(verifier) == hash)
      && (r == Err(WrongPassword) <==> f.sha1(verifier) != hash)
      && (r.Ok? ==>
        && r.value.0.rc4 == f.rc4
        && (forall block: nat :: r.value.0.keys(block) == KeyOfBlock(f, h0, bits, block))
        && (r.value.1 <==> b[12] / 8 % 2 == 1))
  {
    var h := HeaderOf(b);
    assert h.salt == b[at + 4..at + 20] && h.verifier == b[at + 20..at + 36] && h.verifierHash == b[at + 40..at + 60];
    Accepted(b);
    HeaderDecides(f, b, password, h, verifier, hash);
    FlagsByte(b);
    assert h.PropertiesClear() <==> b[12] / 8 % 2 == 1;
  }

  lemma CryptoApiRefused(f: Legacies, b: Bytes, password: Bytes)
    requires !CryptoApiStructure(b)
    ensures OpenCryptoApi(f, b, password).Err? && OpenCryptoApi(f, b, password) != Err(WrongPassword)
  {
    CryptoApiParses(b);
  }

  // ----- the FILEPASS body -----

  /** The first four bytes choose the family; Office 97 has no encrypted properties. */
  lemma FamilyByVersion(f: Legacies, b: Bytes, password: Bytes)
    ensures
      var r := OpenRc4(f, b, password);
      && (r.Ok? <==> if |b| >= 4 && b[..4] == [1, 0, 1, 0] then OpenOffice97(f, b, password).Ok?
                     else OpenCryptoApi(f, b, password).Ok?)
      && (r == Err(WrongPassword) <==>
        if |b| >= 4 && b[..4] == [1, 0, 1, 0] then OpenOffice97(f, b, password) == Err(WrongPassword)
        else OpenCryptoApi(f, b, password) == Err(WrongPassword))
      && (r.Ok? && b[..4] == [1, 0, 1, 0] ==> r.value == Rc4(OpenOffice97(f, b, password).value, true))
      && (r.Ok? && b[..4] != [1, 0, 1, 0] ==>
        r.value == Rc4(OpenCryptoApi(f, b, password).value.0, OpenCryptoApi(f, b, password).value.1))
  {
    Office97Parses(b);
    CryptoApiParses(b);
    if |b| >= 4 {
      assert b[..4] == [b[0], b[1], b[2], b[3]];
    }
  }

  /** Any other version is refused as that version. */
  lemma OtherVersions(f: Legacies, b: Bytes, password: Bytes)
    requires |b| >= 4 && b[..4] != [1, 0, 1, 0] && !(b[0] in {2, 3, 4} && b[1..4] == [0, 2, 0])
    ensures OpenRc4(f, b, password) ==
      Err(UnsupportedEncryptionVersion(b[0] as nat + 0x100 * b[1] as nat, b[2] as nat + 0x100 * b[3] as nat))
  {
    assert b[..4] == [b[0], b[1], b[2], b[3]] && b[1..4] == [b[1], b[2], b[3]];
  }

  /** What this path cannot serve is named, in the order of section 2.3.2. */
  lemma RefusedByName(f: Legacies, b: Bytes, password: Bytes)
    requires SizeServed(b)
    ensures b[12] / 16 % 2 == 1 ==> OpenCryptoApi(f, b, password) == Err(UnsupportedAlgorithm("fExternal"))
    ensures b[12] / 16 % 2 == 0 && b[12] / 32 % 2 == 1 ==>
      OpenCryptoApi(f, b, password) == Err(UnsupportedAlgorithm("fAES"))
    ensures b[12] / 16 % 2 == 0 && b[12] / 32 % 2 == 0 && b[12] / 4 % 2 == 0 ==>
      OpenCryptoApi(f, b, password) == Err(BadParameters(EncryptionHeaderFlags, FlagClear))
  {
    var end := 12 + ReadLe32(b, 8).value;
    SizeDecides(b);
    ReadInSlice(b, 12, end, 0);
    FlagsByte(b);
    assert ParseFixed(b[12..end]).Err? ==> OpenCryptoApi(f, b, password) == Err(ParseFixed(b[12..end]).error);
  }

  /** And the two bytes before it choose between obfuscation and RC4; there is nothing else. */
  lemma SchemeByKind(f: Legacies, filepass: Bytes, password: Bytes)
    ensures
      var r := OpenScheme(f, filepass, password);
      && (r.Ok? <==>
        && |filepass| >= 2
        && (|| (filepass[..2] == [0, 0] && OpenXor(f, filepass, password).Ok?)
            || (filepass[..2] == [1, 0] && OpenRc4(f, filepass[2..], password).Ok?)))
      && (r.Ok? && filepass[..2] == [0, 0] ==> r == OpenXor(f, filepass, password))
      && (r.Ok? && filepass[..2] == [1, 0] ==> r == OpenRc4(f, filepass[2..], password))
  {
    if |filepass| >= 2 {
      assert filepass[..2] == [filepass[0], filepass[1]];
    }
  }
}
