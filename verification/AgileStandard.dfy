/**
 What the agile pipeline computes, in the terms of sections 2.3.4.11 to 2.3.4.15 of
 [MS-OFFCRYPTO]: hashes, keys and IVs written out over the bare primitives, with their
 literal block keys, for the reader and for the writer.
 */
module AgileStandard {
  import opened Errors
  import opened Octets
  import opened Crypto
  import opened BlockKeys
  import opened EncryptParams
  import opened EncryptionInfo
  import opened AgileParser
  import opened Segments
  import opened Integrity
  import opened Agile
  import opened AgileEncrypt

  /** Zeros up to a whole number of sixteens. */
  function Padded(x: Bytes): (y: Bytes)
    ensures |y| % 16 == 0 && |x| <= |y| < |x| + 16
  {
    x + seq((16 - |x| % 16) % 16, _ => 0)
  }

  lemma PadIsPadded(x: Bytes)
    ensures Pad(x) == Padded(x) && RoundUp(|x|) == |Padded(x)|
  {
  }

  /** The salt as an IV: cut to sixteen bytes, or filled up with 0x36. */
  predicate Fitted(salt: Bytes, iv: Bytes) {
    |iv| == 16 && forall i :: 0 <= i < 16 ==> iv[i] == if i < |salt| then salt[i] else 0x36
  }

  lemma FitIvIsFitted(salt: Bytes, iv: Bytes)
    requires Fitted(salt, iv)
    ensures FitIv(salt, AES_BLOCK) == iv
  {
  }

  // ----- the password: sections 2.3.4.11 to 2.3.4.13 -----

  /** A blob decrypted under the spun hash and a block key. */
  function Unlocked(p: Crypto, a: AgileParams, h: Bytes, iv: Bytes, block: Bytes, blob: Bytes): Bytes {
    p.decrypt(Take(p.digest(a.passwordHash, h + block), a.keyBits / 8), iv, blob)
  }

  predicate VerifierSized(a: AgileParams) {
    && |a.encryptedVerifierHashInput| == |Padded(a.innerSalt)|
    && |a.encryptedVerifierHashValue| == |Padded(seq(a.passwordHash.DigestLen(), _ => 0))|
  }

  /** The stored hash is the hash of the stored input, neither with its padding. */
  predicate PasswordRight(p: Crypto, a: AgileParams, h: Bytes, iv: Bytes) {
    var input := Unlocked(p, a, h, iv, [0xFE, 0xA7, 0xD2, 0x76, 0x3B, 0x4B, 0x9E, 0x79], a.encryptedVerifierHashInput);
    var value := Unlocked(p, a, h, iv, [0xD7, 0xAA, 0x0F, 0x6D, 0x30, 0x61, 0x34, 0x4E], a.encryptedVerifierHashValue);
    && VerifierSized(a)
    && Take(value, a.passwordHash.DigestLen()) == p.digest(a.passwordHash, Take(input, |a.innerSalt|))
  }

  /**
   Over screened parameters, when a password opens and to which key: the spun hash is the
   last of the chain of hashes that the salt and the password begin.
   */
  lemma PasswordByTheStandard(p: Crypto, a: AgileParams, password: Bytes, hs: seq<Bytes>, iv: Bytes)
    requires a.Screened() && Fitted(a.innerSalt, iv)
    requires Spun(p, a.passwordHash, a.innerSalt, password, hs) && |hs| == a.spinCount + 1
    ensures
      var r, h := RecoverSessionKey(p, a, password), hs[a.spinCount];
      && (r.Ok? <==> PasswordRight(p, a, h, iv))
      && (r == Err(WrongPassword) <==> VerifierSized(a) && !PasswordRight(p, a, h, iv))
      && (r.Ok? ==> r.value == Take(Unlocked(p, a, h, iv, [0x14, 0x6E, 0x0B, 0xE7, 0xAB, 0xAC, 0xD0, 0xD6],
                                             a.encryptedKeyValue), a.keyDataKeyBits / 8))
  {
    var h := hs[a.spinCount];
    SpinIsTheChain(p, a.passwordHash, a.innerSalt, password, hs);
    FitIvIsFitted(a.innerSalt, iv);
    PadIsPadded(a.innerSalt);
    PadIsPadded(seq(a.passwordHash.DigestLen(), _ => 0));
    PasswordIsChecked(p, a, h);
    assert VerifierAgrees(p, a, h) <==> PasswordRight(p, a, h, iv);
    KeyIsUnlocked(p, a, password, h, iv);
  }

  lemma KeyIsUnlocked(p: Crypto, a: AgileParams, password: Bytes, h: Bytes, iv: Bytes)
    requires a.Screened() && FitIv(a.innerSalt, AES_BLOCK) == iv
    requires h == SpinHash(p, a.passwordHash, password, a.innerSalt, a.spinCount)
    ensures
      var r := RecoverSessionKey(p, a, password);
      if VerifyPassword(p, a, h).Err? then r == Err(VerifyPassword(p, a, h).error)
      else r == Ok(Take(Unlocked(p, a, h, iv, [0x14, 0x6E, 0x0B, 0xE7, 0xAB, 0xAC, 0xD0, 0xD6],
                                 a.encryptedKeyValue), a.keyDataKeyBits / 8))
  {
    var n := a.keyDataKeyBits / 8;
    if VerifyPassword(p, a, h).Ok? {
      var key := DeriveBlockKey(p, a.passwordHash, h, BLOCK_KEY_VALUE, a.keyBits).value;
      assert key == Take(p.digest(a.passwordHash, h + BLOCK_KEY_VALUE), a.keyBits / 8);
      assert p.CipherLaws() && AesReady(key, iv, a.encryptedKeyValue);
      var wrapped := p.decrypt(key, iv, a.encryptedKeyValue);
      assert BLOCK_KEY_VALUE == [0x14, 0x6E, 0x0B, 0xE7, 0xAB, 0xAC, 0xD0, 0xD6];
      assert wrapped == Unlocked(p, a, h, iv, BLOCK_KEY_VALUE, a.encryptedKeyValue);
      assert |wrapped| <= n ==> wrapped[..|wrapped|] == wrapped;
      assert (if |wrapped| <= n then wrapped else wrapped[..n]) == Take(wrapped, n);
    }
  }

  // ----- the tag: section 2.3.4.14 -----

  function Cut16(p: Crypto, hash: HashAlgorithm, salt: Bytes, suffix: Bytes): Bytes {
    Take(p.digest(hash, salt + suffix), 16)
  }

  /** The HMAC of a message, under the first blob's key, is the second blob's tag. */
  predicate TagRight(p: Crypto, a: AgileParams, key: Bytes, di: AgileParser.Integrity, message: Bytes) {
    var n := a.keyDataHash.DigestLen();
    var iv1 := Cut16(p, a.keyDataHash, a.outerSalt, [0x5F, 0xB2, 0xAD, 0x01, 0x0C, 0xB9, 0xE1, 0xF6]);
    var iv2 := Cut16(p, a.keyDataHash, a.outerSalt, [0xA0, 0x67, 0x7F, 0x02, 0xB2, 0x2C, 0x84, 0x33]);
    p.mac(a.keyDataHash, Take(p.decrypt(key, iv1, di.encryptedHmacKey), n), message)
      == Take(p.decrypt(key, iv2, di.encryptedHmacValue), n)
  }

  predicate HoldsDigest(blob: Bytes, n: nat) {
    |blob| >= n && |blob| % 16 == 0
  }

  lemma TagByTheStandard(p: Crypto, a: AgileParams, key: Bytes, policy: IntegrityPolicy, message: Bytes)
    requires a.Screened() && AesKey(key) && a.dataIntegrity.Some? && policy != Skip
    ensures
      var r, di, n := CheckIntegrity(p, a, key, policy), a.dataIntegrity.value, a.keyDataHash.DigestLen();
      && (r.Ok? <==>
        a.keyDataHashSize.Some? && HoldsDigest(di.encryptedHmacKey, n) && HoldsDigest(di.encryptedHmacValue, n))
      && (r.Ok? ==>
        && r.value.0 == Verified && r.value.1.Some?
        && (r.value.1.value.Accepts(p, message) <==> TagRight(p, a, key, di, message)))
  {
    assert p.CipherLaws();
    var di := a.dataIntegrity.value;
    assert AesReady(key, Iv(p, a.keyDataHash, a.outerSalt, BLOCK_DATA_INTEGRITY_KEY), di.encryptedHmacKey) <==>
      |di.encryptedHmacKey| % 16 == 0;
    assert AesReady(key, Iv(p, a.keyDataHash, a.outerSalt, BLOCK_DATA_INTEGRITY_VALUE), di.encryptedHmacValue) <==>
      |di.encryptedHmacValue| % 16 == 0;
  }

  /** The whole of it up to the package: when a document opens, and to what. */
  lemma OpenByTheStandard(p: Crypto, events: seq<XmlEvent>, a: AgileParams, password: Bytes, policy: IntegrityPolicy,
                          hs: seq<Bytes>, iv: Bytes)
    requires Parse(p, events) == Ok(a) && Fitted(a.innerSalt, iv)
    requires Spun(p, a.passwordHash, a.innerSalt, password, hs) && |hs| == a.spinCount + 1
    ensures
      var r, h := Open(p, events, password, policy), hs[a.spinCount];
      var key := Take(Unlocked(p, a, h, iv, [0x14, 0x6E, 0x0B, 0xE7, 0xAB, 0xAC, 0xD0, 0xD6], a.encryptedKeyValue),
                      a.keyDataKeyBits / 8);
      && (VerifierSized(a) && !PasswordRight(p, a, h, iv) ==> r == Err(WrongPassword))
      && (r.Ok? <==> PasswordRight(p, a, h, iv) && CheckIntegrity(p, a, key, policy).Ok?)
      && (r.Ok? ==>
        && r.value.params == a && r.value.key == key
        && (r.value.outcome, r.value.check) == CheckIntegrity(p, a, key, policy).value)
  {
    ParseScreens(p, events);
    PasswordByTheStandard(p, a, password, hs, iv);
  }

  // ----- the package: section 2.3.4.15 -----

  /** Segment `i` of a run of bytes. */
  function Segment(x: Bytes, i: nat): Bytes
    requires 4096 * i <= |x|
  {
    Take(x[4096 * i..], 4096)
  }

  lemma {:induction false} PlainAt(p: Crypto, hash: HashAlgorithm, salt: Bytes, key: Bytes, pieces: Pieces, i: nat)
    requires AesKey(key) && IsCut(pieces) && i < pieces.Count()
    ensures 4096 * i + |pieces.At(i)| <= |pieces.Joined()|
    ensures DecryptPieces(p, hash, salt, key, pieces)[4096 * i..4096 * i + |pieces.At(i)|]
      == DecryptPiece(p, hash, salt, key, pieces.At(i), i)
    decreases pieces
  {
    var n := pieces.before.Count();
    FullLength(pieces.before);
    var head := DecryptPieces(p, hash, salt, key, pieces.before);
    var tail := DecryptPiece(p, hash, salt, key, pieces.last, n);
    if i < n {
      PlainAt(p, hash, salt, key, pieces.before, i);
      InFront(head, tail, 4096 * i, 4096 * i + |pieces.At(i)|);
    } else {
      AtTheEnd(head, tail, 4096 * n);
    }
  }

  lemma AtTheEnd(head: Bytes, tail: Bytes, at: nat)
    requires |head| == at
    ensures (head + tail)[at..at + |tail|] == tail
  {
  }

  lemma InFront(head: Bytes, tail: Bytes, i: nat, j: nat)
    requires i <= j <= |head|
    ensures (head + tail)[i..j] == head[i..j]
  {
  }

  lemma {:induction false} CipherAt(p: Crypto, hash: HashAlgorithm, salt: Bytes, key: Bytes, pieces: Pieces, i: nat)
    requires AesKey(key) && IsCut(pieces)
    ensures AllFull(pieces) ==> |EncryptPieces(p, hash, salt, key, pieces)| == 4096 * pieces.Count()
    ensures i < pieces.Count() ==>
      && 4096 * i + RoundUp(|pieces.At(i)|) <= |EncryptPieces(p, hash, salt, key, pieces)|
      && EncryptPieces(p, hash, salt, key, pieces)[4096 * i..4096 * i + RoundUp(|pieces.At(i)|)]
        == EncryptPiece(p, hash, salt, key, pieces.At(i), i)
    decreases pieces
  {
    if pieces.Then? {
      var n := pieces.before.Count();
      CipherAt(p, hash, salt, key, pieces.before, i);
      var head := EncryptPieces(p, hash, salt, key, pieces.before);
      var tail := EncryptPiece(p, hash, salt, key, pieces.last, n);
      if i < n {
        InFront(head, tail, 4096 * i, 4096 * i + RoundUp(|pieces.At(i)|));
      } else if i == n {
        AtTheEnd(head, tail, 4096 * n);
      }
    }
  }

  /** Where segment `i` of a run ends. */
  lemma SegmentOfCut(x: Bytes, i: nat)
    requires 4096 * i < |x|
    ensures i < Cut(x).Count() && Cut(x).At(i) == Segment(x, i) && IsCut(Cut(x)) && Cut(x).Joined() == x
    ensures Segment(x, i) == x[4096 * i..4096 * i + |Segment(x, i)|]
  {
    CutAt(x, i);
    CutIsCut(x);
    CutCoversContent(x);
    assert x[4096 * i..][..|Segment(x, i)|] == x[4096 * i..4096 * i + |Segment(x, i)|];
  }

  /** Eight bytes as a number, the low one first. */
  function Number(b: Bytes): nat
    requires |b| >= 8
  {
    b[0] as nat + 0x100 * b[1] as nat + 0x1_0000 * b[2] as nat + 0x100_0000 * b[3] as nat
    + 0x1_0000_0000 * b[4] as nat + 0x100_0000_0000 * b[5] as nat + 0x1_0000_0000_0000 * b[6] as nat
    + 0x100_0000_0000_0000 * b[7] as nat
  }

  /** A stored package says its length in its first eight bytes, and holds no less. */
  lemma PackageByTheStandard(p: Crypto, a: AgileParams, key: Bytes, package: Bytes)
    requires AesKey(key) && DecryptPackage(p, key, a, package).Ok?
    ensures |package| >= 8 && |DecryptPackage(p, key, a, package).value| == Number(package) <= |package| - 8
  {
    assert FromLe64(package[..8]) == Number(package);
  }

  /** Each segment is released as its decryption under an IV of the salt and its own number. */
  lemma ReleasedByTheStandard(p: Crypto, a: AgileParams, key: Bytes, package: Bytes, i: nat)
    requires AesKey(key) && DecryptPackage(p, key, a, package).Ok?
    requires 4096 * i < Number(package) <= |package| - 8
    ensures
      var plain, piece := DecryptPackage(p, key, a, package).value, Segment(package[8..], i);
      && 4096 * i < |plain|
      && Segment(plain, i) == Take(p.decrypt(key, Cut16(p, a.keyDataHash, a.outerSalt, Counter(i)), Padded(piece)),
                                   Min(|piece|, |plain| - 4096 * i))
  {
    PackageByTheStandard(p, a, key, package);
    var body, n := package[8..], Number(package);
    SegmentOfCut(body, i);
    BodyDecrypts(p, a, key, package, body, n);
    PlainAt(p, a.keyDataHash, a.outerSalt, key, Cut(body), i);
    PieceByTheStandard(p, a.keyDataHash, a.outerSalt, key, Segment(body, i), i);
    TakeSegment(DecryptPieces(p, a.keyDataHash, a.outerSalt, key, Cut(body)), n, i, |Segment(body, i)|);
  }

  lemma TakeSegment(all: Bytes, n: nat, i: nat, size: nat)
    requires n <= |all| && 4096 * i < n && 4096 * i + size <= |all| && size <= 4096
    requires size == 4096 || 4096 * i + size == |all|
    ensures Segment(Take(all, n), i) == Take(all[4096 * i..4096 * i + size], Min(size, n - 4096 * i))
  {
    var end := 4096 * i + Min(size, n - 4096 * i);
    assert Take(all, n)[4096 * i..] == all[4096 * i..n];
    assert Segment(Take(all, n), i) == all[4096 * i..end];
    assert all[4096 * i..4096 * i + size][..Min(size, n - 4096 * i)] == all[4096 * i..end];
  }

  lemma PieceByTheStandard(p: Crypto, hash: HashAlgorithm, salt: Bytes, key: Bytes, piece: Bytes, i: nat)
    requires AesKey(key)
    ensures SegmentIv(p, hash, salt, i) == Cut16(p, hash, salt, Counter(i))
    ensures DecryptPiece(p, hash, salt, key, piece, i)
      == Take(p.decrypt(key, Cut16(p, hash, salt, Counter(i)), Padded(piece)), |piece|)
    ensures EncryptPiece(p, hash, salt, key, piece, i)
      == p.encrypt(key, Cut16(p, hash, salt, Counter(i)), Padded(piece))
  {
    FourBytes(i);
    PadIsPadded(piece);
    assert SegmentIv(p, hash, salt, i) == Cut16(p, hash, salt, Counter(i));
    assert p.CipherLaws() && AesReady(key, SegmentIv(p, hash, salt, i), Pad(piece));
  }

  /** The same of what is written: the length in front, and all of the padded content behind it. */
  lemma StreamByTheStandard(p: Crypto, hash: HashAlgorithm, salt: Bytes, key: Bytes, content: Bytes)
    requires AesKey(key) && |content| < U32_LIMIT * U32_LIMIT
    ensures
      var stream := PackageStream(p, hash, salt, key, Cut(content), |content|);
      |stream| == 8 + |Padded(content)| && Number(stream) == |content|
  {
    var cipher := EncryptPieces(p, hash, salt, key, Cut(content));
    var stream := Le64(|content|) + cipher;
    PayloadComesBack(p, hash, salt, key, content);
    PadIsPadded(content);
    Ends(Le64(|content|), cipher);
    ReadBack64(|content|);
    assert FromLe64(stream[..8]) == Number(stream);
  }

  /** And every segment of it, encrypted under an IV of the salt and its own number. */
  lemma SegmentByTheStandard(p: Crypto, hash: HashAlgorithm, salt: Bytes, key: Bytes, content: Bytes, i: nat)
    requires AesKey(key) && 4096 * i < |content|
    ensures
      var stream, piece := PackageStream(p, hash, salt, key, Cut(content), |content|), Padded(Segment(content, i));
      && 8 + 4096 * i + |piece| <= |stream|
      && stream[8 + 4096 * i..8 + 4096 * i + |piece|]
        == p.encrypt(key, Cut16(p, hash, salt, Counter(i)), piece)
  {
    var cipher := EncryptPieces(p, hash, salt, key, Cut(content));
    var n := |Padded(Segment(content, i))|;
    SegmentOfCut(content, i);
    CipherAt(p, hash, salt, key, Cut(content), i);
    PadIsPadded(Segment(content, i));
    PieceByTheStandard(p, hash, salt, key, Segment(content, i), i);
    Behind(Le64(|content|), cipher, 4096 * i, 4096 * i + n);
  }

  lemma Behind(head: Bytes, tail: Bytes, i: nat, j: nat)
    requires i <= j <= |tail|
    ensures (head + tail)[|head| + i..|head| + j] == tail[i..j]
  {
  }

  // ----- the writer's blobs: sections 2.3.4.13 and 2.3.4.14 -----

  /** A value padded and encrypted under the spun hash and a block key. */
  function Locked(p: Crypto, q: Params, h: Bytes, iv: Bytes, block: Bytes, value: Bytes): Bytes {
    p.encrypt(Take(p.digest(q.hash, h + block), q.passwordKeyBits / 8), iv, Padded(value))
  }

  /** The seven blobs a writer stores, each from its own draw; the tag is over the whole package stream. */
  lemma BlobsByTheStandard(p: Crypto, q: Params, password: Bytes, d: Draws, pieces: Pieces, hs: seq<Bytes>, iv: Bytes)
    requires q.Writable() && d.Sized(q) && Fitted(d.passwordSalt, iv)
    requires Spun(p, q.hash, d.passwordSalt, password, hs) && |hs| == q.spinCount + 1
    ensures
      var b, h := EncryptedFrom(p, q, password, d, pieces).blobs, hs[q.spinCount];
      && b.keyDataSalt == d.keyDataSalt && b.passwordSalt == d.passwordSalt
      && b.verifierInput == Locked(p, q, h, iv, [0xFE, 0xA7, 0xD2, 0x76, 0x3B, 0x4B, 0x9E, 0x79], d.verifierInput)
      && b.verifierValue == Locked(p, q, h, iv, [0xD7, 0xAA, 0x0F, 0x6D, 0x30, 0x61, 0x34, 0x4E],
                                   p.digest(q.hash, d.verifierInput))
      && b.keyValue == Locked(p, q, h, iv, [0x14, 0x6E, 0x0B, 0xE7, 0xAB, 0xAC, 0xD0, 0xD6], d.sessionKey)
  {
    var h := hs[q.spinCount];
    SpinIsTheChain(p, q.hash, d.passwordSalt, password, hs);
    FitIvIsFitted(d.passwordSalt, iv);
    PadIsPadded(d.verifierInput);
    PadIsPadded(d.sessionKey);
    PadIsPadded(p.digest(q.hash, d.verifierInput));
    assert d.verifierInput + [] == d.verifierInput;
  }

  lemma SealByTheStandard(p: Crypto, q: Params, password: Bytes, d: Draws, pieces: Pieces)
    requires q.Writable() && d.Sized(q)
    ensures
      var e := EncryptedFrom(p, q, password, d, pieces);
      && e.blobs.hmacKey == p.encrypt(d.sessionKey, Cut16(p, q.hash, d.keyDataSalt,
           [0x5F, 0xB2, 0xAD, 0x01, 0x0C, 0xB9, 0xE1, 0xF6]), Padded(d.hmacKey))
      && e.blobs.hmacValue == p.encrypt(d.sessionKey, Cut16(p, q.hash, d.keyDataSalt,
           [0xA0, 0x67, 0x7F, 0x02, 0xB2, 0x2C, 0x84, 0x33]), Padded(p.mac(q.hash, d.hmacKey, e.package)))
      && e.package == PackageStream(p, q.hash, d.keyDataSalt, d.sessionKey, pieces, |pieces.Joined()|)
  {
    var e := EncryptedFrom(p, q, password, d, pieces);
    PadIsPadded(d.hmacKey);
    PadIsPadded(p.mac(q.hash, d.hmacKey, e.package));
  }
}
