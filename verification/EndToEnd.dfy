/** What the writer wrote, the reader gives back. */
module EndToEnd {
  import opened Errors
  import opened Octets
  import opened Crypto
  import opened BlockKeys
  import opened EncryptParams
  import opened EncryptionInfo
  import opened AgileParser
  import opened Segments
  import opened Integrity
  import opened Agile
  import opened AgileEncrypt
  import opened WriterReader
  import Container
  import StoredDocument

  /** The verifier the writer stored passes for the password it was made from. */
  lemma VerifierPasses(p: Crypto, q: Params, password: Bytes, d: Draws, b: Blobs)
    requires q.Writable() && d.Sized(q) && b.Sized(q)
    requires
      var m := Material(p, q, password, d.passwordSalt, d.verifierInput, d.sessionKey, d.keyDataSalt).value;
      b.passwordSalt == m.passwordSalt && b.verifierInput == m.verifierInput && b.verifierValue == m.verifierValue
    ensures
      var hFinal := SpinHash(p, q.hash, password, d.passwordSalt, q.spinCount);
      VerifyPassword(p, Described(q, b), hFinal) == Ok(())
  {
    var hFinal := SpinHash(p, q.hash, password, d.passwordSalt, q.spinCount);
    var iv := FitIv(d.passwordSalt, AES_BLOCK);
    var inputKey := DeriveBlockKey(p, q.hash, hFinal, BLOCK_VERIFIER_INPUT, q.passwordKeyBits).value;
    var valueKey := DeriveBlockKey(p, q.hash, hFinal, BLOCK_VERIFIER_HASH, q.passwordKeyBits).value;
    var digest := DigestTwo(p, q.hash, d.verifierInput, []);
    DecryptUndoesEncrypt(p, Pad(d.verifierInput), inputKey, iv);
    DecryptUndoesEncrypt(p, Pad(digest), valueKey, iv);
    assert d.verifierInput + [] == d.verifierInput;
    assert Pad(d.verifierInput)[..q.passwordSaltSize] == d.verifierInput;
    assert Pad(digest)[..q.hash.DigestLen()] == digest;
  }

  /** And the session key comes out of its blob, at its own length. */
  lemma SessionKeyComesBack(p: Crypto, q: Params, password: Bytes, d: Draws, b: Blobs)
    requires q.Writable() && d.Sized(q) && b.Sized(q)
    requires
      var m := Material(p, q, password, d.passwordSalt, d.verifierInput, d.sessionKey, d.keyDataSalt).value;
      && b.passwordSalt == m.passwordSalt && b.verifierInput == m.verifierInput && b.verifierValue == m.verifierValue
      && b.keyValue == m.keyValue
    ensures RecoverSessionKey(p, Described(q, b), password) == Ok(d.sessionKey)
  {
    VerifierPasses(p, q, password, d, b);
    var hFinal := SpinHash(p, q.hash, password, d.passwordSalt, q.spinCount);
    var key := DeriveBlockKey(p, q.hash, hFinal, BLOCK_KEY_VALUE, q.passwordKeyBits).value;
    DecryptUndoesEncrypt(p, Pad(d.sessionKey), key, FitIv(d.passwordSalt, AES_BLOCK));
    var wrapped := Pad(d.sessionKey);
    assert wrapped[..|d.sessionKey|] == d.sessionKey;
    assert |wrapped| <= |d.sessionKey| ==> wrapped == wrapped[..|d.sessionKey|];
    assert AesCbcDecrypt(p, b.keyValue, key, FitIv(d.passwordSalt, AES_BLOCK)) == Ok(wrapped);
  }

  /** What each policy answers for a document that declares its tag. */
  function OutcomeUnder(policy: IntegrityPolicy): IntegrityOutcome {
    if policy == Skip then Skipped else Verified
  }

  /** The check every verifying policy runs accepts the stream that was written. */
  lemma PolicyAccepts(p: Crypto, q: Params, password: Bytes, d: Draws, pieces: Pieces, policy: IntegrityPolicy)
    requires q.Writable() && d.Sized(q)
    ensures
      var e := EncryptedFrom(p, q, password, d, pieces);
      var r := CheckIntegrity(p, Described(q, e.blobs), d.sessionKey, policy);
      && r.Ok? && r.value.0 == OutcomeUnder(policy)
      && (r.value.1.Some? ==> r.value.1.value.Accepts(p, e.package))
  {
    var e := EncryptedFrom(p, q, password, d, pieces);
    var tag := DigestMac(p, q.hash, d.hmacKey, e.package);
    CheckRecoversWhatWasSealed(p, d.sessionKey, q.hash, d.keyDataSalt, d.hmacKey, tag);
  }

  /** Whatever pieces a package came in, its document opens and its tag is accepted. */
  lemma WhatIsWrittenOpens(p: Crypto, q: Params, password: Bytes, d: Draws, pieces: Pieces, policy: IntegrityPolicy)
    requires q.Writable() && d.Sized(q)
    ensures
      var e := EncryptedFrom(p, q, password, d, pieces);
      var r := Open(p, Document(p, q, e.blobs), password, policy);
      && r.Ok? && r.value.params == Described(q, e.blobs) && r.value.key == d.sessionKey
      && r.value.outcome == OutcomeUnder(policy)
      && (r.value.check.Some? ==> r.value.check.value.Accepts(p, e.package))
  {
    var e := EncryptedFrom(p, q, password, d, pieces);
    WriterAndReaderAgree(p, q, e.blobs);
    SessionKeyComesBack(p, q, password, d, e.blobs);
    PolicyAccepts(p, q, password, d, pieces, policy);
  }

  /** The package comes out of its stream, at its own length. */
  lemma PackageComesBack(p: Crypto, a: AgileParams, key: Bytes, content: Bytes)
    requires AesKey(key) && |key| == a.keyDataKeyBits / 8 && |content| <= STREAMED_PACKAGE_MAX
    ensures
      var stream := PackageStream(p, a.keyDataHash, a.outerSalt, key, Cut(content), |content|);
      DecryptPackage(p, key, a, stream) == Ok(content)
  {
    var cipher := EncryptPieces(p, a.keyDataHash, a.outerSalt, key, Cut(content));
    var stream := PackageStream(p, a.keyDataHash, a.outerSalt, key, Cut(content), |content|);
    PayloadComesBack(p, a.keyDataHash, a.outerSalt, key, content);
    LengthFits(|content|);
    ReadBack64(|content|);
    Ends(Le64(|content|), cipher);
    assert ScreenPackage(key, a, stream) == Ok(|content|);
    FewSegments(cipher);
    BodyDecrypts(p, a, key, stream, cipher, |content|);
    assert Take(Pad(content), |content|) == content;
  }

  lemma FewSegments(cipher: Bytes)
    requires |cipher| <= CFB_V3_STREAM_MAX
    ensures Cut(cipher).Count() <= U32_LIMIT
  {
    CutAt(cipher, 0);
  }

  /**
   The round trip. Every writable tuple, every password, every set of draws, every package
   within the limit, under every policy: the reader gives back the package, verified
   unless verification was waived.
   */
  lemma WhatIsWrittenIsRead(p: Crypto, q: Params, password: Bytes, d: Draws, content: Bytes, policy: IntegrityPolicy)
    requires q.Writable() && d.Sized(q) && |content| <= STREAMED_PACKAGE_MAX
    ensures
      var e := Encrypt(p, q, password, d, content);
      Decrypt(p, Document(p, q, e.blobs), e.package, password, policy) == Ok((content, OutcomeUnder(policy)))
  {
    CutCoversContent(content);
    PiecesAreRead(p, q, password, d, Cut(content), policy);
  }

  /**
   The same of every successful run of the writer, whatever its reader did: when the pieces
   read are a cut, what comes back is what was read.
   */
  lemma WhatWasReadIsRead(p: Crypto, q: Params, password: Bytes, d: Draws, pieces: Pieces, policy: IntegrityPolicy)
    requires q.Writable() && d.Sized(q) && |pieces.Joined()| <= STREAMED_PACKAGE_MAX && IsCut(pieces)
    ensures
      var e := EncryptedFrom(p, q, password, d, pieces);
      Decrypt(p, Document(p, q, e.blobs), e.package, password, policy) == Ok((pieces.Joined(), OutcomeUnder(policy)))
  {
    OnlyOneCut(pieces);
    PiecesAreRead(p, q, password, d, pieces, policy);
  }

  lemma PiecesAreRead(p: Crypto, q: Params, password: Bytes, d: Draws, pieces: Pieces, policy: IntegrityPolicy)
    requires q.Writable() && d.Sized(q) && |pieces.Joined()| <= STREAMED_PACKAGE_MAX && pieces == Cut(pieces.Joined())
    ensures
      var e := EncryptedFrom(p, q, password, d, pieces);
      Decrypt(p, Document(p, q, e.blobs), e.package, password, policy) == Ok((pieces.Joined(), OutcomeUnder(policy)))
  {
    var e := EncryptedFrom(p, q, password, d, pieces);
    WhatIsWrittenOpens(p, q, password, d, pieces, policy);
    PackageComesBack(p, Described(q, e.blobs), d.sessionKey, pieces.Joined());
  }

  /**
   And from the stored bytes on: the container's two streams, the one scanned as text and
   the other taken as it is, give the package back.
   */
  lemma WhatIsStoredIsRead(p: Crypto, q: Params, password: Bytes, d: Draws, content: Bytes, policy: IntegrityPolicy)
    requires q.Writable() && d.Sized(q) && |content| <= STREAMED_PACKAGE_MAX
    ensures
      var m := EntriesOf(p, q, Encrypt(p, q, password, d, content));
      var events := StoredDocument.EventsIn(m[Container.InfoStream]);
      && events.Some?
      && Decrypt(p, events.value, m[Container.PackageStream], password, policy) == Ok((content, OutcomeUnder(policy)))
  {
    StoredDocument.EventsComeBack(p, q, Encrypt(p, q, password, d, content).blobs);
    WhatIsWrittenIsRead(p, q, password, d, content, policy);
  }

  /** No two tuples, and no two sets of blobs, are stored alike. */
  lemma StreamTellsApart(p: Crypto, q: Params, q': Params, a: Blobs, b: Blobs)
    requires q.Writable() && a.Sized(q) && q'.Writable() && b.Sized(q')
    requires Stream(Document(p, q, a)) == Stream(Document(p, q', b))
    ensures q == q' && a == b
  {
    StoredDocument.EventsComeBack(p, q, a);
    StoredDocument.EventsComeBack(p, q', b);
    WriterAndReaderAgree(p, q, a);
    WriterAndReaderAgree(p, q', b);
  }

  /**
   One message, three chunkings: the writer's prefix and padded segments, the first pass's
   chunks from byte zero, and the second pass's prefix and stored segments all join to the
   stream, so the three tags are one.
   */
  lemma OneMessageThreeChunkings(p: Crypto, q: Params, password: Bytes, d: Draws, content: Bytes)
    requires q.Writable() && d.Sized(q)
    ensures
      var stream := Encrypt(p, q, password, d, content).package;
      && Cut(stream).Joined() == stream
      && stream[..8] + Cut(stream[8..]).Joined() == stream
      && Cut(stream[8..]).Joined() == EncryptPieces(p, q.hash, d.keyDataSalt, d.sessionKey, Cut(content))
  {
    var stream := Encrypt(p, q, password, d, content).package;
    CutCoversContent(stream);
    CutCoversContent(stream[8..]);
    assert stream[8..] == EncryptPieces(p, q.hash, d.keyDataSalt, d.sessionKey, Cut(content));
  }
}
