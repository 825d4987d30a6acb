/**
 Why the pieces have to be a cut: a reader that reports its end inside a segment and then
 goes on has its package encrypted under one division into segments and decrypted under
 another. The tag covers the stream and not the division, so the result is still verified.
 A division gives back whatever it holds, under all lawful primitives, only if it is a cut.
 */
module EndedReader {
  import opened Errors
  import opened Octets
  import opened Crypto
  import opened EncryptParams
  import opened EncryptionInfo
  import opened Segments
  import opened Integrity
  import opened Agile
  import opened AgileEncrypt
  import opened WriterReader
  import EndToEnd
  import AgileParser

  function Up(b: Byte, shift: Byte): Byte {
    if b as int + shift as int < 256 then b + shift else (b as int + shift as int - 256) as Byte
  }

  function Down(b: Byte, shift: Byte): Byte {
    if b >= shift then b - shift else (b as int - shift as int + 256) as Byte
  }

  function Shifted(x: Bytes, shift: Byte): (y: Bytes)
    ensures |y| == |x|
  {
    seq<Byte>(|x|, i requires 0 <= i < |x| => Up(x[i], shift))
  }

  function Unshifted(x: Bytes, shift: Byte): (y: Bytes)
    ensures |y| == |x|
  {
    seq<Byte>(|x|, i requires 0 <= i < |x| => Down(x[i], shift))
  }

  lemma ShiftUndone(x: Bytes, shift: Byte)
    ensures Unshifted(Shifted(x, shift), shift) == x
  {
  }

  function Parity(n: nat): Byte {
    if n % 2 == 0 then 0 else 1
  }

  function First(iv: Bytes): Byte {
    if iv == [] then 0 else iv[0]
  }

  /** A digest that tells even indices from odd ones. */
  function Mark(h: HashAlgorithm, x: Bytes): (d: Bytes)
    ensures |d| == h.DigestLen()
  {
    if |x| >= 4 then seq<Byte>(h.DigestLen(), _ => Parity(x[|x| - 4] as nat)) else Zeros(h.DigestLen())
  }

  /** Lawful primitives under which a segment shows the index it was encrypted with. */
  function Marked(): Primitives {
    Primitives(
      (key: Bytes, iv: Bytes, x: Bytes) => Shifted(x, First(iv)),
      (key: Bytes, iv: Bytes, x: Bytes) => Unshifted(x, First(iv)),
      (h: HashAlgorithm, x: Bytes) => Mark(h, x),
      (h: HashAlgorithm, key: Bytes, x: Bytes) => Zeros(h.DigestLen()),
      x => ToyText(x),
      s => ToyBytes(s))
  }

  lemma MarkedIsLawful()
    ensures Marked().Lawful()
  {
    forall key: Bytes, iv: Bytes, x: Bytes
      ensures Marked().decrypt(key, iv, Marked().encrypt(key, iv, x)) == x
    {
      ShiftUndone(x, First(iv));
    }
    assert Marked().CipherLaws() && Marked().DigestLaws();
    forall x: Bytes
      ensures Marked().unbase64(Marked().base64(x)) == Some(x)
    {
      ToyTextReadsBack(x);
    }
    assert Marked().TextLaws();
  }

  /** They are primitives like any other. */
  ghost function Telling(): (p: Crypto)
    ensures p == Marked()
  {
    MarkedIsLawful();
    Marked()
  }

  lemma IndexMarks(hash: HashAlgorithm, salt: Bytes, index: nat)
    ensures First(SegmentIv(Telling(), hash, salt, index)) == Parity(index)
  {
    var x := salt + Le32(index);
    IndexIsThere(salt, index);
    assert Telling().digest(hash, x) == Mark(hash, x);
  }

  lemma IndexIsThere(salt: Bytes, index: nat)
    ensures var x := salt + Le32(index); |x| >= 4 && Parity(x[|x| - 4] as nat) == Parity(index)
  {
    FourBytes(index);
    var x := salt + Le32(index);
    assert x[|x| - 4] == Le32(index)[0];
    LowByte(index);
  }

  lemma LowByte(n: nat)
    ensures Parity(n % 256) == Parity(n)
  {
    assert n == 2 * (128 * (n / 256)) + n % 256;
  }

  /** A byte of an encrypted piece: a byte of the padded piece, moved by the parity of its index. */
  lemma EncryptedByte(hash: HashAlgorithm, salt: Bytes, key: Bytes, piece: Bytes, index: nat, i: nat)
    requires AesKey(key) && i < RoundUp(|piece|)
    ensures EncryptPiece(Telling(), hash, salt, key, piece, index)[i] == Up(Pad(piece)[i], Parity(index))
  {
    IndexMarks(hash, salt, index);
  }

  lemma DecryptedPieceByte(hash: HashAlgorithm, salt: Bytes, key: Bytes, piece: Bytes, index: nat, i: nat)
    requires AesKey(key) && i < |piece|
    ensures DecryptPiece(Telling(), hash, salt, key, piece, index)[i] == Down(piece[i], Parity(index))
  {
    IndexMarks(hash, salt, index);
    assert Pad(piece)[i] == piece[i];
  }

  /** A byte of a decrypted stream, moved back by the parity of the segment it lies in. */
  lemma {:induction false} DecryptedByte(hash: HashAlgorithm, salt: Bytes, key: Bytes, pieces: Pieces, i: nat)
    requires AesKey(key) && IsCut(pieces) && i < |pieces.Joined()|
    ensures DecryptPieces(Telling(), hash, salt, key, pieces)[i] == Down(pieces.Joined()[i], Parity(i / 4096))
    decreases pieces
  {
    var start := |pieces.before.Joined()|;
    FullLength(pieces.before);
    if i < start {
      DecryptedByte(hash, salt, key, pieces.before, i);
    } else {
      var count := pieces.before.Count();
      assert start == 4096 * count && i - start < 4096;
      assert i / 4096 == count;
      DecryptedPieceByte(hash, salt, key, pieces.last, count, i - start);
    }
  }

  // ----- where another division goes wrong -----

  /** The same division of other bytes. */
  predicate Alike(a: Pieces, b: Pieces) {
    match a
    case Nothing => b.Nothing?
    case Then(before, last) => b.Then? && |b.last| == |last| && Alike(before, b.before)
  }

  function Ones(n: nat): (b: Bytes)
    ensures |b| == n && forall i :: 0 <= i < n ==> b[i] == 1
  {
    seq<Byte>(n, _ => 1)
  }

  /** The same division of as many ones. */
  function OfOnes(pieces: Pieces): (ones: Pieces)
    ensures Alike(pieces, ones) && ones.Count() == pieces.Count()
    ensures Division(pieces) ==> Division(ones)
    ensures AllFull(ones) <==> AllFull(pieces)
    ensures IsCut(ones) <==> IsCut(pieces)
    ensures ones.Joined() == Ones(|pieces.Joined()|)
  {
    match pieces
    case Nothing => Nothing
    case Then(before, last) => Then(OfOnes(before), Ones(|last|))
  }

  lemma {:induction false} FullEncrypted(hash: HashAlgorithm, salt: Bytes, key: Bytes, pieces: Pieces)
    requires AesKey(key) && AllFull(pieces)
    ensures |EncryptPieces(Telling(), hash, salt, key, pieces)| == |pieces.Joined()| == 4096 * pieces.Count()
  {
    if pieces.Then? {
      FullEncrypted(hash, salt, key, pieces.before);
    }
  }

  lemma {:induction false} EncryptedLength(p: Crypto, hash: HashAlgorithm, salt: Bytes, key: Bytes, pieces: Pieces)
    requires AesKey(key) && Division(pieces)
    ensures var n := |pieces.Joined()|; n <= |EncryptPieces(p, hash, salt, key, pieces)| <= 16 * n
  {
    if pieces.Then? {
      EncryptedLength(p, hash, salt, key, pieces.before);
    }
  }

  /** The byte at `at` is not decrypted to a one. */
  predicate Wrong(cipher: Bytes, at: nat) {
    at < |cipher| && Down(cipher[at], Parity(at / 4096)) != 1
  }

  /**
   Ones in a division that is no cut: behind the first piece that is short there is padding
   in the stream, or the next piece under an index that is not its segment's.
   */
  lemma {:induction false} SomeByteIsWrong(hash: HashAlgorithm, salt: Bytes, key: Bytes, pieces: Pieces)
    returns (at: nat)
    requires AesKey(key) && Division(pieces) && !IsCut(pieces) && OfOnes(pieces) == pieces
    ensures at < |pieces.Joined()| && Wrong(EncryptPieces(Telling(), hash, salt, key, pieces), at)
    decreases pieces
  {
    var before := pieces.before;
    if IsCut(before) {
      at := |before.Joined()|;
      ShortPieceIsWrong(hash, salt, key, before, pieces.last);
    } else {
      at := SomeByteIsWrong(hash, salt, key, before);
    }
  }

  lemma ShortPieceIsWrong(hash: HashAlgorithm, salt: Bytes, key: Bytes, before: Pieces, last: Bytes)
    requires AesKey(key) && 0 < |last| <= 4096 && last == Ones(|last|)
    requires IsCut(before) && !AllFull(before)
    ensures Wrong(EncryptPieces(Telling(), hash, salt, key, Then(before, last)), |before.Joined()|)
  {
    var short, k, at := before.last, before.before.Count(), |before.Joined()|;
    var cipher := EncryptPieces(Telling(), hash, salt, key, Then(before, last));
    var head, middle, tail := ShortParts(hash, salt, key, before, last, short, k);
    if RoundUp(|short|) > |short| {
      EncryptedByte(hash, salt, key, short, k, |short|);
      PaddingIsWrong(head, middle, tail, |short|, k, cipher, at);
    } else {
      EncryptedByte(hash, salt, key, last, k + 1, 0);
      NextIndexIsWrong(head, middle, tail, k, cipher, at);
    }
  }

  lemma ShortParts(hash: HashAlgorithm, salt: Bytes, key: Bytes, before: Pieces, last: Bytes, short: Bytes, k: nat)
    returns (head: Bytes, middle: Bytes, tail: Bytes)
    requires AesKey(key) && last != [] && IsCut(before) && !AllFull(before)
    requires short == before.last && k == before.before.Count()
    ensures middle == EncryptPiece(Telling(), hash, salt, key, short, k) && |short| < 4096
    ensures tail == EncryptPiece(Telling(), hash, salt, key, last, k + 1)
    ensures EncryptPieces(Telling(), hash, salt, key, Then(before, last)) == head + middle + tail
    ensures |head| == 4096 * k && |before.Joined()| == |head| + |short|
  {
    FullEncrypted(hash, salt, key, before.before);
    FullLength(before.before);
    head := EncryptPieces(Telling(), hash, salt, key, before.before);
    middle := EncryptPiece(Telling(), hash, salt, key, short, k);
    tail := EncryptPiece(Telling(), hash, salt, key, last, k + 1);
  }

  lemma PaddingIsWrong(head: Bytes, middle: Bytes, tail: Bytes, n: nat, k: nat, cipher: Bytes, at: nat)
    requires n < |middle| && middle[n] == Up(0, Parity(k)) && cipher == head + middle + tail
    requires at == |head| + n && at / 4096 == k
    ensures Wrong(cipher, at)
  {
  }

  lemma NextIndexIsWrong(head: Bytes, middle: Bytes, tail: Bytes, k: nat, cipher: Bytes, at: nat)
    requires tail != [] && tail[0] == Up(1, Parity(k + 1)) && cipher == head + middle + tail
    requires at == |head| + |middle| && at / 4096 == k
    ensures Wrong(cipher, at)
  {
  }

  lemma Behind(k: nat, n: nat)
    requires n < 4096
    ensures (4096 * k + n) / 4096 == k
  {
  }

  // ----- exactly the cuts are decrypted as a package is -----

  /** Pieces that are no cut: some byte is decrypted under an index that is not its segment's. */
  lemma {:induction false} SomeByteIsOff(hash: HashAlgorithm, salt: Bytes, key: Bytes, pieces: Pieces) returns (at: nat)
    requires AesKey(key) && Division(pieces) && !IsCut(pieces)
    ensures at < |pieces.Joined()|
    ensures DecryptPieces(Telling(), hash, salt, key, pieces)[at] != Down(pieces.Joined()[at], Parity(at / 4096))
    decreases pieces
  {
    var before, last := pieces.before, pieces.last;
    if IsCut(before) {
      at := |before.Joined()|;
      FullLength(before.before);
      Behind(before.before.Count(), |before.last|);
      DecryptedPieceByte(hash, salt, key, last, before.Count(), 0);
      var head, tail := DecryptPieces(Telling(), hash, salt, key, before),
                        DecryptPiece(Telling(), hash, salt, key, last, before.Count());
      assert |head| == at && before.Count() == at / 4096 + 1;
      assert (head + tail)[at] == tail[0] && (before.Joined() + last)[at] == last[0];
      ParityTells(last[0], at / 4096);
    } else {
      at := SomeByteIsOff(hash, salt, key, before);
    }
  }

  lemma ParityTells(b: Byte, k: nat)
    ensures Down(b, Parity(k + 1)) != Down(b, Parity(k))
  {
  }

  lemma OtherDivisionsDecryptWrong(hash: HashAlgorithm, salt: Bytes, key: Bytes, pieces: Pieces) returns (at: nat)
    requires AesKey(key) && Division(pieces) && !IsCut(pieces)
    ensures at < |pieces.Joined()|
    ensures |DecryptPieces(Telling(), hash, salt, key, Cut(pieces.Joined()))| == |pieces.Joined()|
    ensures DecryptPieces(Telling(), hash, salt, key, pieces)[at]
      != DecryptPieces(Telling(), hash, salt, key, Cut(pieces.Joined()))[at]
  {
    at := SomeByteIsOff(hash, salt, key, pieces);
    CutIsCut(pieces.Joined());
    CutCoversContent(pieces.Joined());
    DecryptedByte(hash, salt, key, Cut(pieces.Joined()), at);
  }

  /**
   A division is decrypted as the package it joins to, under all lawful primitives, exactly
   when it is a cut.
   */
  lemma ExactlyTheCutsDecryptAlike(hash: HashAlgorithm, salt: Bytes, key: Bytes, pieces: Pieces)
    requires AesKey(key) && Division(pieces)
    ensures IsCut(pieces) <==>
      forall p: Crypto ::
        DecryptPieces(p, hash, salt, key, pieces) == DecryptPieces(p, hash, salt, key, Cut(pieces.Joined()))
  {
    if IsCut(pieces) {
      OnlyOneCut(pieces);
    } else {
      var at := OtherDivisionsDecryptWrong(hash, salt, key, pieces);
    }
  }

  // ----- exactly the cuts come back -----

  /** A package read in these pieces is written, opens, has its tag accepted, and is read as `back`. */
  ghost predicate ComesBackAs(p: Crypto, q: Params, password: Bytes, d: Draws, pieces: Pieces, policy: IntegrityPolicy,
                              back: Bytes)
    requires q.Writable() && d.Sized(q)
  {
    var e := EncryptedFrom(p, q, password, d, pieces);
    Decrypt(p, Document(p, q, e.blobs), e.package, password, policy) == Ok((back, EndToEnd.OutcomeUnder(policy)))
  }

  ghost predicate ComesBack(p: Crypto, q: Params, password: Bytes, d: Draws, pieces: Pieces, policy: IntegrityPolicy)
    requires q.Writable() && d.Sized(q)
  {
    ComesBackAs(p, q, password, d, pieces, policy, pieces.Joined())
  }

  lemma BodyIsScreened(p: Crypto, a: AgileParser.AgileParams, key: Bytes, body: Bytes, declared: nat)
    requires AesKey(key) && |key| == a.keyDataKeyBits / 8 && declared <= |body| <= 16 * STREAMED_PACKAGE_MAX
    requires declared <= STREAMED_PACKAGE_MAX
    ensures DecryptPackage(p, key, a, Le64(declared) + body)
      == Ok(Take(DecryptPieces(p, a.keyDataHash, a.outerSalt, key, Cut(body)), declared))
  {
    ReadBack64(declared);
    Ends(Le64(declared), body);
    CutAt(body, 0);
    BodyDecrypts(p, a, key, Le64(declared) + body, body, declared);
  }

  /** What a written package comes back as, in whatever pieces it was read. */
  lemma WhatComesBack(p: Crypto, q: Params, password: Bytes, d: Draws, pieces: Pieces, policy: IntegrityPolicy,
                      back: Bytes)
    requires q.Writable() && d.Sized(q) && Division(pieces) && |pieces.Joined()| <= STREAMED_PACKAGE_MAX
    requires
      var stored := Cut(EncryptPieces(p, q.hash, d.keyDataSalt, d.sessionKey, pieces));
      back == Take(DecryptPieces(p, q.hash, d.keyDataSalt, d.sessionKey, stored), |pieces.Joined()|)
    ensures ComesBackAs(p, q, password, d, pieces, policy, back)
  {
    var e := EncryptedFrom(p, q, password, d, pieces);
    var cipher := EncryptPieces(p, q.hash, d.keyDataSalt, d.sessionKey, pieces);
    EncryptedLength(p, q.hash, d.keyDataSalt, d.sessionKey, pieces);
    EndToEnd.WhatIsWrittenOpens(p, q, password, d, pieces, policy);
    BodyIsScreened(p, Described(q, e.blobs), d.sessionKey, cipher, |pieces.Joined()|);
  }

  /**
   For every writable tuple, password, set of draws and policy: a package of ones read in a
   division that is no cut is written, opens, has its tag accepted, and comes back different.
   */
  lemma OtherDivisionsComeBackWrong(q: Params, password: Bytes, d: Draws, pieces: Pieces, policy: IntegrityPolicy)
    returns (wrong: Bytes)
    requires q.Writable() && d.Sized(q) && Division(pieces) && !IsCut(pieces)
    requires |pieces.Joined()| <= STREAMED_PACKAGE_MAX && OfOnes(pieces) == pieces
    ensures wrong != pieces.Joined() && |wrong| == |pieces.Joined()|
    ensures ComesBackAs(Telling(), q, password, d, pieces, policy, wrong)
  {
    wrong := DifferentBytes(q.hash, d.keyDataSalt, d.sessionKey, pieces);
    WhatComesBack(Telling(), q, password, d, pieces, policy, wrong);
  }

  lemma DifferentBytes(hash: HashAlgorithm, salt: Bytes, key: Bytes, pieces: Pieces) returns (wrong: Bytes)
    requires AesKey(key) && Division(pieces) && !IsCut(pieces) && OfOnes(pieces) == pieces
    ensures
      var stored := Cut(EncryptPieces(Telling(), hash, salt, key, pieces));
      wrong == Take(DecryptPieces(Telling(), hash, salt, key, stored), |pieces.Joined()|)
    ensures wrong != pieces.Joined() && |wrong| == |pieces.Joined()|
  {
    var cipher := EncryptPieces(Telling(), hash, salt, key, pieces);
    var stored := Cut(cipher);
    EncryptedLength(Telling(), hash, salt, key, pieces);
    CutCoversContent(cipher);
    var at := SomeByteIsWrong(hash, salt, key, pieces);
    CutIsCut(cipher);
    DecryptedByte(hash, salt, key, stored, at);
    wrong := Take(DecryptPieces(Telling(), hash, salt, key, stored), |pieces.Joined()|);
    assert wrong[at] != 1 && pieces.Joined()[at] == 1;
  }

  /**
   A division gives back what it holds, whatever that is and whatever the primitives,
   exactly when it is a cut.
   */
  lemma ExactlyTheCutsComeBack(q: Params, password: Bytes, d: Draws, pieces: Pieces, policy: IntegrityPolicy)
    requires q.Writable() && d.Sized(q) && Division(pieces) && |pieces.Joined()| <= STREAMED_PACKAGE_MAX
    ensures IsCut(pieces) <==>
      forall p: Crypto, same: Pieces :: Alike(pieces, same) ==> ComesBack(p, q, password, d, same, policy)
  {
    if IsCut(pieces) {
      forall p: Crypto, same: Pieces | Alike(pieces, same)
        ensures ComesBack(p, q, password, d, same, policy)
      {
        AlikeAreCutAlike(pieces, same);
        EndToEnd.WhatWasReadIsRead(p, q, password, d, same, policy);
      }
    } else {
      var ones := OfOnes(pieces);
      OnesStayOnes(pieces);
      var wrong := OtherDivisionsComeBackWrong(q, password, d, ones, policy);
      assert Alike(pieces, ones) && !ComesBack(Telling(), q, password, d, ones, policy);
    }
  }

  lemma AlikeAreCutAlike(a: Pieces, b: Pieces)
    requires Alike(a, b)
    ensures |a.Joined()| == |b.Joined()| && (AllFull(a) <==> AllFull(b)) && (IsCut(a) <==> IsCut(b))
  {
  }

  lemma OnesStayOnes(pieces: Pieces)
    ensures OfOnes(OfOnes(pieces)) == OfOnes(pieces)
  {
  }
}
