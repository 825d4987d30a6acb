/** The agile write path: `agile_encrypt.rs`, and the container protocol of `dataspaces.rs`. */
module AgileEncrypt {
  import opened Errors
  import opened Octets
  import opened Crypto
  import opened BlockKeys
  import opened EncryptParams
  import opened EncryptionInfo
  import opened Streams
  import opened Segments
  import opened Integrity
  import C = Container

  /** Section 2.6.1 of [MS-CFB]: the largest stream of a version 3 compound file. */
  const CFB_V3_STREAM_MAX: nat := 0x8000_0000
  const STREAMED_PACKAGE_MAX: nat := (CFB_V3_STREAM_MAX - 8) / 16 * 16

  /** The injected source of randomness: a tape, used from the front. */
  class RandomTape {
    var tape: Bytes

    constructor (tape: Bytes)
      ensures this.tape == tape
    {
      this.tape := tape;
    }

    method Fill(n: nat) returns (r: Result<Bytes>)
      modifies this
      ensures if n <= |old(tape)| then r.Ok? else r == Err(Error.RandomSource)
      ensures r.Ok? ==> |r.value| == n && old(tape) == r.value + tape
    {
      if n > |tape| {
        return Err(Error.RandomSource);
      }
      r := Ok(tape[..n]);
      tape := tape[n..];
    }
  }

  /** What is drawn, in the order it is drawn. */
  datatype Draws = Draws(passwordSalt: Bytes, verifierInput: Bytes, sessionKey: Bytes, keyDataSalt: Bytes,
                         hmacKey: Bytes) {

    predicate Sized(q: Params) {
      && |passwordSalt| == |verifierInput| == q.passwordSaltSize
      && |sessionKey| == q.keyDataKeyBits / 8
      && |keyDataSalt| == q.keyDataSaltSize
      && |hmacKey| == q.hash.DigestLen()
    }

    function Tape(): Bytes {
      passwordSalt + verifierInput + sessionKey + keyDataSalt + hmacKey
    }
  }

  datatype KeyMaterial = KeyMaterial(
    keyDataSalt: Bytes,
    passwordSalt: Bytes,
    sessionKey: Bytes,
    verifierInput: Bytes,
    verifierValue: Bytes,
    keyValue: Bytes)
  {
    /** The draws it was made from, and the lengths the tuple fixes. */
    predicate Fits(q: Params, d: Draws) {
      && keyDataSalt == d.keyDataSalt && passwordSalt == d.passwordSalt && sessionKey == d.sessionKey
      && |verifierInput| == RoundUp(q.passwordSaltSize) && |verifierValue| == RoundUp(q.hash.DigestLen())
      && |keyValue| == RoundUp(q.keyDataKeyBits / 8)
    }
  }

  /** The password encryptor a set of draws gives: sections 2.3.4.11 to 2.3.4.13. */
  function Material(p: Crypto, q: Params, password: Bytes, salt: Bytes, input: Bytes, sessionKey: Bytes,
                    keyDataSalt: Bytes)
    : (r: Result<KeyMaterial>)
    ensures q.Writable() ==> r.Ok?
    ensures r.Ok? ==>
      && |r.value.verifierInput| == RoundUp(|input|) && |r.value.verifierValue| == RoundUp(q.hash.DigestLen())
      && |r.value.keyValue| == RoundUp(|sessionKey|)
      && r.value.passwordSalt == salt && r.value.keyDataSalt == keyDataSalt && r.value.sessionKey == sessionKey
  {
    var blobIv := FitIv(salt, AES_BLOCK);
    var hFinal := SpinHash(p, q.hash, password, salt, q.spinCount);
    var inputKey :- DeriveBlockKey(p, q.hash, hFinal, BLOCK_VERIFIER_INPUT, q.passwordKeyBits);
    var valueKey := DeriveBlockKey(p, q.hash, hFinal, BLOCK_VERIFIER_HASH, q.passwordKeyBits).value;
    var keyKey := DeriveBlockKey(p, q.hash, hFinal, BLOCK_KEY_VALUE, q.passwordKeyBits).value;
    var verifierInput :- AesCbcEncrypt(p, Pad(input), inputKey, blobIv);
    var verifierValue := AesCbcEncrypt(p, Pad(DigestTwo(p, q.hash, input, [])), valueKey, blobIv).value;
    var keyValue := AesCbcEncrypt(p, Pad(sessionKey), keyKey, blobIv).value;
    Ok(KeyMaterial(keyDataSalt, salt, sessionKey, verifierInput, verifierValue, keyValue))
  }

  method Generate(p: Crypto, password: Bytes, q: Params, rng: RandomTape)
    returns (r: Result<KeyMaterial>, ghost d: Draws)
    modifies rng
    ensures q.Writable() ==>
      (r.Ok? <==> 2 * q.passwordSaltSize + q.keyDataKeyBits / 8 + q.keyDataSaltSize <= |old(rng.tape)|)
    ensures q.Writable() && r.Err? ==> r.error == Error.RandomSource
    ensures r.Ok? ==>
      && |d.passwordSalt| == |d.verifierInput| == q.passwordSaltSize
      && |d.sessionKey| == q.keyDataKeyBits / 8 && |d.keyDataSalt| == q.keyDataSaltSize
      && old(rng.tape) == d.passwordSalt + d.verifierInput + d.sessionKey + d.keyDataSalt + rng.tape
      && r == Material(p, q, password, d.passwordSalt, d.verifierInput, d.sessionKey, d.keyDataSalt)
  {
    d := Draws([], [], [], [], []);
    ghost var tape := rng.tape;
    var salt := rng.Fill(q.passwordSaltSize);
    if salt.Err? {
      return Err(salt.error), d;
    }
    var blobIv := FitIv(salt.value, AES_BLOCK);
    var hFinal := ComputeSpinHash(p, q.hash, password, salt.value, q.spinCount);
    var inputKey := DeriveBlockKey(p, q.hash, hFinal, BLOCK_VERIFIER_INPUT, q.passwordKeyBits);
    if inputKey.Err? {
      return Err(inputKey.error), d;
    }
    var valueKey := DeriveBlockKey(p, q.hash, hFinal, BLOCK_VERIFIER_HASH, q.passwordKeyBits).value;
    var keyKey := DeriveBlockKey(p, q.hash, hFinal, BLOCK_KEY_VALUE, q.passwordKeyBits).value;
    var input := rng.Fill(q.passwordSaltSize);
    if input.Err? {
      return Err(input.error), d;
    }
    ghost var used := salt.value + input.value;
    Regroup(salt.value, input.value, rng.tape);
    var inputSlot := PaddedSlot(input.value);
    var verifierInput := AesCbcEncrypt(p, inputSlot[..], inputKey.value, blobIv);
    if verifierInput.Err? {
      return Err(verifierInput.error), d;
    }
    var valueSlot := PaddedSlot(DigestTwo(p, q.hash, input.value, []));
    var verifierValue := AesCbcEncrypt(p, valueSlot[..], valueKey, blobIv).value;
    var sessionKey := rng.Fill(q.keyDataKeyBits / 8);
    if sessionKey.Err? {
      return Err(sessionKey.error), d;
    }
    Regroup(used, sessionKey.value, rng.tape);
    used := used + sessionKey.value;
    var keySlot := PaddedSlot(sessionKey.value);
    var keyValue := AesCbcEncrypt(p, keySlot[..], keyKey, blobIv).value;
    var keyDataSalt := rng.Fill(q.keyDataSaltSize);
    if keyDataSalt.Err? {
      return Err(keyDataSalt.error), d;
    }
    Regroup(used, keyDataSalt.value, rng.tape);
    d := Draws(salt.value, input.value, sessionKey.value, keyDataSalt.value, []);
    var m := KeyMaterial(keyDataSalt.value, salt.value, sessionKey.value, verifierInput.value, verifierValue, keyValue);
    return Ok(m), d;
  }

  // ----- the package stream -----

  /** The whole stream for a package: its length, then its segments. */
  function PackageStream(p: Crypto, hash: HashAlgorithm, salt: Bytes, key: Bytes, pieces: Pieces, len: nat): Bytes
    requires AesKey(key)
  {
    Le64(len) + EncryptPieces(p, hash, salt, key, pieces)
  }

  /**
   What one turn comes to, with what the reader gave it: a failure, the end, a counter that
   has run out, or the segment's ciphertext to the writer and the HMAC alike.
   */
  ghost predicate Turned(p: Crypto, key: Bytes, salt: Bytes, hash: HashAlgorithm, index: nat, d: Delivery, cap: nat,
                         a: Standing, b: Standing, open: bool, r: Result<Option<nat>>)
    requires AesKey(key)
  {
    && b.consumed == a.consumed + d.bytes && EndsAt(a.ends, b.ends, |b.consumed|, d.Ended(cap))
    && (d.failed ==> r == Err(Io(Failed)))
    && (!d.failed && d.bytes == [] ==> r == Ok(None) && b.out == a.out && b.fed == a.fed)
    && (!d.failed && d.bytes != [] && index == U32_LIMIT ==> r == Err(InvariantViolated(CounterOverflow)))
    && (!d.failed && d.bytes != [] && index < U32_LIMIT ==>
      if r.Err? then r.error == Io(Failed) && !open
      else
        var cipher := EncryptPiece(p, hash, salt, key, d.bytes, index);
        r == Ok(Some(|d.bytes|)) && b.out == a.out + cipher && b.fed == a.fed + cipher)
  }

  /** One turn of the segment loop: the next segment read, encrypted in place, written, hashed. */
  method SealNext(p: Crypto, reader: ByteStream, limit: nat, sink: Sink, segmenter: Segmenter, slot: array<Byte>,
                  key: Bytes, mac: HmacState)
    returns (r: Result<Option<nat>>, ghost d: Delivery)
    requires AesKey(key) && reader.journal == sink.journal && slot.Length == SEGMENT && segmenter.Valid()
    requires segmenter.blockSize == AES_BLOCK
    modifies reader, sink, reader.journal, segmenter, slot, mac
    ensures d == Delivered(old(reader.State()), Min(SEGMENT, limit)) && reader.State() == d.after
    ensures segmenter.Valid()
    ensures r.Ok? ==> segmenter.Used() == old(segmenter.Used()) + if r.value.Some? then 1 else 0
    ensures Turned(p, key, segmenter.salt, segmenter.hash, old(segmenter.Used()), d, Min(SEGMENT, limit),
                   old(Stands(sink, mac)), Stands(sink, mac), old(sink.room).None?, r)
    ensures old(sink.room).None? ==> sink.room.None?
  {
    d := Delivered(reader.State(), Min(SEGMENT, limit));
    var next := segmenter.Fill(p, reader, limit, slot);
    if next.Err? {
      return Err(next.error), d;
    }
    if next.value.None? {
      return Ok(None), d;
    }
    var f := next.value.value;
    ghost var piece := slot[..f.len];
    assert p.CipherLaws() && AesReady(key, f.iv, Pad(piece));
    var sealed := AesCbcEncryptInPlace(p, slot, f.paddedLen, key, f.iv);
    assert sealed.Ok?;  // the seam refuses nothing that gets this far
    var block := slot[..f.paddedLen];
    var written := sink.WriteAll(block);
    if written.Err? {
      return Err(written.error), d;
    }
    mac.Update(block);
    return Ok(Some(f.len)), d;
  }

  // ----- what is read of a package, as a function of the reader -----

  /** The probe behind the last segment, for a reader that was measured at `len` bytes and gave `read`. */
  function HeldTo(s: ReaderState, len: nat, read: nat): (r: Result<()>)
    ensures r.Err? ==> r.error.Io?
  {
    if read < len then Err(Io(UnexpectedEof))
    else
      var probe := Delivered(s, 1);
      if probe.failed then Err(Io(Failed)) else if probe.bytes != [] then Err(Io(InvalidData)) else Ok(())
  }

  /** The pieces a package of `len` bytes comes in, or the error that ends the reading of it. */
  function PackageRead(s: ReaderState, len: nat): (r: Result<Pieces>)
    ensures r.Ok? ==>
      r.value == SectionsOf(s, len, Nothing).pieces && Division(r.value) && |r.value.Joined()| == len
  {
    var all := SectionsOf(s, len, Nothing);
    SectionsGrow(s, len, Nothing, all);
    if all.pieces.Count() > U32_LIMIT then Err(InvariantViolated(CounterOverflow))
    else if all.failed then Err(Io(Failed))
    else
      var _ :- HeldTo(all.after, len, |all.pieces.Joined()|);
      Ok(all.pieces)
  }

  /** A steady reader's package comes in the cut of its content, if it is as long as it was measured. */
  lemma SteadyPackage(s: ReaderState, len: nat)
    requires s.Steady()
    ensures
      var n := |s.Rest()|;
      PackageRead(s, len) ==
        if Min(n, len) > 4096 * U32_LIMIT then Err(InvariantViolated(CounterOverflow))
        else if n < len then Err(Io(UnexpectedEof)) else if n > len then Err(Io(InvalidData))
        else Ok(Cut(s.Rest()))
  {
    var all, content := SectionsOf(s, len, Nothing), Take(s.Rest(), len);
    SteadyIsCut(s, len);
    CutCoversContent(content);
    assert all.pieces.Count() > U32_LIMIT <==> |content| > 4096 * U32_LIMIT by {
      CutAt(content, 0);
      FewEnough(|content|);
    }
    SteadyProbe(all.after);
    assert |all.after.Rest()| == |s.Rest()| - |content|;
    assert |s.Rest()| <= len ==> content == s.Rest();
  }

  lemma SteadyProbe(s: ReaderState)
    requires s.Steady()
    ensures var probe := Delivered(s, 1); !probe.failed && (probe.bytes == [] <==> |s.Rest()| == 0)
  {
    UnchangingDelivers(s, 1, Delivered(s, 1));
  }

  lemma FewEnough(n: nat)
    ensures (n + 4095) / 4096 > U32_LIMIT <==> n > 4096 * U32_LIMIT
  {
  }

  /**
   The package from a reader into a writer, a segment at a time, the HMAC fed what is
   written.
   */
  method EncryptPackageTo(p: Crypto, reader: ByteStream, len: nat, sink: Sink, key: Bytes, salt: Bytes,
                          hash: HashAlgorithm, mac: HmacState)
    returns (r: Result<()>, ghost pieces: Pieces)
    requires AesKey(key) && reader.journal == sink.journal && reader.journal.Valid()
    modifies reader, sink, reader.journal, mac
    ensures r.Ok? ==>
      && PackageRead(old(reader.State()), len) == Ok(pieces)
      && reader.journal.consumed == old(reader.journal.consumed) + pieces.Joined()
      && CutUnlessEnded(reader.journal, pieces)
      && sink.contents == old(sink.contents) + PackageStream(p, hash, salt, key, pieces, len)
      && mac.fed == old(mac.fed) + PackageStream(p, hash, salt, key, pieces, len)
    ensures r.Err? ==> r.error.Io? || (r.error == InvariantViolated(CounterOverflow) && len > U32_LIMIT)
    ensures r.Err? && old(sink.room).None? ==> PackageRead(old(reader.State()), len) == Err(r.error)
  {
    pieces := Nothing;
    ghost var s, out, fed, consumed := reader.State(), sink.contents, mac.fed, reader.journal.consumed;
    var size := Le64(len);
    var started := sink.WriteAll(size);
    if started.Err? {
      return Err(started.error), pieces;
    }
    mac.Update(size);
    var taken;
    taken, pieces := SealBody(p, reader, len, sink, key, salt, hash, mac);
    if taken.Err? {
      return Err(taken.error), pieces;
    }
    ghost var cipher := EncryptPieces(p, hash, salt, key, pieces);
    ghost var ends, end := reader.journal.ends, |reader.journal.consumed|;
    Regroup(out, size, cipher);
    Regroup(fed, size, cipher);
    ghost var ended;
    r, ended := HeldToLength(reader, len, taken.value);
    if r.Ok? {
      EndAfterPieces(ends, reader.journal.ends, |consumed|, end, pieces, len, ended);
      CutIsUnlessEnded(reader.journal, |consumed|, pieces, len);
    }
  }

  /** The segment loop. */
  method SealBody(p: Crypto, reader: ByteStream, len: nat, sink: Sink, key: Bytes, salt: Bytes, hash: HashAlgorithm,
                  mac: HmacState)
    returns (r: Result<nat>, ghost pieces: Pieces)
    requires AesKey(key) && reader.journal == sink.journal && reader.journal.Valid()
    modifies reader, sink, reader.journal, mac
    ensures r.Ok? ==>
      && SectionsOf(old(reader.State()), len, Nothing) == Sections(pieces, false, reader.State())
      && pieces.Count() <= U32_LIMIT && r.value == |pieces.Joined()| <= len
      && reader.journal.consumed == old(reader.journal.consumed) + pieces.Joined()
      && CutByEnds(reader.journal.ends, |old(reader.journal.consumed)|, |reader.journal.consumed|, pieces, len)
      && sink.contents == old(sink.contents) + EncryptPieces(p, hash, salt, key, pieces)
      && mac.fed == old(mac.fed) + EncryptPieces(p, hash, salt, key, pieces)
    ensures r.Err? ==>
      && Stops(SectionsOf(old(reader.State()), len, Nothing), r.error, old(sink.room).None?)
      && (r.error.Io? || len > U32_LIMIT)
    ensures old(sink.room).None? ==> sink.room.None?
  {
    ghost var all := SectionsOf(reader.State(), len, Nothing);
    ghost var from := Origin(sink.contents, mac.fed, reader.journal.consumed, len, all, sink.room.None?);
    var segmenter := new Segmenter(hash, salt, AES_BLOCK);
    var slot := new Byte[SEGMENT];
    SoFarBegins(p, key, salt, hash, from, Stands(sink, mac));
    r, pieces := SealLoop(p, reader, len, sink, segmenter, slot, key, salt, hash, mac, from);
  }

  method SealLoop(p: Crypto, reader: ByteStream, len: nat, sink: Sink, segmenter: Segmenter, slot: array<Byte>,
                  key: Bytes, ghost salt: Bytes, ghost hash: HashAlgorithm, mac: HmacState, ghost from: Origin)
    returns (r: Result<nat>, ghost pieces: Pieces)
    requires AesKey(key) && reader.journal == sink.journal && slot.Length == SEGMENT && from.len == len
    requires Sealing(p, sink, segmenter, key, salt, hash, mac, from, Nothing)
    requires Reading(reader.State(), len, Nothing, from.all)
    modifies reader, sink, reader.journal, segmenter, slot, mac
    ensures r.Ok? ==>
      && Sealing(p, sink, segmenter, key, salt, hash, mac, from, pieces) && r.value == |pieces.Joined()|
      && from.all == Sections(pieces, false, reader.State())
    ensures r.Err? ==> Stops(from.all, r.error, from.open) && (r.error.Io? || len > U32_LIMIT)
    ensures from.open ==> sink.room.None?
  {
    pieces := Nothing;
    var taken := 0;
    ghost var left := len;
    while true
      invariant taken == |pieces.Joined()| && taken + left == len
      invariant Sealing(p, sink, segmenter, key, salt, hash, mac, from, pieces)
      invariant Reading(reader.State(), left, pieces, from.all)
      decreases left
    {
      ghost var more, rest;
      var next;
      next, more, rest := SealTurn(p, reader, len, sink, segmenter, slot, key, salt, hash, mac, from, pieces, taken,
                                   left);
      if next.Err? {
        return Err(next.error), pieces;
      }
      if next.value.None? {
        break;
      }
      pieces, taken, left := more, taken + next.value.value, rest;
    }
    return Ok(taken), pieces;
  }

  /** What had been written, hashed and read when the loop began, and what it is to read. */
  datatype Origin = Origin(out: Bytes, fed: Bytes, consumed: Bytes, len: nat, all: Sections, open: bool)

  /** Everything since the start is the pieces and their ciphertext. */
  ghost predicate SoFar(p: Crypto, key: Bytes, salt: Bytes, hash: HashAlgorithm, from: Origin, pieces: Pieces,
                        a: Standing)
    requires AesKey(key)
  {
    var cipher := EncryptPieces(p, hash, salt, key, pieces);
    && a.out == from.out + cipher && a.fed == from.fed + cipher && a.consumed == from.consumed + pieces.Joined()
    && CutByEnds(a.ends, |from.consumed|, |a.consumed|, pieces, from.len)
  }

  lemma SoFarBegins(p: Crypto, key: Bytes, salt: Bytes, hash: HashAlgorithm, from: Origin, a: Standing)
    requires AesKey(key) && a.out == from.out && a.fed == from.fed && a.consumed == from.consumed
    requires forall e :: e in a.ends ==> e <= |a.consumed|
    ensures SoFar(p, key, salt, hash, from, Nothing, a)
  {
    assert a.out + [] == a.out && a.fed + [] == a.fed && a.consumed + [] == a.consumed;
  }

  lemma SoFarGoesOn(p: Crypto, key: Bytes, salt: Bytes, hash: HashAlgorithm, from: Origin, pieces: Pieces, a: Standing,
                    piece: Bytes, b: Standing, ended: bool)
    requires AesKey(key) && SoFar(p, key, salt, hash, from, pieces, a)
    requires 0 < |piece| <= Min(4096, from.len - |pieces.Joined()|)
    requires |piece| < Min(4096, from.len - |pieces.Joined()|) ==> ended
    requires b.consumed == a.consumed + piece && EndsAt(a.ends, b.ends, |b.consumed|, ended)
    requires var cipher := EncryptPiece(p, hash, salt, key, piece, pieces.Count());
      b.out == a.out + cipher && b.fed == a.fed + cipher
    ensures SoFar(p, key, salt, hash, from, Then(pieces, piece), b)
  {
    var before := EncryptPieces(p, hash, salt, key, pieces);
    var cipher := EncryptPiece(p, hash, salt, key, piece, pieces.Count());
    assert EncryptPieces(p, hash, salt, key, Then(pieces, piece)) == before + cipher;
    Regroup(from.out, before, cipher);
    Regroup(from.fed, before, cipher);
    Regroup(from.consumed, pieces.Joined(), piece);
    CutGoesOn(a.ends, b.ends, |from.consumed|, |a.consumed|, pieces, from.len, piece, |b.consumed|, ended);
  }

  lemma SoFarAtEnd(p: Crypto, key: Bytes, salt: Bytes, hash: HashAlgorithm, from: Origin, pieces: Pieces, a: Standing,
                   b: Standing, ended: bool)
    requires AesKey(key) && SoFar(p, key, salt, hash, from, pieces, a)
    requires b.out == a.out && b.fed == a.fed && b.consumed == a.consumed
    requires EndsAt(a.ends, b.ends, |b.consumed|, ended)
    ensures SoFar(p, key, salt, hash, from, pieces, b)
  {
    EndAfterPieces(a.ends, b.ends, |from.consumed|, |a.consumed|, pieces, from.len, ended);
  }

  /** The loop between two segments. */
  ghost predicate Sealing(p: Crypto, sink: Sink, segmenter: Segmenter, key: Bytes, salt: Bytes,
                          hash: HashAlgorithm, mac: HmacState, from: Origin, pieces: Pieces)
    requires AesKey(key)
    reads sink, sink.journal, segmenter, mac
  {
    && segmenter.Valid() && segmenter.salt == salt && segmenter.hash == hash && segmenter.blockSize == AES_BLOCK
    && segmenter.Used() == pieces.Count() <= |pieces.Joined()| <= from.len
    && SoFar(p, key, salt, hash, from, pieces, Stands(sink, mac))
    && (from.open ==> sink.room.None?)
  }

  /** One turn of the loop, keeping that. */
  method SealTurn(p: Crypto, reader: ByteStream, len: nat, sink: Sink, segmenter: Segmenter, slot: array<Byte>,
                  key: Bytes, ghost salt: Bytes, ghost hash: HashAlgorithm, mac: HmacState, ghost from: Origin,
                  ghost pieces: Pieces, taken: nat, ghost left: nat)
    returns (r: Result<Option<nat>>, ghost more: Pieces, ghost rest: nat)
    requires AesKey(key) && reader.journal == sink.journal && slot.Length == SEGMENT && from.len == len == taken + left
    requires Sealing(p, sink, segmenter, key, salt, hash, mac, from, pieces) && taken == |pieces.Joined()|
    requires Reading(reader.State(), left, pieces, from.all)
    modifies reader, sink, reader.journal, segmenter, slot, mac
    ensures r.Ok? ==> Sealing(p, sink, segmenter, key, salt, hash, mac, from, more)
    ensures r.Ok? && r.value.Some? ==>
      && 0 < r.value.value == left - rest && taken + r.value.value == |more.Joined()|
      && Reading(reader.State(), rest, more, from.all)
    ensures r.Ok? && r.value.None? ==> more == pieces && from.all == Sections(pieces, false, reader.State())
    ensures r.Err? ==> Stops(from.all, r.error, from.open) && (r.error.Io? || len > U32_LIMIT)
    ensures from.open ==> sink.room.None?
  {
    ghost var s, before, open := reader.State(), Stands(sink, mac), sink.room.None?;
    ghost var d;
    assert len - taken == left;
    r, d := SealNext(p, reader, len - taken, sink, segmenter, slot, key, mac);
    ghost var after := Stands(sink, mac);
    more, rest := pieces, left;
    if r.Err? {
      HowItStops(s, left, pieces, from, d, r.error);
    } else if r.value.None? {
      TurnEnds(p, key, salt, hash, from, pieces, left, d, before, after, open, r);
      ReadingGoesOn(s, left, pieces, from.all, d);
    } else {
      TurnGoesOn(p, key, salt, hash, from, pieces, left, d, before, after, open, r);
      rest := left - |d.bytes|;
      more := ReadOneMore(s, left, pieces, from.all, d, rest);
    }
  }

  lemma TurnEnds(p: Crypto, key: Bytes, salt: Bytes, hash: HashAlgorithm, from: Origin, pieces: Pieces,
                 left: nat, d: Delivery, a: Standing, b: Standing, open: bool, r: Result<Option<nat>>)
    requires AesKey(key) && SoFar(p, key, salt, hash, from, pieces, a) && r == Ok(None) && pieces.Count() <= U32_LIMIT
    requires Turned(p, key, salt, hash, pieces.Count(), d, Min(SEGMENT, left), a, b, open, r)
    ensures SoFar(p, key, salt, hash, from, pieces, b) && !d.failed && d.bytes == []
  {
    assert a.consumed + d.bytes == a.consumed;
    SoFarAtEnd(p, key, salt, hash, from, pieces, a, b, d.Ended(Min(SEGMENT, left)));
  }

  lemma TurnGoesOn(p: Crypto, key: Bytes, salt: Bytes, hash: HashAlgorithm, from: Origin, pieces: Pieces,
                   left: nat, d: Delivery, a: Standing, b: Standing, open: bool, r: Result<Option<nat>>)
    requires AesKey(key) && SoFar(p, key, salt, hash, from, pieces, a) && r.Ok? && r.value.Some?
    requires |pieces.Joined()| == from.len - left && |d.bytes| <= Min(SEGMENT, left)
    requires pieces.Count() <= U32_LIMIT
    requires Turned(p, key, salt, hash, pieces.Count(), d, Min(SEGMENT, left), a, b, open, r)
    ensures SoFar(p, key, salt, hash, from, Then(pieces, d.bytes), b)
    ensures !d.failed && 0 < |d.bytes| == r.value.value
  {
    SoFarGoesOn(p, key, salt, hash, from, pieces, a, d.bytes, b, d.Ended(Min(SEGMENT, left)));
  }

  lemma HowItStops(s: ReaderState, left: nat, pieces: Pieces, from: Origin, d: Delivery, e: Error)
    requires Reading(s, left, pieces, from.all) && d == Delivered(s, Min(SEGMENT, left))
    requires pieces.Count() <= |pieces.Joined()| == from.len - left && pieces.Count() <= U32_LIMIT
    requires d.failed ==> e == Io(Failed)
    requires !d.failed ==> d.bytes != []
    requires !d.failed && pieces.Count() == U32_LIMIT ==> e == InvariantViolated(CounterOverflow)
    requires !d.failed && pieces.Count() < U32_LIMIT ==> e == Io(Failed) && !from.open
    ensures Stops(from.all, e, from.open) && (e.Io? || from.len > U32_LIMIT)
  {
    ReadingGoesOn(s, left, pieces, from.all, d);
    if !d.failed {
      SectionsGrow(d.after, left - |d.bytes|, Then(pieces, d.bytes), from.all);
    }
  }

  /** The reader is held to the length it was measured at. */
  method HeldToLength(reader: ByteStream, len: nat, read: nat) returns (r: Result<()>, ghost ended: bool)
    modifies reader, reader.journal`consumed, reader.journal`ends
    ensures r == HeldTo(old(reader.State()), len, read)
    ensures r.Ok? ==>
      && reader.journal.consumed == old(reader.journal.consumed)
      && EndsAt(old(reader.journal.ends), reader.journal.ends, |reader.journal.consumed|, ended)
  {
    ended := false;
    if read < len {
      return Err(Io(UnexpectedEof)), ended;
    }
    ended := Delivered(reader.State(), 1).Ended(1);
    var probe := new Byte[1];
    var more := ReadFull(reader, probe, 1);
    if more.Err? {
      return Err(more.error), ended;
    }
    if more.value != 0 {
      return Err(Io(InvalidData)), ended;
    }
    return Ok(()), ended;
  }

  // ----- the whole write path -----

  function BlobsOf(m: KeyMaterial, sealed: SealedBlobs): Blobs {
    Blobs(m.keyDataSalt, m.passwordSalt, sealed.hmacKey, sealed.hmacValue, m.verifierInput, m.verifierValue, m.keyValue)
  }

  datatype Encrypted = Encrypted(blobs: Blobs, package: Bytes)

  /** What is written around a set of key material for the pieces a package came in. */
  function WrittenWith(p: Crypto, q: Params, m: KeyMaterial, d: Draws, pieces: Pieces): (e: Encrypted)
    requires d.Sized(q) && q.Writable() && m.Fits(q, d)
    ensures e.blobs.Sized(q)
  {
    var package := PackageStream(p, q.hash, d.keyDataSalt, d.sessionKey, pieces, |pieces.Joined()|);
    var tag := DigestMac(p, q.hash, d.hmacKey, package);
    var sealed := SealTag(p, d.sessionKey, q.hash, d.keyDataSalt, AES_BLOCK, d.hmacKey, tag).value;
    Encrypted(BlobsOf(m, sealed), package)
  }

  /** And for a tuple, a password and a set of draws. */
  function EncryptedFrom(p: Crypto, q: Params, password: Bytes, d: Draws, pieces: Pieces): (e: Encrypted)
    requires q.Writable() && d.Sized(q)
    ensures e.blobs.Sized(q)
  {
    var m := Material(p, q, password, d.passwordSalt, d.verifierInput, d.sessionKey, d.keyDataSalt).value;
    WrittenWith(p, q, m, d, pieces)
  }

  /** And for a package read as it should be. */
  function Encrypt(p: Crypto, q: Params, password: Bytes, d: Draws, content: Bytes): (e: Encrypted)
    requires q.Writable() && d.Sized(q)
    ensures e.blobs.Sized(q) && |e.package| == 8 + RoundUp(|content|)
  {
    PayloadComesBack(p, q.hash, d.keyDataSalt, d.sessionKey, content);
    CutCoversContent(content);
    EncryptedFrom(p, q, password, d, Cut(content))
  }

  /** The two entries of a written container. */
  function EntriesOf(p: Crypto, q: Params, e: Encrypted): map<C.StreamName, Bytes> {
    map[C.InfoStream := Stream(Document(p, q, e.blobs)), C.PackageStream := e.package]
  }

  /**
   A stream fits the version 3 container exactly when its package is within the limit:
   the limit is the tightest there is.
   */
  lemma LimitIsTight(p: Crypto, q: Params, password: Bytes, d: Draws, content: Bytes)
    requires q.Writable() && d.Sized(q)
    ensures |Encrypt(p, q, password, d, content).package| <= CFB_V3_STREAM_MAX <==> |content| <= STREAMED_PACKAGE_MAX
  {
    LengthFits(|content|);
  }

  lemma LengthFits(n: nat)
    ensures 8 + RoundUp(n) <= CFB_V3_STREAM_MAX <==> n <= STREAMED_PACKAGE_MAX
    ensures STREAMED_PACKAGE_MAX == 0x8000_0000 - 16
  {
    assert CFB_V3_STREAM_MAX == 0x8000_0000;
    assert STREAMED_PACKAGE_MAX == 0x7FFF_FFF0;
  }

  method EncryptTo(p: Crypto, reader: ByteStream, container: C.Container, room: Option<nat>, password: Bytes,
                   q: Params, rng: RandomTape)
    returns (r: Result<()>, ghost d: Draws, ghost pieces: Pieces)
    requires container.streams == map[] && reader.journal.Valid()
    modifies reader, reader.journal, container, rng
    // A refusal of the tuple or the size comes before the first draw and the first byte.
    ensures !q.Writable() ==> r.Err? && r == Err(q.Validate().error)
    ensures q.Writable() && |old(reader.content)| > STREAMED_PACKAGE_MAX ==>
      r == Err(PackageTooLarge(|old(reader.content)|, STREAMED_PACKAGE_MAX))
    ensures !q.Writable() || |old(reader.content)| > STREAMED_PACKAGE_MAX ==>
      container.streams == map[] && rng.tape == old(rng.tape) && reader.journal.consumed == old(reader.journal.consumed)
    // No run of a valid tuple reaches a fault of the program's own.
    ensures q.Writable() && r.Err? ==> !r.error.Internal()
    ensures r.Ok? ==>
      && q.Writable() && d.Sized(q) && old(rng.tape) == d.Tape() + rng.tape
      && |pieces.Joined()| == |old(reader.content)| <= STREAMED_PACKAGE_MAX
    // Every successful run, whatever the reader did, writes the encryption of the pieces it
    // read, sealed under their own tag; and which pieces those are is decided by the reader.
    ensures r.Ok? ==>
      && PackageRead(old(reader.State()).Start(), |old(reader.content)|) == Ok(pieces)
      && reader.journal.consumed == old(reader.journal.consumed) + pieces.Joined()
      && container.streams == EntriesOf(p, q, EncryptedFrom(p, q, password, d, pieces))
    // They are a cut exactly when the reader reported no end inside one of them.
    ensures r.Ok? ==> CutUnlessEnded(reader.journal, pieces)
    // On a medium that does not fail, whether a run succeeds is decided before the call.
    ensures room.None? && old(container.operations).None? ==>
      (r.Ok? <==>
        && q.Writable() && |old(reader.content)| <= STREAMED_PACKAGE_MAX && DrawLength(q) <= |old(rng.tape)|
        && PackageRead(old(reader.State()).Start(), |old(reader.content)|).Ok?)
    // A steady reader is read to its content.
    ensures old(reader.Steady()) && room.None? && old(container.operations).None? ==>
      (r.Ok? <==> q.Writable() && |old(reader.content)| <= STREAMED_PACKAGE_MAX && DrawLength(q) <= |old(rng.tape)|)
    ensures old(reader.Steady()) && r.Ok? ==>
      container.streams == EntriesOf(p, q, Encrypt(p, q, password, d, old(reader.content)))
  {
    d, pieces := Draws([], [], [], [], []), Nothing;
    ghost var s := reader.State().Start();
    if s.Steady() {
      SteadyPackage(s, |s.content|);
    }
    var valid := q.Validate();
    if valid.Err? {
      return Err(valid.error), d, pieces;
    }
    var len := reader.SeekEnd();
    reader.SeekStart();
    if len > STREAMED_PACKAGE_MAX {
      return Err(PackageTooLarge(len, STREAMED_PACKAGE_MAX)), d, pieces;
    }
    var m, hmacKey, drawn := DrawKeys(p, password, q, rng);
    d := drawn;
    if m.Err? {
      return Err(m.error), d, pieces;
    }
    r, pieces := WriteEncrypted(p, reader, len, container, room, password, q, m.value, hmacKey, d);
    if s.Steady() && r.Ok? {
      ReadAsItShould(p, q, password, d, s.content);
    }
  }

  /** The container for a set of draws, and what every run of it leaves. */
  method WriteEncrypted(p: Crypto, reader: ByteStream, len: nat, container: C.Container, room: Option<nat>,
                        ghost password: Bytes, q: Params, m: KeyMaterial, hmacKey: Bytes, ghost d: Draws)
    returns (r: Result<()>, ghost pieces: Pieces)
    requires q.Writable() && d.Sized(q) && hmacKey == d.hmacKey && len <= STREAMED_PACKAGE_MAX
    requires Material(p, q, password, d.passwordSalt, d.verifierInput, d.sessionKey, d.keyDataSalt) == Ok(m)
    requires container.streams == map[] && reader.journal.Valid()
    modifies reader, reader.journal, container
    ensures r.Err? ==> r.error.Io?
    ensures r.Ok? ==>
      && PackageRead(old(reader.State()), len) == Ok(pieces)
      && reader.journal.consumed == old(reader.journal.consumed) + pieces.Joined()
      && CutUnlessEnded(reader.journal, pieces)
      && container.streams == EntriesOf(p, q, EncryptedFrom(p, q, password, d, pieces))
    ensures room.None? && old(container.operations).None? ==> (r.Ok? <==> PackageRead(old(reader.State()), len).Ok?)
  {
    r, pieces := WriteContainer(p, reader, len, container, room, q, m, hmacKey, d);
    if r.Ok? {
      FromMaterial(p, q, password, d, m, pieces);
    }
  }

  lemma FromMaterial(p: Crypto, q: Params, password: Bytes, d: Draws, m: KeyMaterial, pieces: Pieces)
    requires q.Writable() && d.Sized(q) && m.Fits(q, d)
    requires Material(p, q, password, d.passwordSalt, d.verifierInput, d.sessionKey, d.keyDataSalt) == Ok(m)
    ensures WrittenWith(p, q, m, d, pieces) == EncryptedFrom(p, q, password, d, pieces)
  {
  }

  lemma ReadAsItShould(p: Crypto, q: Params, password: Bytes, d: Draws, content: Bytes)
    requires q.Writable() && d.Sized(q)
    ensures EncryptedFrom(p, q, password, d, Cut(content)) == Encrypt(p, q, password, d, content)
  {
  }

  function DrawLength(q: Params): nat {
    2 * q.passwordSaltSize + q.keyDataKeyBits / 8 + q.keyDataSaltSize + q.hash.DigestLen()
  }

  /** Every draw of a run: the key material, then the HMAC key. */
  method DrawKeys(p: Crypto, password: Bytes, q: Params, rng: RandomTape)
    returns (r: Result<KeyMaterial>, hmacKey: Bytes, ghost d: Draws)
    requires q.Writable()
    modifies rng
    ensures r.Ok? <==> DrawLength(q) <= |old(rng.tape)|
    ensures r.Err? ==> r.error == Error.RandomSource
    ensures r.Ok? ==>
      && d.Sized(q) && old(rng.tape) == d.Tape() + rng.tape && hmacKey == d.hmacKey
      && r == Material(p, q, password, d.passwordSalt, d.verifierInput, d.sessionKey, d.keyDataSalt)
  {
    hmacKey := [];
    r, d := Generate(p, password, q, rng);
    if r.Err? {
      return;
    }
    ghost var used := d.passwordSalt + d.verifierInput + d.sessionKey + d.keyDataSalt;
    var key := rng.Fill(q.hash.DigestLen());
    if key.Err? {
      r := Err(key.error);
      return;
    }
    Regroup(used, key.value, rng.tape);
    hmacKey := key.value;
    d := d.(hmacKey := key.value);
  }

  /** The document for the material around a pair of integrity blobs. */
  method WriteInfo(p: Crypto, q: Params, m: KeyMaterial, sealed: SealedBlobs) returns (info: Bytes)
    requires q.Writable() && BlobsOf(m, sealed).Sized(q)
    ensures info == Stream(Document(p, q, BlobsOf(m, sealed)))
  {
    var written := Write(p, q, BlobsOf(m, sealed));
    info := Stream(written.value);
  }

  /** `write_container`: placeholder, package, and the document patched over the placeholder. */
  method WriteContainer(p: Crypto, reader: ByteStream, len: nat, container: C.Container, room: Option<nat>, q: Params,
                        m: KeyMaterial, hmacKey: Bytes, ghost d: Draws)
    returns (r: Result<()>, ghost pieces: Pieces)
    requires q.Writable() && d.Sized(q) && hmacKey == d.hmacKey && len <= STREAMED_PACKAGE_MAX && m.Fits(q, d)
    requires container.streams == map[] && reader.journal.Valid()
    modifies reader, reader.journal, container
    ensures r.Err? ==> r.error.Io?
    ensures r.Ok? ==>
      && PackageRead(old(reader.State()), len) == Ok(pieces)
      && reader.journal.consumed == old(reader.journal.consumed) + pieces.Joined()
      && CutUnlessEnded(reader.journal, pieces)
      && container.streams == EntriesOf(p, q, WrittenWith(p, q, m, d, pieces))
    ensures room.None? && old(container.operations).None? ==> (r.Ok? <==> PackageRead(old(reader.State()), len).Ok?)
  {
    pieces := Nothing;
    var blobLen := RoundUp(q.hash.DigestLen());
    var unknown := SealedBlobs(Zeros(blobLen), Zeros(blobLen));
    var placeholder := WriteInfo(p, q, m, unknown);
    var created :- container.CreateNew(C.InfoStream, placeholder);
    var sealed;
    sealed, pieces := SealPackage(p, reader, len, container, room, q, m, hmacKey, d);
    if sealed.Err? {
      return Err(sealed.error), pieces;
    }
    r := PatchDocument(p, q, m, container, unknown, sealed.value);
    ghost var e := WrittenWith(p, q, m, d, pieces);
    EntriesInOrder(placeholder, Stream(Document(p, q, e.blobs)), e.package);
  }

  lemma EntriesInOrder(placeholder: Bytes, info: Bytes, package: Bytes)
    ensures
      var empty: map<C.StreamName, Bytes> := map[];
      empty[C.InfoStream := placeholder][C.PackageStream := package][C.InfoStream := info]
        == map[C.InfoStream := info, C.PackageStream := package]
  {
  }

  /** The finished document over its placeholder: the two are equally long whatever the blobs. */
  method PatchDocument(p: Crypto, q: Params, m: KeyMaterial, container: C.Container, unknown: SealedBlobs,
                       sealed: SealedBlobs)
    returns (r: Result<()>)
    requires q.Writable() && BlobsOf(m, unknown).Sized(q) && BlobsOf(m, sealed).Sized(q)
    requires C.InfoStream in container.streams
    requires container.streams[C.InfoStream] == Stream(Document(p, q, BlobsOf(m, unknown)))
    modifies container
    ensures r.Ok? ==>
      container.streams == old(container.streams)[C.InfoStream := Stream(Document(p, q, BlobsOf(m, sealed)))]
    ensures r.Err? ==> r.error == Io(Failed)
    ensures old(container.operations).None? ==> r.Ok?
  {
    var info := WriteInfo(p, q, m, sealed);
    LengthFollowsTheTuple(p, q, BlobsOf(m, unknown), BlobsOf(m, sealed));
    r := container.PatchInfo(info, container.streams[C.InfoStream]);
  }

  /** The package stream into the container, and the tag over it into its two blobs. */
  method SealPackage(p: Crypto, reader: ByteStream, len: nat, container: C.Container, room: Option<nat>, q: Params,
                     m: KeyMaterial, hmacKey: Bytes, ghost d: Draws)
    returns (r: Result<SealedBlobs>, ghost pieces: Pieces)
    requires q.Writable() && d.Sized(q) && hmacKey == d.hmacKey && len < U32_LIMIT
    requires m.Fits(q, d)
    requires C.PackageStream !in container.streams && reader.journal.Valid()
    modifies reader, reader.journal, container
    ensures r.Err? ==> r.error.Io?
    ensures r.Ok? ==>
      && PackageRead(old(reader.State()), len) == Ok(pieces)
      && reader.journal.consumed == old(reader.journal.consumed) + pieces.Joined()
      && CutUnlessEnded(reader.journal, pieces)
      && var e := WrittenWith(p, q, m, d, pieces);
      && container.streams == old(container.streams)[C.PackageStream := e.package] && BlobsOf(m, r.value) == e.blobs
    ensures room.None? && old(container.operations).None? ==>
      container.operations.None? && (r.Ok? <==> PackageRead(old(reader.State()), len).Ok?)
  {
    var sink := new Sink(reader.journal, room);
    var mac := new HmacState(q.hash, hmacKey);
    var sent;
    sent, pieces := EncryptPackageTo(p, reader, len, sink, m.sessionKey, m.keyDataSalt, q.hash, mac);
    var created := container.CreateNew(C.PackageStream, sink.contents);
    if sent.Err? {
      return Err(sent.error), pieces;
    }
    if created.Err? {
      return Err(created.error), pieces;
    }
    assert sink.contents == mac.fed == PackageStream(p, q.hash, d.keyDataSalt, d.sessionKey, pieces, len);
    r := Seal(p, m.sessionKey, q.hash, m.keyDataSalt, AES_BLOCK, hmacKey, mac);
  }
}
