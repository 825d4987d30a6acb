/** The 4096-byte cut of a payload, and the segmenter that makes it as it reads: `segments.rs`. */
module Segments {
  import opened Errors
  import opened Octets
  import opened Crypto
  import opened Streams

  const SEGMENT: nat := 4096

  /** Where the last segment of a nonempty payload starts. */
  function LastStart(n: nat): (start: nat)
    requires n > 0
    ensures start < n <= start + 4096 && start % 4096 == 0
  {
    n - 1 - (n - 1) % 4096
  }

  /** The cut: full segments, and last what is left over, if anything is. */
  function Cut(content: Bytes): (pieces: Pieces)
    decreases |content|
  {
    if content == [] then Nothing
    else
      var last := LastStart(|content|);
      Then(Cut(content[..last]), content[last..])
  }

  /** A segment added to a payload of full ones is added to its cut. */
  lemma CutMore(content: Bytes, piece: Bytes)
    requires |content| % 4096 == 0 && 0 < |piece| <= 4096
    ensures Cut(content + piece) == Then(Cut(content), piece)
  {
    LastStartIs(|content|, |piece|);
    Ends(content, piece);
    CutOnce(content + piece, |content|, content, piece);
  }

  lemma CutOnce(all: Bytes, last: nat, head: Bytes, tail: Bytes)
    requires all != [] && last == LastStart(|all|) && all[..last] == head && all[last..] == tail
    ensures Cut(all) == Then(Cut(head), tail)
  {
  }

  lemma LastStartIs(a: nat, b: nat)
    requires a % 4096 == 0 && 0 < b <= 4096
    ensures LastStart(a + b) == a
  {
  }

  /** Where the cut falls, for every payload and every segment of it. */
  lemma {:induction false} CutAt(content: Bytes, i: nat)
    ensures Cut(content).Count() == (|content| + 4095) / 4096
    ensures i < Cut(content).Count() ==>
      4096 * i < |content| && Cut(content).At(i) == content[4096 * i..Min(4096 * (i + 1), |content|)]
    decreases |content|
  {
    if content != [] {
      var last := LastStart(|content|);
      OneSegmentMore(|content|);
      CutAt(content[..last], i);
      assert |content[..last]| == last && Cut(content) == Then(Cut(content[..last]), content[last..]);
    }
  }

  lemma OneSegmentMore(n: nat)
    requires n > 0
    ensures
      var m := (n - 1) / 4096;
      LastStart(n) == 4096 * m && (LastStart(n) + 4095) / 4096 == m && (n + 4095) / 4096 == m + 1
  {
    var m, r := (n - 1) / 4096, (n - 1) % 4096;
    assert n == 4096 * m + r + 1;
  }

  lemma {:induction false} CutCoversContent(content: Bytes)
    ensures Cut(content).Joined() == content
    decreases |content|
  {
    if content != [] {
      CutCoversContent(content[..LastStart(|content|)]);
    }
  }

  /** What follows the prefix needs no more segments than the whole stream. */
  lemma BodyNeedsNoMore(stream: Bytes)
    requires |stream| >= 8
    ensures Cut(stream[8..]).Count() <= Cut(stream).Count()
  {
    CutAt(stream, 0);
    CutAt(stream[8..], 0);
  }

  predicate AllFull(pieces: Pieces) {
    match pieces
    case Nothing => true
    case Then(before, last) => |last| == SEGMENT && AllFull(before)
  }

  /** Full segments and then one that may be short: what makes pieces a cut. */
  predicate IsCut(pieces: Pieces) {
    match pieces
    case Nothing => true
    case Then(before, last) => 0 < |last| <= SEGMENT && AllFull(before)
  }

  /** Pieces as a reader gives them: none empty, none longer than a segment. */
  predicate Division(pieces: Pieces) {
    match pieces
    case Nothing => true
    case Then(before, last) => 0 < |last| <= SEGMENT && Division(before)
  }

  lemma {:induction false} FullLength(pieces: Pieces)
    requires AllFull(pieces)
    ensures |pieces.Joined()| == 4096 * pieces.Count()
  {
    if pieces.Then? {
      FullLength(pieces.before);
    }
  }

  /** Pieces that look like a cut are the cut of what they hold. */
  lemma {:induction false} OnlyOneCut(pieces: Pieces)
    requires IsCut(pieces)
    ensures pieces == Cut(pieces.Joined())
  {
    if pieces.Then? {
      OnlyOneCut(pieces.before);
      FullLength(pieces.before);
      CutMore(pieces.before.Joined(), pieces.last);
    }
  }

  lemma {:induction false} CutIsCut(content: Bytes)
    ensures IsCut(Cut(content)) && (|content| % 4096 == 0 ==> AllFull(Cut(content)))
    decreases |content|
  {
    if content != [] {
      CutIsCut(content[..LastStart(|content|)]);
    }
  }

  // ----- what a reader gives, segment by segment -----

  /** The segments read, up to the reader's end or a failure. */
  datatype Sections = Sections(pieces: Pieces, failed: bool, after: ReaderState)

  /** At most `len` more bytes of a reader, a segment at a time, behind the pieces there are. */
  function SectionsOf(s: ReaderState, len: nat, pieces: Pieces): (r: Sections)
    decreases len
  {
    var d := Delivered(s, Min(SEGMENT, len));
    if d.failed || d.bytes == [] then Sections(pieces, d.failed, d.after)
    else SectionsOf(d.after, len - |d.bytes|, Then(pieces, d.bytes))
  }

  /** What is still to be read, behind the pieces there are, makes up the sections. */
  ghost predicate Reading(s: ReaderState, len: nat, pieces: Pieces, all: Sections) {
    SectionsOf(s, len, pieces) == all
  }

  lemma ReadingGoesOn(s: ReaderState, len: nat, pieces: Pieces, all: Sections, d: Delivery)
    requires Reading(s, len, pieces, all) && d == Delivered(s, Min(SEGMENT, len))
    ensures d.failed || d.bytes == [] ==> all == Sections(pieces, d.failed, d.after)
    ensures !d.failed && d.bytes != [] ==> Reading(d.after, len - |d.bytes|, Then(pieces, d.bytes), all)
  {
  }

  lemma ReadOneMore(s: ReaderState, left: nat, pieces: Pieces, all: Sections, d: Delivery, rest: nat)
    returns (more: Pieces)
    requires Reading(s, left, pieces, all) && d == Delivered(s, Min(SEGMENT, left)) && !d.failed && d.bytes != []
    requires rest == left - |d.bytes|
    ensures more == Then(pieces, d.bytes) && Reading(d.after, rest, more, all)
  {
    ReadingGoesOn(s, left, pieces, all, d);
    more := Then(pieces, d.bytes);
  }

  lemma {:induction false} SectionsGrow(s: ReaderState, len: nat, pieces: Pieces, all: Sections)
    requires Reading(s, len, pieces, all)
    ensures pieces.Count() <= all.pieces.Count() && (Division(pieces) ==> Division(all.pieces))
    ensures |all.pieces.Joined()| <= |pieces.Joined()| + len
    decreases len
  {
    var d := Delivered(s, Min(SEGMENT, len));
    if d.failed || d.bytes == [] {
      ReadingGoesOn(s, len, pieces, all, d);
    } else {
      var rest := len - |d.bytes|;
      var more := ReadOneMore(s, len, pieces, all, d, rest);
      OneGrows(pieces, d.bytes, more);
      SectionsGrow(d.after, rest, more, all);
    }
  }

  lemma OneGrows(pieces: Pieces, last: Bytes, more: Pieces)
    requires more == Then(pieces, last) && 0 < |last| <= SEGMENT
    ensures more.Count() == pieces.Count() + 1 && |more.Joined()| == |pieces.Joined()| + |last|
    ensures Division(pieces) ==> Division(more)
  {
  }

  /** Pieces of a content, and what is left of it, when a cut can go on. */
  ghost predicate CutSoFar(content: Bytes, pieces: Pieces, rest: Bytes, left: nat) {
    IsCut(pieces) && content == pieces.Joined() + rest && (AllFull(pieces) || left == 0 || rest == [])
  }

  lemma CutSoFarGoesOn(content: Bytes, pieces: Pieces, piece: Bytes, rest: Bytes, left: nat, more: Pieces, next: nat)
    requires CutSoFar(content, pieces, piece + rest, left) && 0 < |piece| <= Min(4096, left)
    requires |piece| < Min(4096, left) ==> rest == []
    requires more == Then(pieces, piece) && next == left - |piece|
    ensures CutSoFar(content, more, rest, next)
  {
    Regroup(pieces.Joined(), piece, rest);
  }

  /** All that was asked for has been read, or all there is. */
  ghost predicate CutAndDone(content: Bytes, all: Sections, len: nat) {
    var read := all.pieces.Joined();
    IsCut(all.pieces) && content == read + all.after.Rest() && (|read| == len || all.after.Rest() == [])
  }

  lemma CutEnds(content: Bytes, all: Sections, rest: Bytes, d: Delivery, cap: nat, left: nat, total: nat)
    requires CutSoFar(content, all.pieces, rest, left) && rest == d.bytes + d.after.Rest() && d.bytes == []
    requires all.after == d.after && cap == Min(SEGMENT, left) && (d.Ended(cap) ==> d.after.Rest() == []) && !d.failed
    requires total == |all.pieces.Joined()| + left
    ensures CutAndDone(content, all, total)
  {
    assert rest == d.after.Rest();
  }

  /** A content that stays what it is is read in the segments of its cut, unless a call fails. */
  lemma {:induction false} UnchangingIsCut(s: ReaderState, len: nat, pieces: Pieces, all: Sections, content: Bytes,
                                           total: nat)
    requires s.Unchanging() && CutSoFar(content, pieces, s.Rest(), len) && Reading(s, len, pieces, all)
    requires total == |pieces.Joined()| + len
    ensures IsCut(all.pieces) && (s.Steady() ==> !all.failed && all.after.Steady())
    ensures !all.failed ==> CutAndDone(content, all, total)
    decreases len
  {
    var cap := Min(SEGMENT, len);
    var d := Delivered(s, cap);
    UnchangingDelivers(s, cap, d);
    ReadingGoesOn(s, len, pieces, all, d);
    if !d.failed && d.bytes == [] {
      CutEnds(content, all, s.Rest(), d, cap, len, total);
    } else if !d.failed {
      var left := len - |d.bytes|;
      var more := ReadOneMore(s, len, pieces, all, d, left);
      CutSoFarGoesOn(content, pieces, d.bytes, d.after.Rest(), len, more, left);
      UnchangingIsCut(d.after, left, more, all, content, total);
    }
  }

  /** Of a steady content, as much as may be is read, in the segments of its cut. */
  lemma SteadyIsCut(s: ReaderState, len: nat)
    requires s.Steady()
    ensures
      var all := SectionsOf(s, len, Nothing);
      && !all.failed && all.after.Steady() && all.pieces == Cut(Take(s.Rest(), len))
      && s.Rest() == all.pieces.Joined() + all.after.Rest()
  {
    var all, rest := SectionsOf(s, len, Nothing), s.Rest();
    assert [] + rest == rest;
    UnchangingIsCut(s, len, Nothing, all, rest, len);
    SectionsGrow(s, len, Nothing, all);
    assert Take(rest, len) == all.pieces.Joined();
    OnlyOneCut(all.pieces);
  }

  // ----- which divisions are cuts, by the ends the reader reported -----

  /** The reader reported its end off a segment's boundary, and went on. */
  ghost predicate EndedInside(ends: set<nat>, start: nat, end: nat) {
    exists e :: e in ends && start < e < end && (e - start) % 4096 != 0
  }

  /**
   The pieces read from `start` to `end`, by the ends reported so far: they are a cut
   exactly when none was reported inside them, and a short last piece is at an end or at
   the limit.
   */
  ghost predicate CutByEnds(ends: set<nat>, start: nat, end: nat, pieces: Pieces, total: nat) {
    && end == start + |pieces.Joined()| <= start + total
    && Division(pieces) && (forall e :: e in ends ==> e <= end)
    && (IsCut(pieces) <==> !EndedInside(ends, start, end))
    && (IsCut(pieces) ==> AllFull(pieces) || end == start + total || end in ends)
  }

  lemma CutGoesOn(ends: set<nat>, more: set<nat>, start: nat, end: nat, pieces: Pieces, total: nat, piece: Bytes,
                  now: nat, ended: bool)
    requires CutByEnds(ends, start, end, pieces, total) && EndsAt(ends, more, now, ended) && now == end + |piece|
    requires 0 < |piece| <= Min(4096, start + total - end)
    requires |piece| < Min(4096, start + total - end) ==> ended
    ensures CutByEnds(more, start, now, Then(pieces, piece), total)
  {
    var n := end - start;
    if IsCut(pieces) && AllFull(pieces) {
      FullLength(pieces);
      NoEndInside(ends, more, start, n, n + |piece|);
    } else if IsCut(pieces) {
      FullLength(pieces.before);
      ShortIsOff(pieces.before.Count(), |pieces.last|);
      EndIsInside(more, start, end, now);
    } else {
      var e :| e in ends && start < e < end && (e - start) % 4096 != 0;
      EndIsInside(more, start, e, now);
    }
  }

  lemma NoEndInside(ends: set<nat>, more: set<nat>, start: nat, n: nat, m: nat)
    requires n % 4096 == 0 && n < m && ends <= more <= ends + {start + m} && !EndedInside(ends, start, start + n)
    requires forall e :: e in ends ==> e <= start + n
    ensures !EndedInside(more, start, start + m)
  {
    forall e | e in more && start < e < start + m
      ensures (e - start) % 4096 == 0
    {
      assert e in ends;
    }
  }

  lemma EndIsInside(ends: set<nat>, start: nat, e: nat, end: nat)
    requires e in ends && start < e < end && (e - start) % 4096 != 0
    ensures EndedInside(ends, start, end)
  {
  }

  lemma ShortIsOff(count: nat, n: nat)
    requires 0 < n < 4096
    ensures (4096 * count + n) % 4096 != 0
  {
  }

  /** An end reported after the last piece is not inside them. */
  lemma EndAfterPieces(ends: set<nat>, more: set<nat>, start: nat, end: nat, pieces: Pieces, total: nat, ended: bool)
    requires CutByEnds(ends, start, end, pieces, total) && EndsAt(ends, more, end, ended)
    ensures CutByEnds(more, start, end, pieces, total)
  {
    if EndedInside(ends, start, end) {
      var e :| e in ends && start < e < end && (e - start) % 4096 != 0;
      EndIsInside(more, start, e, end);
    }
  }

  /** The pieces read last are a cut exactly when the reader reported no end inside one of them. */
  ghost predicate CutUnlessEnded(journal: Journal, pieces: Pieces)
    reads journal
  {
    var end, n := |journal.consumed|, |pieces.Joined()|;
    n <= end && Division(pieces) && (IsCut(pieces) <==> !EndedInside(journal.ends, end - n, end))
  }

  lemma CutIsUnlessEnded(journal: Journal, start: nat, pieces: Pieces, total: nat)
    requires CutByEnds(journal.ends, start, |journal.consumed|, pieces, total)
    ensures CutUnlessEnded(journal, pieces)
  {
    assert start == |journal.consumed| - |pieces.Joined()|;
  }

  // ----- a segment loop between two segments -----

  /** Where the writer, the HMAC and the journal stand. */
  datatype Standing =
    Standing(out: Bytes, fed: Bytes, consumed: Bytes, ends: set<nat>, firstOut: Option<nat>)

  ghost function Stands(sink: Sink, mac: HmacState): Standing
    reads sink, mac, sink.journal
  {
    Standing(sink.contents, mac.fed, sink.journal.consumed, sink.journal.ends, sink.journal.firstOut)
  }

  /** How a loop that is to read `all` ends in an error; a writer with room has no part in it. */
  ghost predicate Stops(all: Sections, e: Error, open: bool) {
    || (e == Io(Failed) && (open ==> all.failed && all.pieces.Count() <= U32_LIMIT))
    || (e == InvariantViolated(CounterOverflow) && all.pieces.Count() > U32_LIMIT)
  }

  /** The IV of a segment: the salt and the little-endian index, hashed and cut. */
  function SegmentIv(p: Crypto, hash: HashAlgorithm, salt: Bytes, index: nat): (iv: Bytes)
    ensures |iv| == AES_BLOCK
  {
    Iv(p, hash, salt, Le32(index))
  }

  /** One segment as it lies in the caller's slot. */
  datatype Filled = Filled(len: nat, paddedLen: nat, iv: Bytes)

  method ZeroTail(slot: array<Byte>, from: nat, to: nat)
    requires from <= to <= slot.Length && to == RoundUp(from)
    modifies slot
    ensures slot[..from] == old(slot[..from])
    ensures slot[..to] == Pad(old(slot[..from]))
    ensures forall i :: to <= i < slot.Length ==> slot[i] == old(slot[i])
  {
    forall i | from <= i < to {
      slot[i] := 0;
    }
  }

  class Segmenter {
    const salt: Bytes
    const hash: HashAlgorithm
    const blockSize: nat
    var nextIndex: Option<nat>

    constructor (hash: HashAlgorithm, salt: Bytes, blockSize: nat)
      requires blockSize <= hash.DigestLen()
      ensures this.salt == salt && this.hash == hash && this.blockSize == blockSize
      ensures nextIndex == Some(0)
    {
      this.salt, this.hash, this.blockSize, nextIndex := salt, hash, blockSize, Some(0);
    }

    /** Segments cut so far, read off the counter: `None` is one past the last index. */
    function Used(): nat
      reads this
    {
      match nextIndex
      case Some(i) => i
      case None => U32_LIMIT
    }

    ghost predicate Valid()
      reads this
    {
      blockSize <= hash.DigestLen() && (nextIndex.Some? ==> nextIndex.value < U32_LIMIT)
    }

    /**
     The next segment of `reader`, of which at most `limit` bytes may be taken. The slot
     is zero from the segment's end to the block boundary whatever it held before, the
     index is the one after the last, and past the last index there is only a refusal.
     */
    method Fill(p: Crypto, reader: ByteStream, limit: nat, slot: array<Byte>) returns (r: Result<Option<Filled>>)
      requires Valid() && slot.Length == SEGMENT
      modifies this, slot
      modifies reader`content, reader`pos, reader`turns, reader.journal`consumed, reader.journal`ends
      ensures
        var d, cap := Delivered(old(reader.State()), Min(SEGMENT, limit)), Min(SEGMENT, limit);
        && Valid() && reader.State() == d.after && reader.journal.consumed == old(reader.journal.consumed) + d.bytes
        && EndsAt(old(reader.journal.ends), reader.journal.ends, |reader.journal.consumed|, d.Ended(cap))
        && (d.failed ==> r == Err(Io(Failed)))
        && (!d.failed && d.bytes == [] ==> r == Ok(None))
        && (!d.failed && d.bytes != [] ==>
          if old(Used()) == U32_LIMIT then r == Err(InvariantViolated(CounterOverflow))
          else r.Ok? && r.value.Some? && r.value.value.len == |d.bytes|)
      ensures Used() == old(Used()) + if r.Ok? && r.value.Some? then 1 else 0
      ensures r.Ok? && r.value.Some? ==>
        var f := r.value.value;
        && 0 < f.len <= Min(SEGMENT, limit) && f.paddedLen == RoundUp(f.len) <= SEGMENT
        && slot[..f.len] == Delivered(old(reader.State()), Min(SEGMENT, limit)).bytes
        && slot[..f.paddedLen] == Pad(slot[..f.len])
        && (forall i :: f.paddedLen <= i < SEGMENT ==> slot[i] == old(slot[i]))
        && old(Used()) < U32_LIMIT && f.iv == DigestTwo(p, hash, salt, Le32(old(Used())))[..blockSize]
    {
      var filled := ReadFull(reader, slot, Min(SEGMENT, limit));
      if filled.Err? {
        return Err(filled.error);
      }
      var len := filled.value;
      if len == 0 {
        return Ok(None);
      }
      if nextIndex.None? {
        return Err(InvariantViolated(CounterOverflow));
      }
      var index := nextIndex.value;
      nextIndex := if index + 1 < U32_LIMIT then Some(index + 1) else None;
      var paddedLen := RoundUp(len);
      ZeroTail(slot, len, paddedLen);
      var iv := DeriveIv(p, hash, salt, Le32(index), blockSize);
      // `new` has checked the block size against the digest, so there is an IV.
      return Ok(Some(Filled(len, paddedLen, iv.value)));
    }
  }

  /** `Segmenter::new`. */
  method NewSegmenter(hash: HashAlgorithm, salt: Bytes, blockSize: nat) returns (s: Segmenter?, r: Result<()>)
    ensures r.Ok? <==> blockSize <= hash.DigestLen()
    ensures r.Err? ==> r == Err(InvariantViolated(BlockSizeOverDigest))
    ensures r.Ok? ==> s != null && fresh(s) && s.Valid() && s.Used() == 0
    ensures r.Ok? ==> s.hash == hash && s.salt == salt && s.blockSize == blockSize
  {
    if blockSize > hash.DigestLen() {
      return null, Err(InvariantViolated(BlockSizeOverDigest));
    }
    s := new Segmenter(hash, salt, blockSize);
    r := Ok(());
  }

  // ----- a whole payload, segment by segment -----

  /** A piece padded and encrypted under its own index. */
  function EncryptPiece(p: Crypto, hash: HashAlgorithm, salt: Bytes, key: Bytes, piece: Bytes, index: nat)
    : (cipher: Bytes)
    requires AesKey(key)
    ensures |cipher| == RoundUp(|piece|)
  {
    assert p.CipherLaws() && AesReady(key, SegmentIv(p, hash, salt, index), Pad(piece));
    p.encrypt(key, SegmentIv(p, hash, salt, index), Pad(piece))
  }

  /** A stored piece padded, decrypted under its own index, and cut back to its length. */
  function DecryptPiece(p: Crypto, hash: HashAlgorithm, salt: Bytes, key: Bytes, piece: Bytes, index: nat)
    : (plain: Bytes)
    requires AesKey(key)
    ensures |plain| == |piece|
  {
    assert p.CipherLaws() && AesReady(key, SegmentIv(p, hash, salt, index), Pad(piece));
    p.decrypt(key, SegmentIv(p, hash, salt, index), Pad(piece))[..|piece|]
  }

  lemma PieceComesBack(p: Crypto, hash: HashAlgorithm, salt: Bytes, key: Bytes, piece: Bytes, index: nat)
    requires AesKey(key)
    ensures DecryptPiece(p, hash, salt, key, EncryptPiece(p, hash, salt, key, piece, index), index) == Pad(piece)
  {
    assert p.CipherLaws() && AesReady(key, SegmentIv(p, hash, salt, index), Pad(piece));
    var cipher := EncryptPiece(p, hash, salt, key, piece, index);
    assert Pad(cipher) == cipher;
    assert Pad(piece)[..|cipher|] == Pad(piece);
  }

  /** The pieces of a payload, each under the index of its place. */
  function EncryptPieces(p: Crypto, hash: HashAlgorithm, salt: Bytes, key: Bytes, pieces: Pieces): Bytes
    requires AesKey(key)
    decreases pieces
  {
    match pieces
    case Nothing => []
    case Then(before, last) =>
      EncryptPieces(p, hash, salt, key, before) + EncryptPiece(p, hash, salt, key, last, before.Count())
  }

  function DecryptPieces(p: Crypto, hash: HashAlgorithm, salt: Bytes, key: Bytes, pieces: Pieces): (plain: Bytes)
    requires AesKey(key)
    ensures |plain| == |pieces.Joined()|
    decreases pieces
  {
    match pieces
    case Nothing => []
    case Then(before, last) =>
      DecryptPieces(p, hash, salt, key, before) + DecryptPiece(p, hash, salt, key, last, before.Count())
  }

  lemma PadJoin(head: Bytes, tail: Bytes)
    requires |head| % 16 == 0
    ensures Pad(head + tail) == head + Pad(tail)
  {
    RoundUpAdds(|head|, |tail|);
  }

  /** A payload of full segments and one more: the ciphertext is cut where the payload was. */
  lemma OneMoreComesBack(p: Crypto, hash: HashAlgorithm, salt: Bytes, key: Bytes, head: Bytes, piece: Bytes)
    requires AesKey(key) && |head| % 4096 == 0 && 0 < |piece| <= 4096
    requires
      var before := EncryptPieces(p, hash, salt, key, Cut(head));
      && |before| == |head| && Cut(before).Count() == Cut(head).Count()
      && DecryptPieces(p, hash, salt, key, Cut(before)) == head
    ensures
      var cipher := EncryptPieces(p, hash, salt, key, Cut(head + piece));
      && |cipher| == |head| + RoundUp(|piece|)
      && DecryptPieces(p, hash, salt, key, Cut(cipher)) == head + Pad(piece)
  {
    var before := EncryptPieces(p, hash, salt, key, Cut(head));
    var more := EncryptPiece(p, hash, salt, key, piece, Cut(head).Count());
    CutMore(head, piece);
    assert EncryptPieces(p, hash, salt, key, Then(Cut(head), piece)) == before + more;
    CutMore(before, more);
    PieceComesBack(p, hash, salt, key, piece, Cut(head).Count());
    assert DecryptPieces(p, hash, salt, key, Then(Cut(before), more)) == head + Pad(piece);
  }

  /** What the lemma below says of one payload. */
  ghost predicate ComesBack(p: Crypto, hash: HashAlgorithm, salt: Bytes, key: Bytes, content: Bytes)
    requires AesKey(key)
  {
    var cipher := EncryptPieces(p, hash, salt, key, Cut(content));
    && |cipher| == RoundUp(|content|)
    && DecryptPieces(p, hash, salt, key, Cut(cipher)) == Pad(content)
  }

  lemma FullIsBlocks(n: nat)
    requires n % 4096 == 0
    ensures n % 16 == 0 && RoundUp(n) == n
  {
    assert n == 16 * (256 * (n / 4096));
  }

  lemma LastComesBack(p: Crypto, hash: HashAlgorithm, salt: Bytes, key: Bytes, head: Bytes, piece: Bytes)
    requires AesKey(key) && |head| % 4096 == 0 && 0 < |piece| <= 4096 && ComesBack(p, hash, salt, key, head)
    ensures ComesBack(p, hash, salt, key, head + piece)
  {
    FullIsBlocks(|head|);
    assert Pad(head) == head;
    CutAt(head, 0);
    CutAt(EncryptPieces(p, hash, salt, key, Cut(head)), 0);
    OneMoreComesBack(p, hash, salt, key, head, piece);
    PadJoin(head, piece);
    RoundUpAdds(|head|, |piece|);
  }

  /** Cutting the ciphertext finds the segments again, and they decrypt to the padded payload. */
  lemma {:induction false} PayloadComesBack(p: Crypto, hash: HashAlgorithm, salt: Bytes, key: Bytes, content: Bytes)
    requires AesKey(key)
    ensures ComesBack(p, hash, salt, key, content)
    decreases |content|
  {
    if content != [] {
      var last := LastStart(|content|);
      var head, piece := content[..last], content[last..];
      assert content == head + piece;
      PayloadComesBack(p, hash, salt, key, head);
      LastComesBack(p, hash, salt, key, head, piece);
    }
  }
}
