/**
 Readers for every division: the runs behind the property that only a cut comes back. A
 reader that reports its end where a short piece stops, and then goes on, has its content
 encrypted, or a stored package released, in whatever pieces are wanted.
 */
module ReaderRuns {
  import opened Errors
  import opened Octets
  import opened Crypto
  import opened EncryptParams
  import opened EncryptionInfo
  import opened Streams
  import opened Segments
  import opened Integrity
  import opened Agile
  import opened AgileEncrypt
  import opened WriterReader
  import opened EndedReader
  import AgileParser
  import EndToEnd

  // ----- a reader for a division -----

  /** One piece up to `end`, the content ending there meanwhile, and the end reported if there is room for more. */
  function Block(content: Bytes, end: nat, size: nat, cap: nat): seq<Turn> {
    [Change(Take(content, end)), Short(size)] + if size < cap then [Short(1)] else []
  }

  /** How much of a segment is asked for behind `n` of `len` bytes. */
  function Asked(len: nat, n: nat): nat {
    if n <= len then Min(SEGMENT, len - n) else 0
  }

  /** What a reader's calls meet for its `len` bytes from `start` on to come in these pieces. */
  function TurnsFor(content: Bytes, start: nat, pieces: Pieces, len: nat): seq<Turn> {
    match pieces
    case Nothing => []
    case Then(before, last) =>
      var n := |before.Joined()|;
      TurnsFor(content, start, before, len) + Block(content, start + n + |last|, |last|, Asked(len, n))
  }

  /** The reader behind these pieces. */
  function BehindPieces(content: Bytes, start: nat, pieces: Pieces, turns: seq<Turn>): ReaderState {
    var end := start + |pieces.Joined()|;
    ReaderState(if pieces.Nothing? then content else Take(content, end), end, turns)
  }

  lemma BlockDelivers(s: ReaderState, content: Bytes, piece: Bytes, cap: nat, tail: seq<Turn>)
    requires 0 < |piece| <= cap && s.pos + |piece| <= |content| && content[s.pos..s.pos + |piece|] == piece
    requires s.turns == Block(content, s.pos + |piece|, |piece|, cap) + tail
    ensures
      var end := s.pos + |piece|;
      Delivered(s, cap) == Delivery(piece, false, ReaderState(Take(content, end), end, tail))
  {
    var end := s.pos + |piece|;
    var given := ReaderState(Take(content, end), end, s.turns[2..]);
    BlockServes(s, content, piece, cap, tail);
    DeliveredMore(s, cap, Delivered(s, cap), Gave(piece, given), cap - |piece|);
    if |piece| < cap {
      assert s.turns[2..] == [Short(1)] + tail;
      EndDelivers(given, cap - |piece|, tail);
    } else {
      assert s.turns[2..] == tail;
    }
    assert piece + [] == piece;
  }

  lemma BlockServes(s: ReaderState, content: Bytes, piece: Bytes, cap: nat, tail: seq<Turn>)
    requires 0 < |piece| <= cap && s.pos + |piece| <= |content| && content[s.pos..s.pos + |piece|] == piece
    requires s.turns == Block(content, s.pos + |piece|, |piece|, cap) + tail
    ensures
      var end := s.pos + |piece|;
      Served(s, cap) == Gave(piece, ReaderState(Take(content, end), end, s.turns[2..]))
    ensures ReaderState(Take(content, s.pos + |piece|), s.pos + |piece|, []).Rest() == []
  {
    var end := s.pos + |piece|;
    var changed := ReaderState(Take(content, end), s.pos, s.turns[1..]);
    assert changed.Rest() == piece && changed.turns[1..] == s.turns[2..];
    assert Served(s, cap) == Served(changed, cap) == Give(changed.(turns := s.turns[2..]), Min(|piece|, cap));
    assert Take(piece, |piece|) == piece;
  }

  lemma EndDelivers(s: ReaderState, cap: nat, tail: seq<Turn>)
    requires cap > 0 && s.Rest() == [] && s.turns == [Short(1)] + tail
    ensures Delivered(s, cap) == Delivery([], false, s.(turns := tail))
  {
    var later := s.(turns := tail);
    assert s.turns[1..] == tail && later.Rest() == [];
    assert Served(s, cap) == Give(later, 1) == Gave([], later);
  }

  lemma PieceIsRead(s: ReaderState, left: nat, content: Bytes, pieces: Pieces, piece: Bytes, tail: seq<Turn>,
                    all: Sections, rest: nat)
    requires Reading(s, left, pieces, all) && 0 < |piece| <= Min(SEGMENT, left) && rest == left - |piece|
    requires s.pos + |piece| <= |content| && content[s.pos..s.pos + |piece|] == piece
    requires s.turns == Block(content, s.pos + |piece|, |piece|, Min(SEGMENT, left)) + tail
    ensures
      var end := s.pos + |piece|;
      Reading(ReaderState(Take(content, end), end, tail), rest, Then(pieces, piece), all)
  {
    BlockDelivers(s, content, piece, Min(SEGMENT, left), tail);
    ReadingGoesOn(s, left, pieces, all, Delivered(s, Min(SEGMENT, left)));
  }

  lemma {:induction false} ReadInPieces(content: Bytes, start: nat, pieces: Pieces, len: nat, tail: seq<Turn>,
                                        all: Sections)
    returns (left: nat)
    requires Division(pieces) && start + len == |content| && |pieces.Joined()| <= len
    requires content[start..start + |pieces.Joined()|] == pieces.Joined()
    requires Reading(ReaderState(content, start, TurnsFor(content, start, pieces, len) + tail), len, Nothing, all)
    ensures left == len - |pieces.Joined()| && Reading(BehindPieces(content, start, pieces, tail), left, pieces, all)
    decreases pieces
  {
    match pieces
    case Nothing =>
      left := len;
      assert TurnsFor(content, start, Nothing, len) + tail == tail;
    case Then(before, last) =>
      var n := |before.Joined()|;
      var block := Block(content, start + n + |last|, |last|, Asked(len, n));
      Rejoin(TurnsFor(content, start, before, len), block, tail);
      Split(content, start, before.Joined(), last);
      var room := ReadInPieces(content, start, before, len, block + tail, all);
      left := OneMoreIsRead(content, start, before, last, len, tail, all, room);
  }

  lemma OneMoreIsRead(content: Bytes, start: nat, before: Pieces, last: Bytes, len: nat, tail: seq<Turn>,
                      all: Sections, room: nat)
    returns (left: nat)
    requires 0 < |last| <= 4096 && start + len == |content| && |last| <= room == len - |before.Joined()|
    requires var at := start + |before.Joined()|; content[at..at + |last|] == last
    requires
      var n := |before.Joined()|;
      var block := Block(content, start + n + |last|, |last|, Asked(len, n));
      Reading(BehindPieces(content, start, before, block + tail), room, before, all)
    ensures left == room - |last| && Reading(BehindPieces(content, start, Then(before, last), tail), left,
                                             Then(before, last), all)
  {
    var n := |before.Joined()|;
    var block := Block(content, start + n + |last|, |last|, Asked(len, n));
    left := room - |last|;
    PieceIsRead(BehindPieces(content, start, before, block + tail), room, content, before, last, tail, all, left);
  }

  lemma Rejoin(a: seq<Turn>, b: seq<Turn>, c: seq<Turn>)
    ensures a + b + c == a + (b + c)
  {
  }

  /** The last of a content is read in whatever pieces it is divided. */
  lemma DivisionIsRead(content: Bytes, start: nat, pieces: Pieces)
    requires Division(pieces) && start <= |content| && content[start..] == pieces.Joined()
    ensures
      var len := |content| - start;
      SectionsOf(ReaderState(content, start, TurnsFor(content, start, pieces, len)), len, Nothing)
        == Sections(pieces, false, ReaderState(content, |content|, []))
  {
    var len := |content| - start;
    var turns := TurnsFor(content, start, pieces, len);
    var s, all := ReaderState(content, start, turns), SectionsOf(ReaderState(content, start, turns), len, Nothing);
    assert turns + [] == turns && content[start..start + len] == content[start..];
    assert Take(content, |content|) == content;
    DivisionEnds(s, content, start, pieces, len, all);
  }

  lemma DivisionEnds(s: ReaderState, content: Bytes, start: nat, pieces: Pieces, len: nat, all: Sections)
    requires Division(pieces) && start + len == |content| && |pieces.Joined()| == len
    requires content[start..start + len] == pieces.Joined() && Take(content, |content|) == content
    requires s == ReaderState(content, start, TurnsFor(content, start, pieces, len) + [])
    requires Reading(s, len, Nothing, all)
    ensures all == Sections(pieces, false, ReaderState(content, |content|, []))
  {
    var left := ReadInPieces(content, start, pieces, len, [], all);
    ReadToTheEnd(BehindPieces(content, start, pieces, []), left, pieces, all);
  }

  lemma ReadToTheEnd(s: ReaderState, left: nat, pieces: Pieces, all: Sections)
    requires left == 0 && Reading(s, left, pieces, all)
    ensures all == Sections(pieces, false, s)
  {
    ReadingGoesOn(s, left, pieces, all, Delivered(s, left));
  }

  // ----- the writer's runs -----

  function ReaderFor(pieces: Pieces): ReaderState {
    var content := pieces.Joined();
    ReaderState(content, 0, TurnsFor(content, 0, pieces, |content|))
  }

  lemma {:induction false} FewPieces(pieces: Pieces)
    requires Division(pieces)
    ensures pieces.Count() <= |pieces.Joined()|
  {
    if pieces.Then? {
      FewPieces(pieces.before);
    }
  }

  /** Every division of every package within the limit is read from some reader, and accepted. */
  lemma EveryDivisionIsRead(pieces: Pieces)
    requires Division(pieces) && |pieces.Joined()| <= STREAMED_PACKAGE_MAX
    ensures
      var s := ReaderFor(pieces);
      s == s.Start() && s.content == pieces.Joined() && PackageRead(s, |s.content|) == Ok(pieces)
  {
    var content := pieces.Joined();
    assert content[0..] == content;
    DivisionIsRead(content, 0, pieces);
    FewPieces(pieces);
    NothingMore(content);
    ReadAs(ReaderFor(pieces), |content|, pieces, ReaderState(content, |content|, []));
  }

  lemma ReadAs(s: ReaderState, len: nat, pieces: Pieces, after: ReaderState)
    requires SectionsOf(s, len, Nothing) == Sections(pieces, false, after)
    requires pieces.Count() <= U32_LIMIT && |pieces.Joined()| == len
    requires Delivered(after, 1) == Delivery([], false, after)
    ensures PackageRead(s, len) == Ok(pieces)
  {
  }

  lemma NothingMore(content: Bytes)
    ensures var s := ReaderState(content, |content|, []); Delivered(s, 1) == Delivery([], false, s)
  {
    var s := ReaderState(content, |content|, []);
    assert s.Rest() == [] && Give(s, 1) == Gave([], s);
  }

  // ----- the reader's runs -----

  /** Turns that let a first pass over the last `n` bytes of a content through. */
  function PassTurns(n: nat): seq<Turn> {
    if n == 0 then [Short(1)]
    else if n < SEGMENT then [Short(n), Short(1)] + PassTurns(0)
    else [Short(SEGMENT)] + PassTurns(n - SEGMENT)
  }

  lemma ChunkDelivers(s: ReaderState, size: nat, cap: nat, tail: seq<Turn>)
    requires 0 < size <= cap && size <= |s.Rest()| && (size < cap ==> size == |s.Rest()|)
    requires s.turns == [Short(size)] + (if size < cap then [Short(1)] else []) + tail
    ensures Delivered(s, cap) == Delivery(s.Rest()[..size], false, s.(pos := s.pos + size, turns := tail))
  {
    var piece, turns := s.Rest()[..size], s.turns[1..];
    var given := s.(pos := s.pos + size, turns := turns);
    assert turns == (if size < cap then [Short(1)] else []) + tail;
    ChunkServes(s, size, cap);
    DeliveredMore(s, cap, Delivered(s, cap), Gave(piece, given), cap - |piece|);
    assert piece + [] == piece;
    if size < cap {
      assert given.Rest() == [];
      EndDelivers(given, cap - size, tail);
    } else {
      assert turns == tail;
    }
  }

  lemma ChunkServes(s: ReaderState, size: nat, cap: nat)
    requires 0 < size <= cap && size <= |s.Rest()| && s.turns != [] && s.turns[0] == Short(size)
    ensures Served(s, cap) == Gave(s.Rest()[..size], s.(pos := s.pos + size, turns := s.turns[1..]))
  {
    assert s.(turns := s.turns[1..]).Rest() == s.Rest();
  }

  lemma {:induction false} WholeIsRead(content: Bytes, n: nat, tail: seq<Turn>)
    requires n <= |content|
    ensures
      WholeRead(ReaderState(content, |content| - n, PassTurns(n) + tail))
        == Delivery(content[|content| - n..], false, ReaderState(content, |content|, tail))
    decreases n
  {
    var s, rest := ReaderState(content, |content| - n, PassTurns(n) + tail), content[|content| - n..];
    assert s.Rest() == rest;
    if n == 0 {
      EndDelivers(s, SEGMENT, tail);
    } else {
      var size := Min(n, SEGMENT);
      var later := PassTurns(n - size) + tail;
      assert s.turns == [Short(size)] + (if size < SEGMENT then [Short(1)] else []) + later;
      ChunkDelivers(s, size, SEGMENT, later);
      WholeIsRead(content, n - size, tail);
      assert rest[..size] + content[|content| - (n - size)..] == rest;
    }
  }

  /** A reader whose first pass, if there is one, goes through, and whose second comes in these pieces. */
  function PackageFor(stream: Bytes, pieces: Pieces, verify: bool): ReaderState
    requires |stream| >= 8
  {
    ReaderState(stream, 0, (if verify then PassTurns(|stream|) else []) + ([Short(8)] + SecondTurns(stream, pieces)))
  }

  function SecondTurns(stream: Bytes, pieces: Pieces): seq<Turn>
    requires |stream| >= 8
  {
    TurnsFor(stream, 8, pieces, |stream| - 8)
  }

  lemma FirstPassGoesThrough(p: Crypto, o: Opened, stream: Bytes, pieces: Pieces)
    requires |stream| >= 8 && (o.check.Some? ==> o.check.value.Accepts(p, stream))
    ensures
      var r := FirstTaken(p, o, PackageFor(stream, pieces, o.check.Some?));
      && r.Ok? && r.value.0 == (if o.check.Some? then stream else [])
      && r.value.1.Start() == ReaderState(stream, 0, [Short(8)] + SecondTurns(stream, pieces))
  {
    var later := [Short(8)] + SecondTurns(stream, pieces);
    if o.check.Some? {
      WholeIsRead(stream, |stream|, later);
      assert stream[0..] == stream;
    } else {
      assert [] + later == later;
    }
  }

  lemma HeadIsRead(key: Bytes, a: AgileParser.AgileParams, stream: Bytes, pieces: Pieces, s: ReaderState)
    requires |stream| >= 8 && FromLe64(stream[..8]) <= |stream| - 8 && |key| == a.keyDataKeyBits / 8
    requires s.Start() == ReaderState(stream, 0, [Short(8)] + SecondTurns(stream, pieces))
    ensures
      HeadRead(key, a, s) == Ok(Head(stream[..8], |stream| - 8, ReaderState(stream, 8, SecondTurns(stream, pieces))))
  {
    var turns := SecondTurns(stream, pieces);
    assert [Short(8)] + [] + turns == [Short(8)] + turns;
    ChunkDelivers(s.Start(), 8, HEAD_LEN, turns);
  }

  /** Every division of a stored package is read from some reader, past a first pass that accepts it. */
  lemma EveryDivisionIsTaken(p: Crypto, o: Opened, stream: Bytes, pieces: Pieces)
    requires |stream| >= 8 && FromLe64(stream[..8]) <= |stream| - 8 && |o.key| == o.params.keyDataKeyBits / 8
    requires Division(pieces) && pieces.Count() <= U32_LIMIT && pieces.Joined() == stream[8..]
    requires o.check.Some? ==> o.check.value.Accepts(p, stream)
    ensures
      PackageTaken(p, o, PackageFor(stream, pieces, o.check.Some?))
        == Ok(Taken(if o.check.Some? then stream else [], stream[..8], pieces))
  {
    var s := PackageFor(stream, pieces, o.check.Some?);
    FirstPassGoesThrough(p, o, stream, pieces);
    var one := FirstTaken(p, o, s).value;
    SecondIsTaken(p, o, stream, pieces, one.1, one.0);
    BothAreTaken(p, o, s, one, Ok(Taken(one.0, stream[..8], pieces)));
  }

  lemma BothAreTaken(p: Crypto, o: Opened, s: ReaderState, one: (Bytes, ReaderState), r: Result<Taken>)
    requires FirstTaken(p, o, s) == Ok(one) && SecondTaken(p, o, one.1, one.0) == r
    ensures PackageTaken(p, o, s) == r
  {
  }

  lemma SecondIsTaken(p: Crypto, o: Opened, stream: Bytes, pieces: Pieces, s: ReaderState, first: Bytes)
    requires |stream| >= 8 && FromLe64(stream[..8]) <= |stream| - 8 && |o.key| == o.params.keyDataKeyBits / 8
    requires Division(pieces) && pieces.Count() <= U32_LIMIT && pieces.Joined() == stream[8..]
    requires o.check.Some? ==> o.check.value.Accepts(p, stream)
    requires s.Start() == ReaderState(stream, 0, [Short(8)] + SecondTurns(stream, pieces))
    ensures SecondTaken(p, o, s, first) == Ok(Taken(first, stream[..8], pieces))
  {
    HeadIsRead(o.key, o.params, stream, pieces, s);
    var head := HeadRead(o.key, o.params, s).value;
    DivisionIsRead(stream, 8, pieces);
    assert stream[..8] + stream[8..] == stream;
    BodyIsTaken(p, o, head, first, pieces, ReaderState(stream, |stream|, []));
  }

  lemma BodyIsTaken(p: Crypto, o: Opened, head: Head, first: Bytes, pieces: Pieces, after: ReaderState)
    requires SectionsOf(head.after, head.dataLen, Nothing) == Sections(pieces, false, after)
    requires pieces.Count() <= U32_LIMIT && (o.check.Some? ==> o.check.value.Accepts(p, head.size + pieces.Joined()))
    ensures BodyTaken(p, o, head, first) == Ok(Taken(first, head.size, pieces))
  {
  }

  // ----- the runs that come back different -----

  /**
   For every writable tuple, password, set of draws and policy, and every division that is
   no cut: a reader of ones that is read in it and accepted, and whose package is verified
   and comes back different.
   */
  lemma SomeReaderComesBackWrong(q: Params, password: Bytes, d: Draws, pieces: Pieces, policy: IntegrityPolicy)
    returns (wrong: Bytes)
    requires q.Writable() && d.Sized(q) && Division(pieces) && !IsCut(pieces)
    requires |pieces.Joined()| <= STREAMED_PACKAGE_MAX
    ensures
      var s := ReaderFor(OfOnes(pieces));
      && s.pos == 0 && s.content == Ones(|pieces.Joined()|) && wrong != s.content && |wrong| == |s.content|
      && PackageRead(s, |s.content|) == Ok(OfOnes(pieces))
    ensures ComesBackAs(Telling(), q, password, d, OfOnes(pieces), policy, wrong)
  {
    OnesStayOnes(pieces);
    EveryDivisionIsRead(OfOnes(pieces));
    wrong := OtherDivisionsComeBackWrong(q, password, d, OfOnes(pieces), policy);
  }

  /** The shortest: two bytes, the end reported after the first. */
  function TwoApart(a: Byte, b: Byte): ReaderState {
    ReaderState([a, b], 0, [Change([a]), Short(1), Short(1), Change([a, b]), Short(1)])
  }

  lemma TwoBytesAreReadApart(a: Byte, b: Byte)
    ensures
      var s, pieces := TwoApart(a, b), Then(Then(Nothing, [a]), [b]);
      PackageRead(s, |s.content|) == Ok(pieces) && !IsCut(pieces)
  {
    var first := Then(Nothing, [a]);
    var pieces := Then(first, [b]);
    assert first.Joined() == [] + [a] == [a] && pieces.Joined() == [a] + [b] == [a, b];
    EveryDivisionIsRead(pieces);
    TurnsOfTwo(a, b, first, pieces);
  }

  lemma TurnsOfTwo(a: Byte, b: Byte, first: Pieces, pieces: Pieces)
    requires first == Then(Nothing, [a]) && pieces == Then(first, [b]) && |first.Joined()| == 1
    ensures TurnsFor([a, b], 0, pieces, 2) == TwoApart(a, b).turns
  {
    var content := [a, b];
    assert Take(content, 1) == [a] && Take(content, 2) == content;
    var b1, b2 := Block(content, 1, 1, 2), Block(content, 2, 1, 1);
    assert b1 == [Change([a]), Short(1), Short(1)] && b2 == [Change(content), Short(1)];
    assert TurnsFor(content, 0, first, 2) == [] + b1 == b1;
    assert TurnsFor(content, 0, pieces, 2) == b1 + b2;
  }

  /** A package of whole blocks, stored: every byte of its ciphertext is released. */
  ghost predicate ReleasedWrong(p: Crypto, o: Opened, content: Bytes, stream: Bytes, taken: Taken)
    requires AesKey(o.key)
  {
    && |taken.size| == 8 && taken.Second() == stream && DecryptOpened(p, o, stream) == Ok(content)
    && (o.check.Some? ==> taken.first == stream && o.check.value.Accepts(p, stream))
    && var out := ReleasedBytes(p, o.key, o.params, taken.pieces, FromLe64(taken.size));
    && |out| == |content| && out != content
  }

  /**
   For every writable tuple, password, set of draws and policy, every package of whole
   blocks, and every division of its ciphertext that is no cut: a reader of the stored
   package both of whose passes are accepted, and whose plaintext is not the package's.
   */
  lemma SecondPassComesBackWrong(q: Params, password: Bytes, d: Draws, policy: IntegrityPolicy, content: Bytes,
                                 pieces: Pieces)
    requires q.Writable() && d.Sized(q) && |content| <= STREAMED_PACKAGE_MAX && |content| % 16 == 0
    requires Division(pieces) && !IsCut(pieces)
    requires pieces.Joined() == EncryptPieces(Telling(), q.hash, d.keyDataSalt, d.sessionKey, Cut(content))
    ensures
      var e := Encrypt(Telling(), q, password, d, content);
      var o := Open(Telling(), Document(Telling(), q, e.blobs), password, policy);
      && o.Ok? && o.value.outcome == EndToEnd.OutcomeUnder(policy)
      && var taken := PackageTaken(Telling(), o.value, PackageFor(e.package, pieces, o.value.check.Some?));
      && taken.Ok? && taken.value.pieces == pieces
      && ReleasedWrong(Telling(), o.value, content, e.package, taken.value)
  {
    var p, e := Telling(), Encrypt(Telling(), q, password, d, content);
    EndToEnd.WhatIsWrittenOpens(p, q, password, d, Cut(content), policy);
    CutCoversContent(content);
    var o := Open(p, Document(p, q, e.blobs), password, policy).value;
    SecondPassOf(p, o, content, pieces, e.package);
  }

  lemma SecondPassOf(p: Crypto, o: Opened, content: Bytes, pieces: Pieces, stream: Bytes)
    requires AesKey(o.key) && |o.key| == o.params.keyDataKeyBits / 8 && p == Telling()
    requires |content| <= STREAMED_PACKAGE_MAX && |content| % 16 == 0 && Division(pieces) && !IsCut(pieces)
    requires pieces.Joined() == EncryptPieces(p, o.params.keyDataHash, o.params.outerSalt, o.key, Cut(content))
    requires stream == Le64(|content|) + pieces.Joined()
    requires o.check.Some? ==> o.check.value.Accepts(p, stream)
    ensures
      var taken := PackageTaken(p, o, PackageFor(stream, pieces, o.check.Some?));
      taken.Ok? && taken.value.pieces == pieces && ReleasedWrong(p, o, content, stream, taken.value)
  {
    var hash, salt := o.params.keyDataHash, o.params.outerSalt;
    PayloadComesBack(p, hash, salt, o.key, content);
    EndToEnd.PackageComesBack(p, o.params, o.key, content);
    ReadBack64(|content|);
    Ends(Le64(|content|), pieces.Joined());
    FewPieces(pieces);
    EveryDivisionIsTaken(p, o, stream, pieces);
    var at := OtherDivisionsDecryptWrong(hash, salt, o.key, pieces);
    var out := DecryptPieces(p, hash, salt, o.key, pieces);
    assert Take(out, |content|) == out && Pad(content) == content;
  }
}
