/**
 The buffer that keeps itself across a seek landing inside it: `SeekBufReader` in
 `cfb_reader.rs`, over a buffered reader, over the caller's own.
 */
module SeekBuf {
  import opened Errors
  import opened Octets

  const CFB_READ_BUFFER: nat := 512
  const U64_LIMIT: nat := 0x1_0000_0000_0000_0000
  const I64_MIN: int := -0x8000_0000_0000_0000
  const I64_MAX: int := 0x7FFF_FFFF_FFFF_FFFF

  /** `SeekFrom`: an unsigned offset from the start, or a signed one from elsewhere. */
  datatype Target = FromStart(to: nat) | FromCurrent(offset: int) | FromEnd(offset: int) {

    predicate Formed() {
      match this
      case FromStart(to) => to < U64_LIMIT
      case FromCurrent(offset) => I64_MIN <= offset <= I64_MAX
      case FromEnd(offset) => I64_MIN <= offset <= I64_MAX
    }

    /** Where a bare reader of `len` bytes at `pos` goes: nowhere before byte zero or past a `u64`. */
    function Of(len: nat, pos: nat): (r: Result<nat>)
      ensures r.Ok? ==> r.value < U64_LIMIT
      ensures r.Err? ==> r.error == Io(InvalidData)
    {
      var to :=
        match this
        case FromStart(to) => to
        case FromCurrent(offset) => pos + offset
        case FromEnd(offset) => len + offset;
      if 0 <= to < U64_LIMIT then Ok(to) else Err(Io(InvalidData))
    }
  }

  /**
   What a call meets: at most so many bytes of a read, or a failure, which may leave a seek
   somewhere else. With none left, neither.
   */
  datatype Turn = Short(most: nat) | Fail(moved: Option<nat>)

  /** How many of the calls to come fail. */
  function Fails(turns: seq<Turn>): nat {
    if turns == [] then 0 else (if turns[0].Fail? then 1 else 0) + Fails(turns[1..])
  }

  /** No seek to come that fails moves the reader. */
  predicate Steadfast(turns: seq<Turn>) {
    turns == [] || ((turns[0].Fail? ==> turns[0].moved.None?) && Steadfast(turns[1..]))
  }

  /** The caller's reader: bytes and a position, past the end included. */
  class Bare {
    const content: Bytes
    var pos: nat
    var turns: seq<Turn>
    /** How often it has been called. */
    ghost var calls: nat

    constructor (content: Bytes, pos: nat, turns: seq<Turn>)
      ensures this.content == content && this.pos == pos && this.turns == turns && calls == 0
    {
      this.content, this.pos, this.turns, calls := content, pos, turns, 0;
    }

    method Turned() returns (t: Option<Turn>)
      modifies this`turns, this`calls
      ensures Fails(old(turns)) == Fails(turns) + if t.Some? && t.value.Fail? then 1 else 0
      ensures old(Steadfast(turns)) ==> Steadfast(turns) && (t.Some? && t.value.Fail? ==> t.value.moved.None?)
      ensures calls == old(calls) + 1
    {
      calls := calls + 1;
      if turns == [] {
        return None;
      }
      t := Some(turns[0]);
      turns := turns[1..];
    }

    /** Some of what is at the position; nothing only at the end, or into no room. */
    method Read(room: nat) returns (r: Result<Bytes>)
      modifies this`pos, this`turns, this`calls
      ensures r.Ok? ==>
        && |r.value| <= room && Reads(content, old(pos), r.value)
        && pos == old(pos) + |r.value| && (r.value == [] ==> room == 0 || old(pos) >= |content|)
      ensures r.Err? ==> r.error == Io(Failed) && pos == old(pos)
      ensures Fails(turns) + (if r.Err? then 1 else 0) <= Fails(old(turns))
      ensures old(Steadfast(turns)) ==> Steadfast(turns)
      ensures calls == old(calls) + 1
    {
      var t := Turned();
      if t.Some? && t.value.Fail? {
        return Err(Io(Failed));
      }
      var left := if pos <= |content| then |content| - pos else 0;
      var n := Min(room, left);
      if t.Some? && n > 0 {
        n := Min(n, t.value.most + 1);
      }
      if n == 0 {
        return Ok([]);
      }
      r := Ok(content[pos..pos + n]);
      pos := pos + n;
    }

    /** A refused seek leaves the position; one that fails may not. */
    method Seek(target: Target) returns (r: Result<nat>)
      modifies this`pos, this`turns, this`calls
      ensures r.Ok? ==> r == target.Of(|content|, old(pos)) && pos == r.value
      ensures r.Err? && r.error != Io(Failed) ==> pos == old(pos) && r == target.Of(|content|, old(pos))
      ensures r.Err? && old(Steadfast(turns)) ==> pos == old(pos)
      ensures old(pos) < U64_LIMIT ==> pos < U64_LIMIT
      ensures Fails(turns) + (if r == Err(Io(Failed)) then 1 else 0) <= Fails(old(turns))
      ensures old(Steadfast(turns)) ==> Steadfast(turns)
      ensures calls == old(calls) + 1
    {
      var t := Turned();
      if t.Some? && t.value.Fail? {
        if t.value.moved.Some? {
          pos := Min(t.value.moved.value, U64_LIMIT - 1);
        }
        return Err(Io(Failed));
      }
      r := target.Of(|content|, pos);
      if r.Ok? {
        pos := r.value;
      }
    }
  }

  /** `bytes` are those at a position of `content`. */
  predicate Reads(content: Bytes, pos: nat, bytes: Bytes) {
    bytes == [] || (pos + |bytes| <= |content| && content[pos..pos + |bytes|] == bytes)
  }

  /** The standard library's buffered reader, as documented, at `cfb_reader.rs`'s capacity. */
  class Buffered {
    const inner: Bare
    const data: array<Byte>
    var cursor: nat
    var filled: nat

    constructor (inner: Bare)
      ensures this.inner == inner && fresh(data) && data.Length == CFB_READ_BUFFER
      ensures cursor == filled == 0
    {
      this.inner := inner;
      data := new Byte[CFB_READ_BUFFER](_ => 0);
      cursor, filled := 0, 0;
    }

    /** What holds whatever the reader underneath has done. */
    ghost predicate Formed()
      reads this, inner
    {
      && data.Length == CFB_READ_BUFFER && cursor <= filled <= CFB_READ_BUFFER
      && inner.pos < U64_LIMIT && |inner.content| < U64_LIMIT
    }

    /** The buffer holds the bytes just behind the inner reader's position. */
    ghost predicate Valid()
      reads this, inner, data
    {
      && Formed() && filled <= inner.pos
      && (filled > 0 ==> inner.pos <= |inner.content| && data[..filled] == inner.content[inner.pos - filled..inner.pos])
    }

    /** Where the next byte handed out comes from. */
    function Pos(): int
      reads this, inner
    {
      inner.pos - (filled - cursor)
    }

    /** The inner reader past what is left in the buffer. */
    method Discard()
      modifies this`cursor, this`filled
      ensures cursor == filled == 0
    {
      cursor, filled := 0, 0;
    }

    method Fill() returns (r: Result<()>)
      requires Formed() && cursor == filled
      modifies this`cursor, this`filled, data, inner`pos, inner`turns, inner`calls
      ensures Formed() && Pos() == old(Pos()) && (r.Ok? || old(Valid()) ==> Valid())
      ensures r.Err? ==> r.error == Io(Failed)
      ensures r.Ok? ==> cursor == 0 && (filled == 0 ==> inner.pos >= |inner.content|)
      ensures inner.calls == old(inner.calls) + 1
      ensures Fails(inner.turns) + (if r.Err? then 1 else 0) <= Fails(old(inner.turns))
      ensures old(Steadfast(inner.turns)) ==> Steadfast(inner.turns)
    {
      var got := inner.Read(CFB_READ_BUFFER);
      if got.Err? {
        return Err(got.error);
      }
      var n := |got.value|;
      forall i | 0 <= i < n {
        data[i] := got.value[i];
      }
      assert data[..n] == got.value;
      cursor, filled := 0, n;
      return Ok(());
    }

    method Read(room: nat) returns (r: Result<Bytes>)
      requires Formed()
      modifies this`cursor, this`filled, data, inner`pos, inner`turns, inner`calls
      ensures Formed() && (old(Valid()) ==> Valid())
      ensures r.Ok? ==> |r.value| <= room && Pos() == old(Pos()) + |r.value|
      ensures r.Ok? && old(Valid()) ==>
        Reads(inner.content, old(Pos()), r.value) && (r.value == [] ==> room == 0 || old(Pos()) >= |inner.content|)
      ensures r.Err? ==> r.error == Io(Failed) && Pos() == old(Pos())
      // What is in the buffer is handed out without a call, and a refill is one.
      ensures old(cursor) < old(filled) ==>
        && inner.calls == old(inner.calls) && inner.pos == old(inner.pos) && filled == old(filled)
        && r.Ok? && |r.value| == Min(room, old(filled) - old(cursor)) && cursor == old(cursor) + |r.value|
      ensures inner.calls <= old(inner.calls) + 1
      ensures Fails(inner.turns) + (if r.Err? then 1 else 0) <= Fails(old(inner.turns))
      ensures old(Steadfast(inner.turns)) ==> Steadfast(inner.turns)
    {
      if cursor == filled && room >= CFB_READ_BUFFER {
        Discard();
        r := inner.Read(room);
        return;
      }
      if cursor == filled {
        var done := Fill();
        if done.Err? {
          return Err(done.error);
        }
      }
      var bytes := HandOut(room);
      return Ok(bytes);
    }

    /** Up to `room` bytes of what is in the buffer. */
    method HandOut(room: nat) returns (bytes: Bytes)
      requires Formed()
      modifies this`cursor
      ensures Formed() && |bytes| == Min(room, filled - old(cursor)) && cursor == old(cursor) + |bytes|
      ensures old(Valid()) ==> Valid() && Reads(inner.content, old(Pos()), bytes)
    {
      var n := Min(room, filled - cursor);
      bytes := data[cursor..cursor + n];
      if Valid() {
        BufferIsContent(n);
      }
      cursor := cursor + n;
    }

    lemma BufferIsContent(n: nat)
      requires Valid() && n <= filled - cursor
      ensures Reads(inner.content, Pos(), data[cursor..cursor + n])
      ensures n == 0 ==> data[cursor..cursor + n] == []
    {
      if n > 0 {
        SliceOfSlice(data[..], 0, filled, cursor, cursor + n);
        SliceOfSlice(inner.content, inner.pos - filled, inner.pos, cursor, cursor + n);
      }
    }

    /**
     An absolute seek, or a relative one made up for what is in the buffer; the buffer is
     discarded. One that succeeds makes the buffer valid whatever it was, and one that fails
     keeps it as it is: valid if the reader did not move, or if it is empty.
     */
    method Seek(target: Target) returns (r: Result<nat>)
      requires Formed() && target.Formed()
      modifies this`cursor, this`filled, inner`pos, inner`turns, inner`calls
      ensures Formed()
      ensures r.Ok? ==> Valid() && Pos() == r.value && (!target.FromCurrent? ==> r == target.Of(|inner.content|, 0))
      ensures r.Ok? && old(Valid()) ==> r == target.Of(|inner.content|, old(Pos()))
      ensures r.Err? && r.error != Io(Failed) && old(Valid()) ==>
        Valid() && Pos() == old(Pos()) && r == target.Of(|inner.content|, old(Pos()))
      ensures r.Err? ==> r.error == Io(Failed) || r.error == Io(InvalidData)
      ensures r.Err? ==> filled == 0 || (cursor == old(cursor) && filled == old(filled))
      ensures r.Err? && !target.FromCurrent? ==> cursor == old(cursor) && filled == old(filled)
      ensures r.Err? && old(Steadfast(inner.turns)) && old(Valid()) ==> Valid() && Pos() == old(Pos())
      ensures Fails(inner.turns) + (if r == Err(Io(Failed)) then 1 else 0) <= Fails(old(inner.turns))
      ensures old(Steadfast(inner.turns)) ==> Steadfast(inner.turns)
    {
      if target.FromCurrent? {
        r := SeekBy(target.offset);
      } else {
        r := SeekTo(target);
      }
    }

    /** The absolute one. */
    method SeekTo(target: Target) returns (r: Result<nat>)
      requires Formed() && target.Formed() && !target.FromCurrent?
      modifies this`cursor, this`filled, inner`pos, inner`turns, inner`calls
      ensures Formed()
      ensures r.Ok? ==> filled == 0 && inner.pos == r.value && r == target.Of(|inner.content|, 0)
      ensures r.Err? && r.error != Io(Failed) ==> inner.pos == old(inner.pos) && r == target.Of(|inner.content|, 0)
      ensures r.Err? ==> r.error == Io(Failed) || r.error == Io(InvalidData)
      ensures r.Err? ==> cursor == old(cursor) && filled == old(filled)
      ensures r.Err? && old(Steadfast(inner.turns)) ==> inner.pos == old(inner.pos)
      ensures Fails(inner.turns) + (if r == Err(Io(Failed)) then 1 else 0) <= Fails(old(inner.turns))
      ensures old(Steadfast(inner.turns)) ==> Steadfast(inner.turns)
    {
      r := inner.Seek(target);
      if r.Err? {
        return;
      }
      Discard();
    }

    /** The relative one. */
    method SeekBy(offset: int) returns (r: Result<nat>)
      requires Formed() && FromCurrent(offset).Formed()
      modifies this`cursor, this`filled, inner`pos, inner`turns, inner`calls
      ensures Formed()
      ensures r.Ok? ==> filled == 0 && inner.pos == r.value
      ensures r.Ok? && old(Valid()) ==> r == FromCurrent(offset).Of(|inner.content|, old(Pos()))
      ensures r.Err? && r.error != Io(Failed) && old(Valid()) ==>
        Valid() && Pos() == old(Pos()) && r == FromCurrent(offset).Of(|inner.content|, old(Pos()))
      ensures r.Err? ==> r.error == Io(Failed) || r.error == Io(InvalidData)
      ensures r.Err? ==> filled == 0 || (cursor == old(cursor) && filled == old(filled))
      ensures r.Err? && old(Steadfast(inner.turns)) && old(Valid()) ==> Valid() && Pos() == old(Pos())
      ensures Fails(inner.turns) + (if r == Err(Io(Failed)) then 1 else 0) <= Fails(old(inner.turns))
      ensures old(Steadfast(inner.turns)) ==> Steadfast(inner.turns)
    {
      var remainder := filled - cursor;
      if offset - remainder >= I64_MIN {
        r := inner.Seek(FromCurrent(offset - remainder));
        if r.Err? {
          return;
        }
      } else {
        // The offset overflows: step back over the remainder first, then by the offset.
        var back := inner.Seek(FromCurrent(-remainder));
        if back.Err? {
          return Err(back.error);
        }
        Discard();
        r := inner.Seek(FromCurrent(offset));
        if r.Err? {
          return;
        }
      }
      Discard();
    }

    /** A move that stays in the buffer moves the cursor alone. */
    method SeekRelative(offset: int) returns (r: Result<()>)
      requires Formed() && FromCurrent(offset).Formed()
      modifies this`cursor, this`filled, inner`pos, inner`turns, inner`calls
      ensures Formed() && (r.Ok? && old(Valid()) ==> Valid())
      ensures r.Ok? && old(Valid()) ==> FromCurrent(offset).Of(|inner.content|, old(Pos())) == Ok(Pos())
      ensures 0 <= old(cursor) + offset <= old(filled) ==>
        && r.Ok? && inner.calls == old(inner.calls) && inner.pos == old(inner.pos)
        && cursor == old(cursor) + offset && filled == old(filled)
      ensures r.Err? && r.error != Io(Failed) && old(Valid()) ==>
        Valid() && Pos() == old(Pos()) && FromCurrent(offset).Of(|inner.content|, old(Pos())) == Err(r.error)
      ensures r.Err? ==> r.error == Io(Failed) || r.error == Io(InvalidData)
      ensures r.Err? ==> filled == 0 || (cursor == old(cursor) && filled == old(filled))
      ensures r.Err? && old(Steadfast(inner.turns)) && old(Valid()) ==> Valid() && Pos() == old(Pos())
      ensures Fails(inner.turns) + (if r == Err(Io(Failed)) then 1 else 0) <= Fails(old(inner.turns))
      ensures old(Steadfast(inner.turns)) ==> Steadfast(inner.turns)
    {
      if offset < 0 {
        if cursor >= -offset {
          cursor := cursor + offset;
          return Ok(());
        }
      } else if cursor + offset <= filled {
        cursor := cursor + offset;
        return Ok(());
      }
      var _ :- Seek(FromCurrent(offset));
      return Ok(());
    }

    /** The position less what is buffered; a reader moved before that is answered with a panic. */
    method StreamPosition() returns (r: Result<nat>, panics: bool)
      requires Formed()
      modifies inner`pos, inner`turns, inner`calls
      ensures Formed()
      ensures panics ==> Pos() < 0 && inner.pos == old(inner.pos)
      ensures !panics && r.Ok? ==> r.value == Pos() == old(Pos()) && inner.pos == old(inner.pos)
      ensures !panics && r.Err? ==> r.error == Io(Failed)
      ensures old(Steadfast(inner.turns)) ==> Steadfast(inner.turns) && inner.pos == old(inner.pos)
      ensures Fails(inner.turns) + (if !panics && r.Err? then 1 else 0) <= Fails(old(inner.turns))
    {
      var remainder := filled - cursor;
      r := inner.Seek(FromCurrent(0));
      panics := false;
      if r.Ok? {
        panics := r.value < remainder;
        r := if panics then Err(Io(Failed)) else Ok(r.value - remainder);
      }
    }
  }

  /** The reader `cfb` is given: the buffered one and the position it would be at. */
  class SeekBufReader {
    const inner: Buffered
    var pos: nat

    constructor (inner: Buffered, pos: nat)
      ensures this.inner == inner && this.pos == pos
    {
      this.inner, this.pos := inner, pos;
    }

    ghost predicate Formed()
      reads this, inner, inner.inner
    {
      inner.Formed() && pos < U64_LIMIT
    }

    /** In step: the position is where the next byte comes from, and the buffer is the reader's. */
    ghost predicate Valid()
      reads this, inner, inner.inner, inner.data
    {
      inner.Valid() && pos < U64_LIMIT && pos == inner.Pos()
    }

    function Content(): Bytes {
      inner.inner.content
    }

    /** The buffer's cursor and fill, where the reader stands, and how often it was called. */
    ghost function Buffer(): (nat, nat, nat, nat)
      reads this, inner, inner.inner
    {
      (inner.cursor, inner.filled, inner.inner.pos, inner.inner.calls)
    }

    /** In step, and the buffer reaches from `From()` to where the reader stands. */
    ghost predicate Holds(at: nat)
      reads this, inner, inner.inner, inner.data
    {
      Valid() && From() <= at <= inner.inner.pos
    }

    ghost function From(): nat
      reads inner, inner.inner
    {
      if inner.filled <= inner.inner.pos then inner.inner.pos - inner.filled else 0
    }

    /** The buffer is kept, the reader was not called, and the cursor alone has moved. */
    ghost predicate Kept(was: (nat, nat, nat, nat), move: int)
      reads this, inner, inner.inner
    {
      was.0 + move == Buffer().0 && Buffer() == (Buffer().0, was.1, was.2, was.3)
    }

    /** Reads what a bare reader at this position reads, short of it at most, and from the buffer while it lasts. */
    method Read(room: nat) returns (r: Result<Bytes>)
      requires Formed()
      modifies this`pos, inner`cursor, inner`filled, inner.data, inner.inner`pos, inner.inner`turns, inner.inner`calls
      ensures Formed() && (old(Valid()) ==> Valid())
      ensures r.Ok? && old(Valid()) ==>
        && |r.value| <= room && Reads(Content(), old(pos), r.value)
        && pos == old(pos) + |r.value| && (r.value == [] ==> room == 0 || old(pos) >= |Content()|)
      ensures r.Err? ==> r.error == Io(Failed) && pos == old(pos)
      ensures old(inner.cursor) < old(inner.filled) ==>
        && r.Ok? && |r.value| == Min(room, old(inner.filled) - old(inner.cursor)) && Kept(old(Buffer()), |r.value|)
      ensures Fails(inner.inner.turns) + (if r.Err? then 1 else 0) <= Fails(old(inner.inner.turns))
      ensures old(Steadfast(inner.inner.turns)) ==> Steadfast(inner.inner.turns)
    {
      var bytes :- inner.Read(room);
      pos := Min(pos + |bytes|, U64_LIMIT - 1);
      return Ok(bytes);
    }

    /**
     In step, goes where a bare reader at this position goes, and a refused seek leaves the
     position. A seek that fails stays in step if the reader underneath did not move. If it
     did: a target that is no offset from here is then out of step; after one that is, the
     position is asked for, and it is in step exactly if the buffer is still the reader's,
     as an empty one is. A seek from the end that succeeds is in step again.
     */
    method Seek(target: Target) returns (r: Result<nat>, panics: bool, ghost asked: bool)
      requires Formed() && target.Formed()
      modifies this`pos, inner`cursor, inner`filled, inner.inner`pos, inner.inner`turns, inner.inner`calls
      ensures Formed()
      ensures !panics && r.Ok? ==> pos == r.value
      ensures !panics && r.Ok? && old(Valid()) ==> Valid() && r == target.Of(|Content()|, old(pos))
      ensures !panics && r == Err(Io(InvalidData)) && old(Valid()) ==>
        Valid() && pos == old(pos) && r == target.Of(|Content()|, old(pos))
      ensures !panics && r.Err? ==> r.error == Io(Failed) || r.error == Io(InvalidData)
      ensures old(Steadfast(inner.inner.turns)) && old(Valid()) ==> !panics && Valid() && (r.Err? ==> pos == old(pos))
      // A seek that lands inside the buffer keeps it and calls nothing.
      ensures
        var move := Relative(target, old(pos));
        move.Some? && 0 <= old(inner.cursor) + move.value <= old(inner.filled) && old(Valid()) ==>
          !panics && r == Ok(old(pos) + move.value) && Kept(old(Buffer()), move.value)
      // What a failed seek leaves when the reader may have moved.
      ensures !panics && r == Err(Io(Failed)) && old(Valid()) && Relative(target, old(pos)).None? ==>
        pos == old(pos) && (Valid() <==> inner.inner.pos == old(inner.inner.pos))
      ensures !panics && r == Err(Io(Failed)) && Relative(target, old(pos)).Some? && asked ==>
        pos == inner.Pos() && (Valid() <==> inner.Valid()) && (inner.filled == 0 ==> Valid())
      ensures panics ==> Relative(target, old(pos)).Some? && inner.Pos() < 0
      // A target that is no offset from here is gone to from anywhere.
      ensures !panics && r.Ok? && Relative(target, old(pos)).None? ==> Valid() && r == target.Of(|Content()|, 0)
      ensures Fails(inner.inner.turns) + (if !panics && r == Err(Io(Failed)) then 1 else 0)
        <= Fails(old(inner.inner.turns))
      ensures old(Steadfast(inner.inner.turns)) ==> Steadfast(inner.inner.turns)
    {
      panics, asked := false, false;
      var move := Relative(target, pos);
      if move.None? {
        r := inner.Seek(target);
        if r.Ok? {
          pos := r.value;
        }
        return;
      }
      RelativeIsTheSame(target, pos, |inner.inner.content|);
      r, panics, asked := MoveBy(move.value);
    }

    /** A seek made relative. */
    method MoveBy(move: int) returns (r: Result<nat>, panics: bool, ghost asked: bool)
      requires Formed() && FromCurrent(move).Formed()
      modifies this`pos, inner`cursor, inner`filled, inner.inner`pos, inner.inner`turns, inner.inner`calls
      ensures Formed()
      ensures !panics && r.Ok? ==> pos == r.value
      ensures !panics && r.Ok? && old(Valid()) ==> Valid() && r == FromCurrent(move).Of(|Content()|, old(pos))
      ensures !panics && r == Err(Io(InvalidData)) && old(Valid()) ==>
        Valid() && pos == old(pos) && r == FromCurrent(move).Of(|Content()|, old(pos))
      ensures !panics && r.Err? ==> r.error == Io(Failed) || r.error == Io(InvalidData)
      ensures old(Steadfast(inner.inner.turns)) && old(Valid()) ==> !panics && Valid() && (r.Err? ==> pos == old(pos))
      ensures !panics && r == Err(Io(Failed)) && asked ==>
        pos == inner.Pos() && (Valid() <==> inner.Valid()) && (inner.filled == 0 ==> Valid())
      ensures panics ==> inner.Pos() < 0
      ensures 0 <= old(inner.cursor) + move <= old(inner.filled) && old(Valid()) ==>
        !panics && r == Ok(old(pos) + move) && Kept(old(Buffer()), move)
      ensures Fails(inner.inner.turns) + (if !panics && r == Err(Io(Failed)) then 1 else 0)
        <= Fails(old(inner.inner.turns))
      ensures old(Steadfast(inner.inner.turns)) ==> Steadfast(inner.inner.turns)
    {
      panics, asked := false, false;
      var moved := inner.SeekRelative(move);
      if moved.Err? {
        r, panics, asked := AskWhere(moved.error);
      } else {
        r := Advance(move);
      }
    }

    /** The logical position, where that is a number a `u64` holds. */
    method Advance(move: int) returns (r: Result<nat>)
      requires pos < U64_LIMIT
      modifies this`pos
      ensures r == if 0 <= old(pos) + move < U64_LIMIT then Ok(old(pos) + move) else Err(Io(InvalidData))
      ensures pos == if r.Ok? then r.value else old(pos)
    {
      var to := pos + move;
      if !(0 <= to < U64_LIMIT) {
        return Err(Io(InvalidData));
      }
      pos := to;
      r := Ok(pos);
    }

    /** A failed relative seek leaves the position unknown: ask the reader. */
    method AskWhere(failed: Error) returns (r: Result<nat>, panics: bool, ghost asked: bool)
      requires Formed()
      modifies this`pos, inner.inner`pos, inner.inner`turns, inner.inner`calls
      ensures Formed() && (panics ==> inner.Pos() < 0 && !asked)
      ensures asked ==> r == Err(failed) && pos == inner.Pos() && inner.inner.pos == old(inner.inner.pos)
      ensures !panics && !asked ==> r == Err(Io(Failed)) && pos == old(pos)
      ensures old(Steadfast(inner.inner.turns)) ==>
        Steadfast(inner.inner.turns) && inner.inner.pos == old(inner.inner.pos)
      ensures panics ==> inner.inner.pos == old(inner.inner.pos)
      ensures Fails(inner.inner.turns) + (if !panics && !asked then 1 else 0) <= Fails(old(inner.inner.turns))
    {
      asked := false;
      r, panics := inner.StreamPosition();
      if panics || r.Err? {
        return;
      }
      pos, asked := r.value, true;
      r := Err(failed);
    }
  }

  /** `new`: where the caller's reader stands is where the logical position starts. */
  method NewSeekBufReader(reader: Bare) returns (r: Result<SeekBufReader>)
    requires reader.pos < U64_LIMIT && |reader.content| < U64_LIMIT
    modifies reader`pos, reader`turns, reader`calls
    ensures r.Ok? ==>
      && fresh(r.value) && fresh(r.value.inner) && fresh(r.value.inner.data) && r.value.inner.inner == reader
      && r.value.Valid() && r.value.pos == old(reader.pos)
    ensures r.Err? ==> r.error == Io(Failed) && (old(Steadfast(reader.turns)) ==> reader.pos == old(reader.pos))
    ensures Fails(reader.turns) + (if r.Err? then 1 else 0) <= Fails(old(reader.turns))
  {
    var at :- reader.Seek(FromCurrent(0));
    var inner := new Buffered(reader);
    var buffered := new SeekBufReader(inner, at);
    return Ok(buffered);
  }

  /** A target as an offset from the position, when there is one that fits. */
  function Relative(target: Target, pos: nat): (move: Option<int>)
    ensures move.Some? && target.Formed() ==> I64_MIN <= move.value <= I64_MAX
  {
    match target
    case FromStart(to) => if I64_MIN <= to - pos <= I64_MAX then Some(to - pos) else None
    case FromCurrent(offset) => Some(offset)
    case FromEnd(_) => None
  }

  lemma RelativeIsTheSame(target: Target, pos: nat, len: nat)
    ensures var move := Relative(target, pos); move.Some? ==>
      FromCurrent(move.value).Of(len, pos) == target.Of(len, pos)
  {
  }

  // ----- over a whole run -----

  datatype Op = ReadOp(room: nat) | SeekOp(target: Target) {

    predicate Formed() {
      SeekOp? ==> target.Formed()
    }
  }

  /** `Refused` is a seek to nowhere; `IoError` is the reader underneath failing. */
  datatype Answer = Got(bytes: Bytes) | At(pos: nat) | Refused | IoError | Panic {

    /**
     The answer a bare reader gives at a position, where a read may stop short of all it
     could and any call may fail.
     */
    predicate FromBare(op: Op, content: Bytes, pos: nat) {
      if IoError? then true
      else if op.ReadOp? then
        && Got? && |bytes| <= op.room && Reads(content, pos, bytes)
        && (bytes == [] ==> op.room == 0 || pos >= |content|)
      else
        this == if op.target.Of(|content|, pos).Ok? then At(op.target.Of(|content|, pos).value) else Refused
    }

    /** Where that answer leaves it. */
    function After(pos: nat): nat {
      match this
      case Got(bytes) => pos + |bytes|
      case At(to) => to
      case _ => pos
    }
  }

  function Failures(answers: seq<Answer>): nat {
    if answers == [] then 0 else (if answers[0].IoError? then 1 else 0) + Failures(answers[1..])
  }

  lemma {:induction false} FailuresGrow(answers: seq<Answer>, answer: Answer)
    ensures Failures(answers + [answer]) == Failures(answers) + if answer.IoError? then 1 else 0
    decreases |answers|
  {
    if answers == [] {
      assert [] + [answer] == [answer] && [answer][1..] == [];
    } else {
      FailuresGrow(answers[1..], answer);
      assert (answers + [answer])[1..] == answers[1..] + [answer];
    }
  }

  /** Whether the reader is in step between two calls, and where. */
  datatype Point = Point(inStep: bool, pos: nat)

  /** What one call keeps, and what it puts right. */
  predicate Step(op: Op, answer: Answer, content: Bytes, a: Point, b: Point) {
    // In step, every answer is a bare reader's, unless a failed seek ends in a panic.
    && (a.inStep && !answer.Panic? ==> answer.FromBare(op, content, a.pos))
    // Only a seek that fails can put it out of step.
    && (a.inStep && !(op.SeekOp? && (answer.IoError? || answer.Panic?)) ==> b == Point(true, answer.After(a.pos)))
    && (answer.Panic? ==> op.SeekOp?)
    // And a seek that succeeds and is no offset from here puts it in step again.
    && (op.SeekOp? && Relative(op.target, a.pos).None? && answer.At? ==>
      b == Point(true, answer.pos) && op.target.Of(|content|, 0) == Ok(answer.pos))
  }

  // ----- what stays inside the buffer -----

  /** Where an operation leaves the position when it stays between `from` and `to`. */
  function Landing(op: Op, pos: nat, from: nat, to: nat): (at: Option<nat>)
    requires from <= pos <= to
    ensures at.Some? ==> from <= at.value <= to
  {
    match op
    case ReadOp(room) => if pos < to then Some(pos + Min(room, to - pos)) else None
    case SeekOp(target) =>
      var move := Relative(target, pos);
      if move.Some? && from <= pos + move.value <= to then Some(pos + move.value) else None
  }

  /** Every operation of a run does. */
  predicate Inside(ops: seq<Op>, pos: nat, from: nat, to: nat)
    requires from <= pos <= to
  {
    ops == [] || (
      var at := Landing(ops[0], pos, from, to);
      at.Some? && Inside(ops[1..], at.value, from, to))
  }

  /** A run: a step for every operation, up to a panic. */
  predicate Traced(ops: seq<Op>, answers: seq<Answer>, content: Bytes, points: seq<Point>) {
    && |answers| <= |ops| && |points| == |answers| + 1
    && (forall i :: 0 <= i < |answers| ==> Step(ops[i], answers[i], content, points[i], points[i + 1]))
    && (forall i :: 0 <= i < |answers| && answers[i].Panic? ==> i == |answers| - 1)
    && (|answers| < |ops| ==> answers != [] && answers[|answers| - 1].Panic?)
  }

  /** Answers a bare reader could have given to the operations, one after the other. */
  predicate BareRun(ops: seq<Op>, answers: seq<Answer>, content: Bytes, pos: nat)
    decreases |ops|
  {
    if ops == [] then answers == []
    else
      && answers != [] && answers[0].FromBare(ops[0], content, pos)
      && BareRun(ops[1..], answers[1..], content, answers[0].After(pos))
  }

  function EndOf(answers: seq<Answer>, pos: nat): nat
    decreases |answers|
  {
    if answers == [] then pos else EndOf(answers[1..], answers[0].After(pos))
  }

  predicate StaysInStep(answer: Answer, a: Point, b: Point) {
    b.inStep && !answer.Panic? && (answer.IoError? ==> b.pos == a.pos)
  }

  /** In step all along, and left where it was by what fails. */
  predicate InStep(answers: seq<Answer>, points: seq<Point>) {
    |points| == |answers| + 1 && points[0].inStep
    && forall i :: 0 <= i < |answers| ==> StaysInStep(answers[i], points[i], points[i + 1])
  }

  /** A run in step all along is a bare reader's. */
  lemma {:induction false} InStepIsBare(ops: seq<Op>, answers: seq<Answer>, content: Bytes, points: seq<Point>)
    requires Traced(ops, answers, content, points) && InStep(answers, points)
    ensures |answers| == |ops| && BareRun(ops, answers, content, points[0].pos)
    ensures EndOf(answers, points[0].pos) == points[|answers|].pos
    decreases |ops|
  {
    if answers != [] {
      assert Step(ops[0], answers[0], content, points[0], points[1]) && StaysInStep(answers[0], points[0], points[1]);
      assert points[1].pos == answers[0].After(points[0].pos);
      InStepIsBare(ops[1..], answers[1..], content, points[1..]);
    }
  }

  /**
   Any run of reads and seeks, over a reader that may read short and fail at any call, and
   whose failing seeks may move it. `points` is where it was in step. If no failing seek
   moves it, the run is a bare reader's throughout, and both end at one place. No call
   fails that the reader underneath did not fail first.
   */
  method Replay(r: SeekBufReader, ops: seq<Op>) returns (answers: seq<Answer>, ghost points: seq<Point>)
    requires r.Formed() && forall op :: op in ops ==> op.Formed()
    modifies r, r.inner, r.inner.data, r.inner.inner
    ensures r.Formed() && Traced(ops, answers, r.Content(), points)
    ensures points[0] == Point(old(r.Valid()), old(r.pos)) && points[|answers|] == Point(r.Valid(), r.pos)
    ensures old(r.Valid()) && old(Steadfast(r.inner.inner.turns)) ==>
      && r.Valid() && |answers| == |ops| && BareRun(ops, answers, r.Content(), old(r.pos))
      && r.pos == EndOf(answers, old(r.pos))
    ensures Failures(answers) + Fails(r.inner.inner.turns) <= Fails(old(r.inner.inner.turns))
    // A run that stays inside what was last read makes no call at all on the reader.
    ensures old(r.Holds(r.pos)) && Inside(ops, old(r.pos), old(r.From()), old(r.inner.inner.pos)) ==>
      r.inner.inner.calls == old(r.inner.inner.calls) && |answers| == |ops| && Failures(answers) == 0
  {
    answers := [];
    ghost var calls, from, to := r.inner.inner.calls, r.From(), r.inner.inner.pos;
    ghost var inside := r.Holds(r.pos) && Inside(ops, r.pos, from, to);
    points := [Point(r.Valid(), r.pos)];
    ghost var content, fails := r.Content(), Fails(r.inner.inner.turns);
    ghost var steadfast, start := r.Valid() && Steadfast(r.inner.inner.turns), points[0];
    for i := 0 to |ops|
      invariant r.Formed() && |answers| == i && Failures(answers) + Fails(r.inner.inner.turns) <= fails
      invariant So(ops, answers, content, points) && points[0] == start && points[i] == Point(r.Valid(), r.pos)
      invariant steadfast ==> r.Valid() && Steadfast(r.inner.inner.turns) && InStep(answers, points)
      invariant inside ==>
        && r.Holds(r.pos) && r.From() == from && r.inner.inner.pos == to && r.inner.inner.calls == calls
        && Inside(ops[i..], r.pos, from, to) && Failures(answers) == 0
    {
      assert inside ==> ops[i..][0] == ops[i] && ops[i..][1..] == ops[i + 1..];
      var answer := Perform(r, ops[i]);
      FailuresGrow(answers, answer);
      SoGoesOn(ops, answers, content, points, answer, Point(r.Valid(), r.pos));
      answers, points := answers + [answer], points + [Point(r.Valid(), r.pos)];
      if answer.Panic? {
        return;
      }
    }
    if steadfast {
      InStepIsBare(ops, answers, content, points);
    }
  }

  /** A run so far, no call having ended in a panic. */
  ghost predicate So(ops: seq<Op>, answers: seq<Answer>, content: Bytes, points: seq<Point>) {
    && |answers| <= |ops| && |points| == |answers| + 1
    && (forall i :: 0 <= i < |answers| ==>
      !answers[i].Panic? && Step(ops[i], answers[i], content, points[i], points[i + 1]))
  }

  lemma SoGoesOn(ops: seq<Op>, answers: seq<Answer>, content: Bytes, points: seq<Point>, answer: Answer, now: Point)
    requires So(ops, answers, content, points) && |answers| < |ops|
    requires Step(ops[|answers|], answer, content, points[|answers|], now)
    ensures
      if answer.Panic? then Traced(ops, answers + [answer], content, points + [now])
      else So(ops, answers + [answer], content, points + [now])
    ensures InStep(answers, points) && StaysInStep(answer, points[|answers|], now) ==>
      InStep(answers + [answer], points + [now])
  {
  }

  /** One operation. */
  method Perform(r: SeekBufReader, op: Op) returns (answer: Answer)
    requires r.Formed() && op.Formed()
    modifies r, r.inner, r.inner.data, r.inner.inner
    ensures r.Formed()
    ensures Step(op, answer, r.Content(), old(Point(r.Valid(), r.pos)), Point(r.Valid(), r.pos))
    ensures old(r.Valid()) && old(Steadfast(r.inner.inner.turns)) ==>
      r.Valid() && !answer.Panic? && (answer.IoError? ==> r.pos == old(r.pos))
    ensures old(Steadfast(r.inner.inner.turns)) ==> Steadfast(r.inner.inner.turns)
    ensures Fails(r.inner.inner.turns) + (if answer.IoError? then 1 else 0) <= Fails(old(r.inner.inner.turns))
    ensures old(r.Holds(r.pos)) && Landing(op, old(r.pos), old(r.From()), old(r.inner.inner.pos)).Some? ==>
      && r.Holds(r.pos) && r.From() == old(r.From()) && r.inner.inner.pos == old(r.inner.inner.pos)
      && r.inner.inner.calls == old(r.inner.inner.calls) && !answer.IoError? && !answer.Panic?
      && Some(r.pos) == Landing(op, old(r.pos), old(r.From()), old(r.inner.inner.pos))
  {
    match op {
      case ReadOp(room) =>
        var got := r.Read(room);
        answer := if got.Ok? then Got(got.value) else IoError;
      case SeekOp(target) =>
        ghost var asked;
        var to, panics;
        to, panics, asked := r.Seek(target);
        if panics {
          return Panic;
        }
        answer := if to.Ok? then At(to.value) else if to.error == Io(Failed) then IoError else Refused;
    }
  }
}
