/**
 The caller's reader and writer, and `read_full`. A reader may return short, be
 interrupted, fail, or have its content replaced between two reads; a writer may run out
 of room. Both record what passes through them in one journal.
 */
module Streams {
  import opened Errors
  import opened Octets

  /** What has passed between the program and the outside so far. */
  class Journal {
    /** Every byte handed out by the reader, in order. */
    ghost var consumed: Bytes
    /** How much had been read each time the reader reported its end. */
    ghost var ends: set<nat>
    /** Every byte the writer took, in order. */
    ghost var written: Bytes
    /** How much had been read when the writer was first called with anything. */
    ghost var firstOut: Option<nat>

    constructor ()
      ensures consumed == written == [] && ends == {} && firstOut == None
    {
      consumed, ends, written, firstOut := [], {}, [], None;
    }

    /** An end is reported at what has been read. */
    ghost predicate Valid()
      reads this
    {
      forall e :: e in ends ==> e <= |consumed|
    }

    /** The journal only ever grows. */
    ghost predicate Since(consumed: Bytes, ends: set<nat>)
      reads this
    {
      consumed <= this.consumed && ends <= this.ends
    }
  }

  /** The ends after reading up to `at`: one more if the reader reported its end there. */
  ghost predicate EndsAt(before: set<nat>, ends: set<nat>, at: nat, ended: bool) {
    ends == before + if ended then {at} else {}
  }

  /** What one call to the reader meets. With none left it reads all it can. */
  datatype Turn = Short(most: nat) | Interrupt | Fail | Change(content: Bytes)

  /** What a reader holds, where it stands, and what its calls will meet. */
  datatype ReaderState = ReaderState(content: Bytes, pos: nat, turns: seq<Turn>) {

    /** The bytes from the position to the end. */
    function Rest(): (rest: Bytes)
      ensures pos == 0 ==> rest == content
    {
      if pos <= |content| then content[pos..] else []
    }

    function Start(): ReaderState {
      this.(pos := 0)
    }

    /** The content stays what it is, though reads may fail. */
    ghost predicate Unchanging() {
      forall t :: t in turns ==> !t.Change?
    }

    /** No read will fail and the content will not change. Short and interrupted reads may come. */
    ghost predicate Steady() {
      forall t :: t in turns ==> t.Short? || t.Interrupt?
    }
  }

  // ----- what a reader does, as a function of its state -----

  /** One call: bytes, none of them at the end, or an interruption or a failure. */
  datatype Serving =
    | Gave(bytes: Bytes, after: ReaderState)
    | Interrupted(after: ReaderState)
    | Broken(after: ReaderState)

  function Give(s: ReaderState, most: nat): (v: Serving)
    ensures v.Gave? && |v.bytes| <= most && v.after.turns == s.turns && v.after.content == s.content
    ensures s.Rest() == v.bytes + v.after.Rest() && (v.bytes == [] && most > 0 ==> s.Rest() == [])
  {
    var bytes := Take(s.Rest(), most);
    Gave(bytes, s.(pos := s.pos + |bytes|))
  }

  /** A call that meets a turn. */
  function Meets(s: ReaderState, turn: Turn, room: nat): (v: Serving)
    requires !turn.Change? && room > 0
    ensures v.Gave? ==> |v.bytes| <= room
    ensures v.after.turns == s.turns && v.after.content == s.content
    ensures s.Rest() == (if v.Gave? then v.bytes else []) + v.after.Rest()
    ensures v.Gave? && v.bytes == [] ==> s.Rest() == []
    ensures v.Broken? <==> turn.Fail?
  {
    match turn
    case Short(most) => Give(s, if most == 0 then 1 else Min(most, room))
    case Interrupt => Interrupted(s)
    case Fail => Broken(s)
  }

  function Served(s: ReaderState, room: nat): (v: Serving)
    requires room > 0
    ensures v.Gave? ==> |v.bytes| <= room
    ensures |v.after.turns| <= |s.turns| && (s.turns != [] ==> |v.after.turns| < |s.turns|)
    ensures s.turns == [] ==> v == Give(s, room)
    decreases |s.turns|
  {
    if s.turns == [] then Give(s, room)
    else
      var later := s.(turns := s.turns[1..]);
      if s.turns[0].Change? then Served(later.(content := s.turns[0].content), room)
      else Meets(later, s.turns[0], room)
  }

  /** What `read_full` gets: short of what it asked for at the end only, or up to a failure. */
  datatype Delivery = Delivery(bytes: Bytes, failed: bool, after: ReaderState) {

    function Behind(read: Bytes): Delivery {
      this.(bytes := read + bytes)
    }

    /** The reader reported its end. */
    predicate Ended(cap: nat) {
      !failed && |bytes| < cap
    }
  }

  /** Calls are made until `cap` bytes are there or one gives none; an interrupted one is made again. */
  function Delivered(s: ReaderState, cap: nat): (d: Delivery)
    ensures |d.bytes| <= cap && |d.after.turns| <= |s.turns|
    ensures cap > 0 && s.turns != [] ==> |d.after.turns| < |s.turns|
    ensures s.turns == [] ==> !d.failed && s.Rest() == d.bytes + d.after.Rest()
    decreases cap, |s.turns|
  {
    if cap == 0 then Delivery([], false, s)
    else
      var v := Served(s, cap);
      if v.Interrupted? then Delivered(v.after, cap)
      else if v.Broken? || v.bytes == [] then Delivery([], v.Broken?, v.after)
      else Delivered(v.after, cap - |v.bytes|).Behind(v.bytes)
  }

  /** What a call gives of a content that stays what it is. */
  lemma {:induction false} UnchangingServes(s: ReaderState, room: nat, v: Serving)
    requires room > 0 && s.Unchanging() && v == Served(s, room)
    ensures v.after.content == s.content && v.after.Unchanging() && (s.Steady() ==> !v.Broken? && v.after.Steady())
    ensures s.Rest() == (if v.Gave? then v.bytes else []) + v.after.Rest()
    ensures v.Gave? && v.bytes == [] ==> s.Rest() == []
  {
    if s.turns != [] {
      assert s.turns[0] in s.turns;
    }
  }

  /** All that was asked for, or all there is, unless a call fails; and the rest stays to be read. */
  ghost predicate AllOrRest(s: ReaderState, cap: nat, d: Delivery) {
    && d.after.content == s.content && d.after.Unchanging() && (s.Steady() ==> !d.failed && d.after.Steady())
    && s.Rest() == d.bytes + d.after.Rest() && (d.Ended(cap) ==> d.after.Rest() == [])
  }

  /** A delivery of nothing, at its end or at a failure. */
  lemma NothingMore(s: ReaderState, cap: nat, after: ReaderState, d: Delivery)
    requires after.content == s.content && after.Unchanging() && (s.Steady() ==> !d.failed && after.Steady())
    requires s.Rest() == [] + after.Rest() && d == Delivery([], d.failed, after)
    requires cap > 0 && !d.failed ==> s.Rest() == []
    ensures AllOrRest(s, cap, d)
  {
  }

  lemma AllOrRestMore(s: ReaderState, cap: nat, bytes: Bytes, after: ReaderState, left: nat, d: Delivery)
    requires cap == |bytes| + left && after.content == s.content && (s.Steady() ==> after.Steady())
    requires s.Rest() == bytes + after.Rest() && AllOrRest(after, left, d)
    ensures AllOrRest(s, cap, d.Behind(bytes))
  {
    Regroup(bytes, d.bytes, d.after.Rest());
  }

  lemma NothingInFront(s: ReaderState, cap: nat, after: ReaderState, d: Delivery)
    requires after.content == s.content && (s.Steady() ==> after.Steady()) && s.Rest() == [] + after.Rest()
    requires AllOrRest(after, cap, d)
    ensures AllOrRest(s, cap, d)
  {
    assert [] + after.Rest() == after.Rest();
  }

  /** A call that ends a delivery. */
  lemma DeliveredEnds(s: ReaderState, cap: nat, d: Delivery, v: Serving)
    requires cap > 0 && d == Delivered(s, cap) && v == Served(s, cap) && (v.Broken? || (v.Gave? && v.bytes == []))
    ensures d == Delivery([], v.Broken?, v.after)
  {
  }

  /** And one that goes on with it. */
  lemma DeliveredMore(s: ReaderState, cap: nat, d: Delivery, v: Serving, left: nat)
    requires cap > 0 && d == Delivered(s, cap) && v == Served(s, cap)
    requires v.Gave? && v.bytes != [] && cap == |v.bytes| + left
    ensures d == Delivered(v.after, left).Behind(v.bytes)
  {
    assert left == cap - |v.bytes|;
  }

  lemma UnchangingStops(s: ReaderState, cap: nat, d: Delivery, v: Serving)
    requires cap > 0 && s.Unchanging() && d == Delivered(s, cap) && v == Served(s, cap)
    requires v.Broken? || (v.Gave? && v.bytes == [])
    ensures AllOrRest(s, cap, d)
  {
    UnchangingServes(s, cap, v);
    DeliveredEnds(s, cap, d, v);
    NothingMore(s, cap, v.after, d);
  }

  lemma UnchangingGoesOn(s: ReaderState, cap: nat, d: Delivery, v: Serving, left: nat, more: Delivery)
    requires cap > 0 && s.Unchanging() && d == Delivered(s, cap) && v == Served(s, cap)
    requires v.Gave? && v.bytes != [] && cap == |v.bytes| + left
    requires more == Delivered(v.after, left) && AllOrRest(v.after, left, more)
    ensures AllOrRest(s, cap, d)
  {
    UnchangingServes(s, cap, v);
    DeliveredMore(s, cap, d, v, left);
    AllOrRestMore(s, cap, v.bytes, v.after, left, more);
  }

  lemma UnchangingAgain(s: ReaderState, cap: nat, d: Delivery, v: Serving)
    requires cap > 0 && s.Unchanging() && v == Served(s, cap) && v.Interrupted? && AllOrRest(v.after, cap, d)
    ensures AllOrRest(s, cap, d)
  {
    UnchangingServes(s, cap, v);
    NothingInFront(s, cap, v.after, d);
  }

  /** What `read_full` gets of a content that stays what it is. */
  lemma {:induction false} UnchangingDelivers(s: ReaderState, cap: nat, d: Delivery)
    requires s.Unchanging() && d == Delivered(s, cap)
    ensures AllOrRest(s, cap, d)
    decreases cap, |s.turns|
  {
    if cap == 0 {
      NothingMore(s, cap, s, d);
    } else {
      var v := Served(s, cap);
      UnchangingServes(s, cap, v);
      if v.Interrupted? {
        UnchangingDelivers(v.after, cap, d);
        UnchangingAgain(s, cap, d, v);
      } else if v.Gave? && v.bytes != [] {
        var left := cap - |v.bytes|;
        var more := Delivered(v.after, left);
        UnchangingDelivers(v.after, left, more);
        UnchangingGoesOn(s, cap, d, v, left, more);
      } else {
        UnchangingStops(s, cap, d, v);
      }
    }
  }

  // ----- the reader -----

  datatype ReadOutcome = Read(n: nat) | Stopped | Lost

  class ByteStream {
    const journal: Journal
    var content: Bytes
    var pos: nat
    var turns: seq<Turn>

    constructor (journal: Journal, content: Bytes, turns: seq<Turn>)
      ensures this.journal == journal && this.content == content && pos == 0 && this.turns == turns
    {
      this.journal, this.content, pos, this.turns := journal, content, 0, turns;
    }

    function State(): ReaderState
      reads this
    {
      ReaderState(content, pos, turns)
    }

    ghost predicate Steady()
      reads this
    {
      State().Steady()
    }

    method SeekStart()
      modifies this`pos
      ensures State() == old(State()).Start()
    {
      pos := 0;
    }

    method SeekEnd() returns (len: nat)
      modifies this`pos
      ensures pos == len == |content|
    {
      pos := |content|;
      len := |content|;
    }

    /** Consume turns up to the one that decides this read; `Read(n)` is leave to read `n`. */
    method NextTurn(room: nat) returns (r: ReadOutcome)
      requires 0 < room
      modifies this`content, this`turns
      ensures r.Read? ==> 0 < r.n <= room && Served(old(State()), room) == Give(State(), r.n)
      ensures r.Stopped? ==> Served(old(State()), room) == Interrupted(State())
      ensures r.Lost? ==> Served(old(State()), room) == Broken(State())
    {
      while turns != []
        invariant Served(State(), room) == Served(old(State()), room)
        decreases |turns|
      {
        var turn := turns[0];
        turns := turns[1..];
        match turn {
          case Interrupt => return Stopped;
          case Fail => return Lost;
          case Change(c) => content := c;
          case Short(n) => return Read(if n == 0 then 1 else Min(n, room));
        }
      }
      return Read(room);
    }

    /** `read` into `buf[at..at + room]`. */
    method ReadInto(buf: array<Byte>, at: nat, room: nat) returns (v: Serving)
      requires 0 < room && at + room <= buf.Length
      modifies this`content, this`pos, this`turns, journal`consumed, journal`ends, buf
      ensures v == Served(old(State()), room) && State() == v.after
      ensures v.Gave? ==>
        && buf[..] == Spliced(old(buf[..]), at, v.bytes)
        && journal.consumed == old(journal.consumed) + v.bytes
        && EndsAt(old(journal.ends), journal.ends, |journal.consumed|, v.bytes == [])
      ensures !v.Gave? ==> unchanged(buf) && unchanged(journal)
    {
      var outcome := NextTurn(room);
      match outcome {
        case Stopped => return Interrupted(State());
        case Lost => return Broken(State());
        case Read(n) => v := Give(State(), n);
      }
      Store(buf, at, v.bytes);
      pos := v.after.pos;
      journal.consumed := journal.consumed + v.bytes;
      journal.ends := journal.ends + if v.bytes == [] then {|journal.consumed|} else {};
    }
  }

  method Store(buf: array<Byte>, at: nat, bytes: Bytes)
    requires at + |bytes| <= buf.Length
    modifies buf
    ensures buf[..] == Spliced(old(buf[..]), at, bytes)
  {
    forall i | 0 <= i < |bytes| {
      buf[at + i] := bytes[i];
    }
    assert buf[..at] == old(buf[..])[..at] && buf[at..at + |bytes|] == bytes;
    assert buf[at + |bytes|..] == old(buf[..])[at + |bytes|..];
  }

  /** `bytes` with `piece` written over it from `at` on. */
  function Spliced(bytes: Bytes, at: nat, piece: Bytes): Bytes
    requires at + |piece| <= |bytes|
  {
    bytes[..at] + piece + bytes[at + |piece|..]
  }

  lemma SplicedTwice(bytes: Bytes, a: Bytes, b: Bytes)
    requires |a| + |b| <= |bytes|
    ensures Spliced(Spliced(bytes, 0, a), |a|, b) == Spliced(bytes, 0, a + b)
  {
  }

  /** What is still to come, behind what has been read, makes up the delivery. */
  ghost predicate Delivering(d: Delivery, read: Bytes, s: ReaderState, left: nat) {
    d == Delivered(s, left).Behind(read)
  }

  lemma DeliveryBegins(s: ReaderState, cap: nat)
    ensures Delivering(Delivered(s, cap), [], s, cap)
  {
    assert [] + Delivered(s, cap).bytes == Delivered(s, cap).bytes;
  }

  lemma DeliveryEnds(d: Delivery, read: Bytes, s: ReaderState, left: nat)
    requires Delivering(d, read, s, left)
    ensures left == 0 ==> d == Delivery(read, false, s)
    ensures left > 0 && Served(s, left).Broken? ==> d == Delivery(read, true, Served(s, left).after)
    ensures left > 0 && Served(s, left).Gave? && Served(s, left).bytes == [] ==>
      d == Delivery(read, false, Served(s, left).after)
  {
    assert read + [] == read;
  }

  lemma DeliveryAgain(d: Delivery, read: Bytes, s: ReaderState, left: nat, after: ReaderState)
    requires Delivering(d, read, s, left) && left > 0 && Served(s, left) == Interrupted(after)
    ensures Delivering(d, read, after, left)
  {
  }

  lemma DeliveryGoesOn(d: Delivery, read: Bytes, s: ReaderState, left: nat, bytes: Bytes, after: ReaderState, rest: nat)
    requires Delivering(d, read, s, left) && left > 0 && Served(s, left) == Gave(bytes, after) && bytes != []
    requires rest == left - |bytes|
    ensures Delivering(d, read + bytes, after, rest)
  {
    BehindTwice(Delivered(after, rest), read, bytes);
  }

  lemma BehindTwice(d: Delivery, a: Bytes, b: Bytes)
    ensures d.Behind(b).Behind(a) == d.Behind(a + b)
  {
    Regroup(a, b, d.bytes);
  }

  /** Where a `read_full` began. */
  datatype Outset = Outset(buf: Bytes, consumed: Bytes, ends: set<nat>)

  /** The loop of `read_full`: what has been read is at the front of the buffer and in the journal. */
  ghost predicate Filling(reader: ByteStream, buf: array<Byte>, from: Outset, read: Bytes)
    reads reader.journal, buf
  {
    && |read| <= |from.buf| == buf.Length && buf[..] == Spliced(from.buf, 0, read)
    && reader.journal.consumed == from.consumed + read && reader.journal.ends == from.ends
  }

  /** And when it is over. */
  ghost predicate Delivers(reader: ByteStream, buf: array<Byte>, from: Outset, d: Delivery, cap: nat)
    reads reader, reader.journal, buf
  {
    && reader.State() == d.after && reader.journal.consumed == from.consumed + d.bytes
    && |d.bytes| <= |from.buf| == buf.Length && buf[..] == Spliced(from.buf, 0, d.bytes)
    && EndsAt(from.ends, reader.journal.ends, |reader.journal.consumed|, d.Ended(cap))
  }

  /** One `read` of the loop: an interrupted one is made again. */
  method ReadAgain(reader: ByteStream, buf: array<Byte>, at: nat, room: nat, ghost from: Outset, ghost d: Delivery,
                   ghost read: Bytes, ghost cap: nat)
    returns (r: Result<nat>, ghost more: Bytes, left: nat)
    requires 0 < room && at + room <= buf.Length && at == |read| && at + room == cap
    requires Filling(reader, buf, from, read) && Delivering(d, read, reader.State(), room)
    modifies reader`content, reader`pos, reader`turns, reader.journal`consumed, reader.journal`ends, buf
    ensures r.Ok? && r.value > 0 ==>
      && left == room - r.value && |more| == at + r.value
      && Filling(reader, buf, from, more) && Delivering(d, more, reader.State(), left)
    ensures r == Ok(0) ==> Delivers(reader, buf, from, d, cap) && !d.failed && |d.bytes| == at
    ensures r.Err? ==> Delivers(reader, buf, from, d, cap) && d.failed && r.error == Io(Failed)
  {
    more, left := read, room;
    ghost var s := reader.State();
    while true
      invariant s == reader.State() && Delivering(d, read, s, room) && Filling(reader, buf, from, read)
      decreases |s.turns|
    {
      DeliveryEnds(d, read, s, room);
      var v := reader.ReadInto(buf, at, room);
      match v {
        case Broken(_) => return Err(Io(Failed)), more, left;
        case Interrupted(after) =>
          DeliveryAgain(d, read, s, room, after);
          s := after;
        case Gave(bytes, after) =>
          SplicedTwice(from.buf, read, bytes);
          Regroup(from.consumed, read, bytes);
          if bytes == [] {
            assert read + [] == read;
            return Ok(0), more, left;
          }
          more, left := read + bytes, room - |bytes|;
          DeliveryGoesOn(d, read, s, room, bytes, after, left);
          return Ok(|bytes|), more, left;
      }
    }
  }

  /** Fill `buf[..cap]`; `take(limit)` over a reader is a smaller `cap`. */
  method ReadFull(reader: ByteStream, buf: array<Byte>, cap: nat) returns (r: Result<nat>)
    requires cap <= buf.Length
    modifies reader`content, reader`pos, reader`turns, reader.journal`consumed, reader.journal`ends, buf
    ensures
      var d := Delivered(old(reader.State()), cap);
      && r == (if d.failed then Err(Io(Failed)) else Ok(|d.bytes|))
      && Delivers(reader, buf, Outset(old(buf[..]), old(reader.journal.consumed), old(reader.journal.ends)), d, cap)
  {
    ghost var from := Outset(buf[..], reader.journal.consumed, reader.journal.ends);
    ghost var d := Delivered(reader.State(), cap);
    DeliveryBegins(reader.State(), cap);
    r := ReadPieces(reader, buf, cap, from, d);
  }

  /** Its loop. */
  method ReadPieces(reader: ByteStream, buf: array<Byte>, cap: nat, ghost from: Outset, ghost d: Delivery)
    returns (r: Result<nat>)
    requires cap <= buf.Length && Filling(reader, buf, from, []) && Delivering(d, [], reader.State(), cap)
    modifies reader`content, reader`pos, reader`turns, reader.journal`consumed, reader.journal`ends, buf
    ensures r == (if d.failed then Err(Io(Failed)) else Ok(|d.bytes|)) && Delivers(reader, buf, from, d, cap)
  {
    ghost var read := [];
    var filled, left := 0, cap;
    while left > 0
      invariant filled == |read| && filled + left == cap
      invariant Delivering(d, read, reader.State(), left) && Filling(reader, buf, from, read)
      decreases left
    {
      ghost var more;
      var n, rest;
      n, more, rest := ReadAgain(reader, buf, filled, left, from, d, read, cap);
      if n.Err? {
        return Err(n.error);
      }
      if n.value == 0 {
        return Ok(filled);
      }
      filled, left, read := filled + n.value, rest, more;
    }
    DeliveryEnds(d, read, reader.State(), 0);
    return Ok(filled);
  }

  /** Writes go through in full or fail once the room is used up, keeping what fitted. */
  class Sink {
    const journal: Journal
    var contents: Bytes
    var room: Option<nat>

    constructor (journal: Journal, room: Option<nat>)
      ensures this.journal == journal && contents == [] && this.room == room
    {
      this.journal, contents, this.room := journal, [], room;
    }

    method WriteAll(data: Bytes) returns (r: Result<()>)
      modifies this`contents, this`room, journal`written, journal`firstOut
      ensures r.Err? ==> r.error == Io(Failed)
      ensures old(room.None?) ==> r.Ok? && room.None?
      ensures r.Ok? ==> contents == old(contents) + data && journal.written == old(journal.written) + data
      ensures r.Err? ==>
        exists n: nat :: n <= |data| && contents == old(contents) + data[..n]
          && journal.written == old(journal.written) + data[..n]
      ensures journal.firstOut ==
        if old(journal.firstOut).None? && data != [] then Some(|journal.consumed|) else old(journal.firstOut)
    {
      var n := if room.Some? then Min(room.value, |data|) else |data|;
      contents := contents + data[..n];
      journal.written := journal.written + data[..n];
      if journal.firstOut.None? && data != [] {
        journal.firstOut := Some(|journal.consumed|);
      }
      if room.Some? {
        room := Some(room.value - n);
      }
      if n < |data| {
        return Err(Io(Failed));
      }
      assert data[..n] == data;
      return Ok(());
    }
  }
}
