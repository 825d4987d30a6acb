/**
 BIFF records and the two walks over them: the strict one a decrypt makes and the lenient
 one that decides whether a workbook is encrypted (`binary_office.rs`).
 */
module Biff {
  import opened Errors
  import opened Octets

  const BOF: nat := 0x0809
  const FILEPASS: nat := 0x002F
  const BOUNDSHEET8: nat := 0x0085

  /** The records whose bodies a writer leaves in the clear: section 2.2.10 of [MS-XLS]. */
  predicate NeverEncrypted(id: nat) {
    id in {BOF, FILEPASS, 0x00E1, 0x0138, 0x0194, 0x0195, 0x0196}
  }

  /** One record's type and where its body lies; the four header bytes are before it. */
  datatype Record = Record(id: nat, start: nat, end: nat) {

    function BodyLen(): nat {
      if start <= end then end - start else 0
    }
  }

  /** The record at a position, if its header can be read and its body fits. */
  function RecordOf(book: Bytes, pos: nat): (r: Option<Record>)
    ensures r.Some? ==> r.value.start == pos + 4 && pos + 4 <= r.value.end <= |book|
  {
    var id, len := ReadLe16(book, pos), ReadLe16(book, pos + 2);
    if id.None? || len.None? || pos + 4 + len.value > |book| then None
    else Some(Record(id.value, pos + 4, pos + 4 + len.value))
  }

  // ----- the strict walk -----

  /** A whole walk: the records, and where it stopped making sense, if it did. */
  datatype Walked = Walked(records: seq<Record>, stop: Option<nat>)

  function Walk(book: Bytes, pos: nat): (w: Walked)
    ensures pos >= |book| ==> w == Walked([], None)
    decreases |book| - pos
  {
    if pos >= |book| then Walked([], None)
    else
      match RecordOf(book, pos)
      case None => Walked([], Some(pos))
      case Some(record) =>
        var rest := Walk(book, record.end);
        Walked([record] + rest.records, rest.stop)
  }

  /** A clean walk is its first record and the walk behind it. */
  lemma WalkStep(book: Bytes, pos: nat)
    requires Walk(book, pos).stop.None? && pos < |book|
    ensures RecordOf(book, pos).Some?
    ensures
      var first, records := RecordOf(book, pos).value, Walk(book, pos).records;
      && records != [] && records[0] == first && records[1..] == Walk(book, first.end).records
      && Walk(book, first.end).stop.None?
  {
  }

  datatype Item = Next(record: Record) | Broken(at: nat) | Exhausted

  /** The iterator: a position, and whether it has failed. */
  class BiffRecords {
    const book: Bytes
    var pos: nat
    var failed: bool

    constructor (book: Bytes)
      ensures this.book == book && pos == 0 && !failed
      ensures Left() == Walk(book, 0)
    {
      this.book, pos, failed := book, 0, false;
    }

    /** What the iterator will still yield. */
    function Left(): Walked
      reads this
    {
      if failed then Walked([], None) else Walk(book, pos)
    }

    method Advance() returns (item: Item)
      modifies this
      ensures match item
        case Next(record) =>
          && old(Left()) == Walked([record] + Left().records, Left().stop)
          && !failed && !old(failed) && record.start == old(pos) + 4
          && RecordOf(book, old(pos)) == Some(record) && pos == record.end
        case Broken(at) => old(Left()) == Walked([], Some(at)) && at == old(pos) && Left() == Walked([], None)
        case Exhausted => old(Left()) == Walked([], None) && Left() == Walked([], None) && (!failed ==> pos >= |book|)
    {
      if failed || pos >= |book| {
        return Exhausted;
      }
      var id, len := ReadLe16(book, pos), ReadLe16(book, pos + 2);
      if id.None? || len.None? {
        failed := true;
        return Broken(pos);
      }
      var start := pos + 4;
      var end := start + len.value;
      if end > |book| {
        failed := true;
        return Broken(pos);
      }
      item := Next(Record(id.value, start, end));
      pos := end;
    }
  }

  function FirstFilepass(records: seq<Record>): (r: Option<Record>)
    ensures r.Some? ==> r.value in records && r.value.id == FILEPASS
  {
    if records == [] then None
    else if records[0].id == FILEPASS then Some(records[0])
    else FirstFilepass(records[1..])
  }

  /** The first record before any FILEPASS that a writer has to encrypt. */
  function FirstStray(records: seq<Record>): Option<nat> {
    if records == [] || records[0].id == FILEPASS then None
    else if !NeverEncrypted(records[0].id) then Some(records[0].id)
    else FirstStray(records[1..])
  }

  /** What a decrypt makes of the whole walk: the one FILEPASS record, or a refusal. */
  function Screen(book: Bytes): (r: Result<Record>)
    ensures r.Ok? ==> r.value in Walk(book, 0).records && r.value.id == FILEPASS
    ensures r.Ok? ==> Walk(book, 0).stop.None?
  {
    var w := Walk(book, 0);
    if w.stop.Some? then Err(BadParameters(BiffRecord, Unreadable(w.stop.value)))
    else if w.records == [] || w.records[0].id != BOF then Err(BadParameters(WorkbookBof, Missing))
    else
      match FirstFilepass(w.records)
      case None => Err(NotEncrypted)
      case Some(filepass) =>
        match FirstStray(w.records)
        case Some(id) => Err(BadParameters(Filepass, OutOfOrder(id)))
        case None => Ok(filepass)
  }

  /** The first pass of `decrypt`: one record and two identifiers kept, nothing collected. */
  method ScreenRecords(book: Bytes) returns (r: Result<Record>)
    ensures r == Screen(book)
  {
    var filepass: Option<Record>, firstId: Option<nat>, outOfOrder: Option<nat> := None, None, None;
    var walk := new BiffRecords(book);
    ghost var w := Walk(book, 0);
    while true
      invariant walk.book == book && fresh(walk) && walk.Left().stop == w.stop
      invariant firstId == None <==> walk.Left().records == w.records
      invariant firstId.Some? ==> w.records != [] && firstId.value == w.records[0].id
      invariant FirstFilepass(w.records) == if filepass.Some? then filepass else FirstFilepass(walk.Left().records)
      invariant FirstStray(w.records) ==
        if filepass.Some? || outOfOrder.Some? then outOfOrder else FirstStray(walk.Left().records)
      decreases |walk.Left().records|
    {
      ghost var left := walk.Left().records;
      var item := walk.Advance();
      match item {
        case Exhausted => break;
        case Broken(at) => return Err(BadParameters(BiffRecord, Unreadable(at)));
        case Next(record) =>
          assert left[0] == record && left[1..] == walk.Left().records;
          if firstId.None? {
            firstId := Some(record.id);
          }
          if filepass.None? {
            if record.id == FILEPASS {
              filepass := Some(record);
            } else if outOfOrder.None? && !NeverEncrypted(record.id) {
              outOfOrder := Some(record.id);
            }
          }
      }
    }
    if firstId != Some(BOF) {
      return Err(BadParameters(WorkbookBof, Missing));
    }
    if filepass.None? {
      return Err(NotEncrypted);
    }
    if outOfOrder.Some? {
      return Err(BadParameters(Filepass, OutOfOrder(outOfOrder.value)));
    }
    return Ok(filepass.value);
  }

  // ----- the lenient walk -----

  datatype Verdict = Found(record: Record) | ProvenAbsent | Undecided

  /** The verdict from a position on; a FILEPASS body cut short is still a FILEPASS. */
  function ScanFrom(book: Bytes, pos: nat): Verdict
    decreases |book| - pos
  {
    var id, len := ReadLe16(book, pos), ReadLe16(book, pos + 2);
    if id.None? || len.None? then Undecided
    else
      var end := pos + 4 + len.value;
      if id.value == FILEPASS then Found(Record(id.value, pos + 4, Min(end, |book|)))
      else if !NeverEncrypted(id.value) then ProvenAbsent
      else if end > |book| then Undecided
      else ScanFrom(book, end)
  }

  function Scan(book: Bytes): Verdict {
    if ReadLe16(book, 0) != Some(BOF) then Undecided else ScanFrom(book, 0)
  }

  method ScanForFilepass(book: Bytes) returns (v: Verdict)
    ensures v == Scan(book)
  {
    if ReadLe16(book, 0) != Some(BOF) {
      return Undecided;
    }
    var pos := 0;
    while true
      invariant ScanFrom(book, pos) == Scan(book)
      decreases |book| - pos
    {
      var id, len := ReadLe16(book, pos), ReadLe16(book, pos + 2);
      if id.None? || len.None? {
        return Undecided;
      }
      var start := pos + 4;
      var end := start + len.value;
      if id.value == FILEPASS {
        return Found(Record(id.value, start, Min(end, |book|)));
      }
      if !NeverEncrypted(id.value) {
        return ProvenAbsent;
      }
      if end > |book| {
        return Undecided;
      }
      pos := end;
    }
  }

  // ----- the two walks against each other -----

  /** Over a stream that walks cleanly, the scan is read off the records. */
  lemma {:induction false} ScanOfRecords(book: Bytes, pos: nat)
    requires Walk(book, pos).stop.None?
    ensures
      var records := Walk(book, pos).records;
      ScanFrom(book, pos) ==
        if FirstStray(records).Some? then ProvenAbsent
        else if FirstFilepass(records).Some? then Found(FirstFilepass(records).value)
        else Undecided
    decreases |book| - pos
  {
    if pos < |book| {
      var record := RecordOf(book, pos).value;
      var records := Walk(book, pos).records;
      assert records[0] == record && records[1..] == Walk(book, record.end).records;
      ScanOfRecords(book, record.end);
    }
  }

  /**
   Detector and decryptor agree. A decrypt gets past its walk exactly when the walk is
   clean and the scan finds the FILEPASS, and it is the same record; and when the walk is
   clean, every refusal of the one is accounted for by the verdict of the other.
   */
  lemma DetectorAgrees(book: Bytes)
    ensures forall record :: Screen(book) == Ok(record) <==> Walk(book, 0).stop.None? && Scan(book) == Found(record)
    ensures Scan(book) == ProvenAbsent ==> Screen(book).Err?
    ensures Walk(book, 0).stop.None? ==>
      match Scan(book)
      case Found(record) => Screen(book) == Ok(record)
      case ProvenAbsent => Screen(book) == Err(NotEncrypted) || Screen(book).error.problem.OutOfOrder?
      case Undecided => Screen(book) == Err(NotEncrypted) || Screen(book) == Err(BadParameters(WorkbookBof, Missing))
  {
    var w := Walk(book, 0);
    if w.stop.None? {
      ScanOfRecords(book, 0);
      if w.records != [] {
        assert w.records[0] == RecordOf(book, 0).value;
      }
    }
  }

  /** Bytes past the ones that decided a scan change nothing. */
  lemma {:induction false} ScanOfPrefix(whole: Bytes, part: Bytes, pos: nat)
    requires part <= whole
    ensures match ScanFrom(part, pos)
      case Found(record) =>
        && ScanFrom(whole, pos).Found?
        && ScanFrom(whole, pos).record.start == record.start
        && record.end == Min(ScanFrom(whole, pos).record.end, |part|)
      case ProvenAbsent => ScanFrom(whole, pos) == ProvenAbsent
      case Undecided => true
    decreases |part| - pos
  {
    var id, len := ReadLe16(part, pos), ReadLe16(part, pos + 2);
    if id.Some? && len.Some? {
      assert ReadLe16(whole, pos) == id && ReadLe16(whole, pos + 2) == len;
      var end := pos + 4 + len.value;
      if id.value != FILEPASS && NeverEncrypted(id.value) && end <= |part| {
        ScanOfPrefix(whole, part, end);
      }
    }
  }

  /**
   Truncation never flips a verdict: what is decided of a prefix is decided of the whole,
   and a FILEPASS is found at the same place with its body cut where the prefix ends.
   */
  lemma TruncationNeverFlips(whole: Bytes, part: Bytes)
    requires part <= whole
    ensures Scan(part).ProvenAbsent? ==> Scan(whole).ProvenAbsent?
    ensures Scan(part).Found? ==>
      && Scan(whole).Found? && Scan(whole).record.start == Scan(part).record.start
      && Scan(part).record.end == Min(Scan(whole).record.end, |part|)
  {
    ScanOfPrefix(whole, part, 0);
  }

  /** So no cut of an encrypted workbook is provably plain, and no cut of a plain one encrypted. */
  lemma NoCutOfOneIsTheOther(whole: Bytes, part: Bytes)
    requires part <= whole
    ensures Scan(whole).Found? ==> !Scan(part).ProvenAbsent?
    ensures Scan(whole).ProvenAbsent? ==> !Scan(part).Found?
    ensures Screen(whole).Ok? ==> !Scan(part).ProvenAbsent?
  {
    TruncationNeverFlips(whole, part);
    DetectorAgrees(whole);
  }
}
