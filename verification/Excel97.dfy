/** What a decrypt makes of a workbook stream, byte for byte: `excel97.rs`. */
module Excel97 {
  import opened Errors
  import opened Octets
  import opened LegacyCiphers
  import opened Biff

  /** `BoundSheet8.lbPlyPos`, the four leading body bytes that stay in the clear. */
  const LB_PLY_POS_LEN: nat := 4

  /** How many leading body bytes of a record the format keeps in the clear. */
  function ClearPrefix(r: Record): (n: nat)
    ensures n <= r.BodyLen()
  {
    if NeverEncrypted(r.id) then r.BodyLen()
    else if r.id == BOUNDSHEET8 then Min(LB_PLY_POS_LEN, r.BodyLen())
    else 0
  }

  /** Header bytes and the clear prefix of the body. */
  predicate StaysClear(r: Record, i: nat) {
    i < r.start + ClearPrefix(r)
  }

  datatype Scheme = XorObfuscation(obfuscator: Obfuscator) | Rc4(schedule: Schedule, propertiesClear: bool) {

    predicate Sized() {
      XorObfuscation? ==> obfuscator.Sized()
    }

    /** No key of the schedule is of a length RC4 refuses. */
    ghost predicate Keyable() {
      Rc4? ==> schedule.Keyable()
    }

    /** One body byte of record `r` at stream offset `i`, decrypted. */
    function Opens(b: Byte, r: Record, i: nat): Byte
      requires Sized()
    {
      match this
      case XorObfuscation(o) => if r.start <= i then o.Opened(b, r.end + (i - r.start)) else b
      case Rc4(schedule, _) => Xor(b, schedule.At(i))
    }

    /** And encrypted, as section 2.2.10 of [MS-XLS] has a writer do it. */
    function Closes(b: Byte, r: Record, i: nat): Byte
      requires Sized()
    {
      match this
      case XorObfuscation(o) => if r.start <= i then o.Closed(b, r.end + (i - r.start)) else b
      case Rc4(schedule, _) => Xor(b, schedule.At(i))
    }

    lemma OpensWhatItCloses(b: Byte, r: Record, i: nat)
      requires Sized()
      ensures Opens(Closes(b, r, i), r, i) == b
    {
      match this
      case XorObfuscation(o) =>
        if r.start <= i {
          o.OpenedClosed(b, r.end + (i - r.start));
        }
      case Rc4(schedule, _) => XorUndone(b, schedule.At(i));
    }
  }

  // ----- which record a byte belongs to -----

  function HolderIn(records: seq<Record>, i: nat): Option<Record> {
    if records == [] then None
    else if i < records[0].end then Some(records[0])
    else HolderIn(records[1..], i)
  }

  /** The record that a byte of the stream is header or body of. */
  function Holder(book: Bytes, i: nat): Option<Record> {
    HolderIn(Walk(book, 0).records, i)
  }

  /** A clean walk's records lie end to end: each byte is held by exactly its record. */
  lemma {:induction false} RecordsTile(book: Bytes, pos: nat, k: nat)
    requires Walk(book, pos).stop.None? && k < |Walk(book, pos).records|
    ensures
      var r := Walk(book, pos).records[k];
      && pos + 4 <= r.start <= r.end <= |book| && RecordOf(book, r.start - 4) == Some(r)
      && forall i :: r.start - 4 <= i < r.end ==> HolderIn(Walk(book, pos).records, i) == Some(r)
    decreases |book| - pos
  {
    var records := Walk(book, pos).records;
    var first := RecordOf(book, pos).value;
    if k > 0 {
      WalkStep(book, pos);
      RecordsTile(book, first.end, k - 1);
      assert records[k] == records[1..][k - 1];
    }
  }

  lemma {:induction false} HolderStep(book: Bytes, pos: nat, i: nat)
    requires Walk(book, pos).stop.None? && pos < |book|
    ensures
      var first := RecordOf(book, pos).value;
      HolderIn(Walk(book, pos).records, i) ==
        if i < first.end then Some(first) else HolderIn(Walk(book, first.end).records, i)
  {
    WalkStep(book, pos);
  }

  lemma {:induction false} HeldBy(book: Bytes, pos: nat, i: nat) returns (k: nat)
    requires Walk(book, pos).stop.None? && pos <= i < |book|
    ensures k < |Walk(book, pos).records| && HolderIn(Walk(book, pos).records, i) == Some(Walk(book, pos).records[k])
    ensures Walk(book, pos).records[k].start - 4 <= i < Walk(book, pos).records[k].end
    decreases |book| - pos
  {
    var first := RecordOf(book, pos).value;
    WalkStep(book, pos);
    HolderStep(book, pos, i);
    if i < first.end {
      k := 0;
    } else {
      var behind := HeldBy(book, first.end, i);
      k := behind + 1;
    }
  }

  lemma EveryByteIsHeld(book: Bytes, pos: nat, i: nat)
    requires Walk(book, pos).stop.None? && pos <= i < |book|
    ensures
      var h := HolderIn(Walk(book, pos).records, i);
      && h.Some? && h.value in Walk(book, pos).records
      && pos + 4 <= h.value.start <= h.value.end && h.value.start - 4 <= i < h.value.end <= |book|
      && RecordOf(book, h.value.start - 4) == h
  {
    var k := HeldBy(book, pos, i);
    RecordsTile(book, pos, k);
  }

  // ----- the rewrite -----

  /** The byte at `i` after decryption, before the FILEPASS record is erased. */
  function OpenedByte(book: Bytes, scheme: Scheme, i: nat): Byte
    requires scheme.Sized() && i < |book|
  {
    var h := Holder(book, i);
    if h.None? || StaysClear(h.value, i) then book[i] else scheme.Opens(book[i], h.value, i)
  }

  function ClosedByte(book: Bytes, scheme: Scheme, i: nat): Byte
    requires scheme.Sized() && i < |book|
  {
    var h := Holder(book, i);
    if h.None? || StaysClear(h.value, i) then book[i] else scheme.Closes(book[i], h.value, i)
  }

  /** The FILEPASS record's type and body, which become zero; its length stays. */
  predicate Erases(filepass: Record, i: nat) {
    filepass.start <= i + 4 && i < filepass.end && (i + 2 < filepass.start || filepass.start <= i)
  }

  function Erased(book: Bytes, filepass: Record): (out: Bytes)
    ensures |out| == |book|
  {
    seq<Byte>(|book|, i requires 0 <= i < |book| => if Erases(filepass, i) then 0 else book[i])
  }

  /** The decrypted stream. */
  function Rewritten(book: Bytes, scheme: Scheme, filepass: Record): (out: Bytes)
    requires scheme.Sized()
    ensures |out| == |book|
  {
    seq<Byte>(|book|, i requires 0 <= i < |book| => if Erases(filepass, i) then 0 else OpenedByte(book, scheme, i))
  }

  /** The stream as its writer encrypted it. */
  function Locked(book: Bytes, scheme: Scheme): (out: Bytes)
    requires scheme.Sized()
    ensures |out| == |book|
  {
    seq<Byte>(|book|, i requires 0 <= i < |book| => ClosedByte(book, scheme, i))
  }

  lemma HolderOfRecord(book: Bytes, r: Record, i: nat)
    requires Walk(book, 0).stop.None? && r in Walk(book, 0).records && r.start <= i + 4 && i < r.end
    ensures Holder(book, i) == Some(r) && i < |book| && 4 <= r.start
  {
    var records := Walk(book, 0).records;
    var k: nat :| k < |records| && records[k] == r;
    RecordsTile(book, 0, k);
  }

  lemma ErasesItsOwn(book: Bytes, filepass: Record, r: Record, i: nat)
    requires Screen(book) == Ok(filepass) && Holder(book, i) == Some(r)
    ensures Erases(filepass, i) ==> r == filepass
  {
    if Erases(filepass, i) {
      HolderOfRecord(book, filepass, i);
    }
  }

  lemma RewrittenWithinRecord(book: Bytes, scheme: Scheme, filepass: Record, r: Record, i: nat)
    requires scheme.Sized() && Screen(book) == Ok(filepass)
    requires r in Walk(book, 0).records && r.start <= i + 4 && i < r.end
    ensures
      i < |book| && var b := Rewritten(book, scheme, filepass)[i];
      if r == filepass then b == if i + 2 < r.start || r.start <= i then 0 else book[i]
      else b == if StaysClear(r, i) then book[i] else scheme.Opens(book[i], r, i)
  {
    HolderOfRecord(book, r, i);
    ErasesItsOwn(book, filepass, r, i);
  }

  lemma OpensByScheme(scheme: Scheme, b: Byte, r: Record, i: nat)
    requires scheme.Sized() && r.start <= i
    ensures scheme.Opens(b, r, i) ==
      if scheme.Rc4? then Xor(b, scheme.schedule.rc4(scheme.schedule.keys(i / 1024), i % 1024))
      else RotateRight5(Xor(b, scheme.obfuscator.pad[(r.end + (i - r.start)) % 16]))
  {
  }

  lemma ClearByType(r: Record, i: nat)
    requires r.start <= i + 4 && i < r.end
    ensures StaysClear(r, i) <==>
      || i < r.start
      || r.id in {0x0809, 0x002F, 0x00E1, 0x0138, 0x0194, 0x0195, 0x0196}
      || (r.id == 0x0085 && i < r.start + 4)
  {
  }

  /**
   Byte for byte, by record type: the FILEPASS record is erased but for its length, headers
   and the bodies of seven types stay, a sheet's first four body bytes stay, and every other
   body byte is opened under its block's key or its record's place in the array.
   */
  lemma RewrittenByteForByte(book: Bytes, scheme: Scheme, filepass: Record, r: Record, i: nat)
    requires scheme.Sized() && Screen(book) == Ok(filepass)
    requires r in Walk(book, 0).records && r.start <= i + 4 && i < r.end
    ensures
      i < |book| && var b := Rewritten(book, scheme, filepass)[i];
      if r == filepass then b == if i + 2 < r.start || r.start <= i then 0 else book[i]
      else if i < r.start || r.id in {0x0809, 0x002F, 0x00E1, 0x0138, 0x0194, 0x0195, 0x0196} then b == book[i]
      else if r.id == 0x0085 && i < r.start + 4 then b == book[i]
      else if scheme.Rc4? then b == Xor(book[i], scheme.schedule.rc4(scheme.schedule.keys(i / 1024), i % 1024))
      else b == RotateRight5(Xor(book[i], scheme.obfuscator.pad[(r.end + (i - r.start)) % 16]))
  {
    RewrittenWithinRecord(book, scheme, filepass, r, i);
    ClearByType(r, i);
    if r != filepass && !StaysClear(r, i) {
      OpensByScheme(scheme, book[i], r, i);
    }
  }

  // ----- the walk of the output -----

  /** `r` as it stands in another stream: where it was, with the type that is there now. */
  function Renamed(r: Record, book: Bytes): Record
    requires 4 <= r.start <= |book|
  {
    Record(ReadLe16(book, r.start - 4).value, r.start, r.end)
  }

  ghost predicate SameLengthFields(a: Bytes, b: Bytes, records: seq<Record>) {
    && |a| == |b|
    && forall k :: 0 <= k < |records| ==>
      4 <= records[k].start <= |a| && ReadLe16(b, records[k].start - 2) == ReadLe16(a, records[k].start - 2)
  }

  /** A stream with the same length fields walks the same way: same boundaries, whatever the types. */
  lemma {:induction false} WalkFollowsLengths(a: Bytes, b: Bytes, pos: nat)
    requires Walk(a, pos).stop.None? && SameLengthFields(a, b, Walk(a, pos).records)
    ensures
      var w, v := Walk(a, pos), Walk(b, pos);
      && v.stop.None? && |v.records| == |w.records|
      && forall k :: 0 <= k < |w.records| ==> v.records[k] == Renamed(w.records[k], b)
    decreases |a| - pos
  {
    if pos < |a| {
      var first := RecordOf(a, pos).value;
      var w := Walk(a, pos);
      WalkStep(a, pos);
      WalkFollowsLengths(a, b, first.end);
      assert RecordOf(b, pos) == Some(Renamed(first, b));
      assert Walk(b, pos).records[1..] == Walk(b, first.end).records;
    }
  }

  /** The output walks as the input did, the FILEPASS record alone changing its type, to zero. */
  lemma SameBoundaries(book: Bytes, scheme: Scheme, filepass: Record)
    requires scheme.Sized() && Screen(book) == Ok(filepass)
    ensures
      var w, v := Walk(book, 0), Walk(Rewritten(book, scheme, filepass), 0);
      && v.stop.None? && |v.records| == |w.records|
      && forall k :: 0 <= k < |w.records| ==>
        v.records[k] == if w.records[k] == filepass then filepass.(id := 0) else w.records[k]
  {
    var w, out := Walk(book, 0), Rewritten(book, scheme, filepass);
    forall k | 0 <= k < |w.records|
      ensures var r := w.records[k];
        && 4 <= r.start <= |book| && ReadLe16(out, r.start - 2) == ReadLe16(book, r.start - 2)
        && Renamed(r, out) == if r == filepass then filepass.(id := 0) else r
    {
      HeaderBytes(book, scheme, filepass, k);
    }
    WalkFollowsLengths(book, out, 0);
  }

  lemma HeaderByte(book: Bytes, scheme: Scheme, filepass: Record, k: nat, i: nat)
    requires scheme.Sized() && Screen(book) == Ok(filepass) && k < |Walk(book, 0).records|
    requires Walk(book, 0).records[k].start - 4 <= i < Walk(book, 0).records[k].start
    ensures
      var r := Walk(book, 0).records[k];
      i < |book| && Rewritten(book, scheme, filepass)[i] == if r == filepass && i < r.start - 2 then 0 else book[i]
  {
    RecordsTile(book, 0, k);
    HolderOfHeader(book, k, i);
    ErasesItsOwn(book, filepass, Walk(book, 0).records[k], i);
  }

  lemma HeaderFollowsBytes(a: Bytes, b: Bytes, r: Record, erased: bool)
    requires |a| == |b| && 4 <= r.start <= |a| && RecordOf(a, r.start - 4) == Some(r)
    requires forall i :: r.start - 4 <= i < r.start ==> b[i] == if erased && i < r.start - 2 then 0 else a[i]
    ensures ReadLe16(b, r.start - 2) == ReadLe16(a, r.start - 2)
    ensures Renamed(r, b) == if erased then r.(id := 0) else r
  {
    assert erased ==> b[r.start - 4] == 0 && b[r.start - 3] == 0;
  }

  lemma HeaderBytes(book: Bytes, scheme: Scheme, filepass: Record, k: nat)
    requires scheme.Sized() && Screen(book) == Ok(filepass) && k < |Walk(book, 0).records|
    ensures
      var r, out := Walk(book, 0).records[k], Rewritten(book, scheme, filepass);
      && 4 <= r.start <= |book|
      && ReadLe16(out, r.start - 2) == ReadLe16(book, r.start - 2)
      && Renamed(r, out) == if r == filepass then filepass.(id := 0) else r
  {
    RecordsTile(book, 0, k);
    var r, out := Walk(book, 0).records[k], Rewritten(book, scheme, filepass);
    forall i | r.start - 4 <= i < r.start
      ensures out[i] == if r == filepass && i < r.start - 2 then 0 else book[i]
    {
      HeaderByte(book, scheme, filepass, k, i);
    }
    HeaderFollowsBytes(book, out, r, r == filepass);
  }

  lemma HolderOfHeader(book: Bytes, k: nat, i: nat)
    requires Walk(book, 0).stop.None? && k < |Walk(book, 0).records|
    requires Walk(book, 0).records[k].start - 4 <= i < Walk(book, 0).records[k].start
    ensures Holder(book, i) == Some(Walk(book, 0).records[k])
  {
    RecordsTile(book, 0, k);
  }

  // ----- the detector over the output -----

  /** Erasing the first FILEPASS of records that have one in order leaves a stray at its place. */
  lemma {:induction false} ErasedIsStray(before: seq<Record>, after: seq<Record>, filepass: Record)
    requires FirstFilepass(before) == Some(filepass) && FirstStray(before).None? && |after| == |before|
    requires forall k :: 0 <= k < |before| ==>
      after[k] == if before[k] == filepass then filepass.(id := 0) else before[k]
    ensures FirstStray(after) == Some(0)
  {
    if before[0].id != FILEPASS {
      ErasedIsStray(before[1..], after[1..], filepass);
    }
  }

  function Filepasses(records: seq<Record>): nat {
    if records == [] then 0 else (if records[0].id == FILEPASS then 1 else 0) + Filepasses(records[1..])
  }

  lemma {:induction false} NoneIsNoFilepass(records: seq<Record>)
    ensures FirstFilepass(records).None? <==> Filepasses(records) == 0
  {
    if records != [] {
      NoneIsNoFilepass(records[1..]);
    }
  }

  lemma {:induction false} RecordsAscend(book: Bytes, pos: nat, j: nat, k: nat)
    requires Walk(book, pos).stop.None? && j < k < |Walk(book, pos).records|
    ensures Walk(book, pos).records[j].start < Walk(book, pos).records[k].start
    decreases |book| - pos
  {
    var first := RecordOf(book, pos).value;
    assert Walk(book, pos).records[1..] == Walk(book, first.end).records;
    if j > 0 {
      RecordsAscend(book, first.end, j - 1, k - 1);
    } else {
      RecordsTile(book, first.end, k - 1);
    }
  }

  ghost predicate Distinct(records: seq<Record>) {
    forall j, k :: 0 <= j < k < |records| ==> records[j] != records[k]
  }

  /** Renaming one record away takes one from the count. */
  lemma {:induction false} ErasedIsOneFewer(before: seq<Record>, after: seq<Record>, filepass: Record)
    requires filepass.id == FILEPASS && Distinct(before) && |after| == |before|
    requires forall k :: 0 <= k < |before| ==>
      after[k] == if before[k] == filepass then filepass.(id := 0) else before[k]
    ensures Filepasses(before) == Filepasses(after) + if filepass in before then 1 else 0
  {
    if before != [] {
      ErasedIsOneFewer(before[1..], after[1..], filepass);
      assert filepass in before <==> before[0] == filepass || filepass in before[1..];
      if before[0] == filepass {
        assert forall k :: 0 <= k < |before[1..]| ==> before[1..][k] == before[k + 1];
        assert filepass !in before[1..];
      }
    }
  }

  lemma OutputKeepsTheOthers(book: Bytes, scheme: Scheme, filepass: Record)
    requires scheme.Sized() && Screen(book) == Ok(filepass)
    ensures Filepasses(Walk(book, 0).records) == Filepasses(Walk(Rewritten(book, scheme, filepass), 0).records) + 1
  {
    var w, v := Walk(book, 0), Walk(Rewritten(book, scheme, filepass), 0);
    SameBoundaries(book, scheme, filepass);
    forall j, k | 0 <= j < k < |w.records|
      ensures w.records[j] != w.records[k]
    {
      RecordsAscend(book, 0, j, k);
    }
    ErasedIsOneFewer(w.records, v.records, filepass);
  }

  /** After a decrypt the detector proves the workbook plain, and no decrypt takes it again. */
  lemma OutputIsProvablyPlain(book: Bytes, scheme: Scheme, filepass: Record)
    requires scheme.Sized() && Screen(book) == Ok(filepass)
    ensures Scan(Rewritten(book, scheme, filepass)) == ProvenAbsent
    ensures Screen(Rewritten(book, scheme, filepass)).Err?
  {
    var w, out := Walk(book, 0), Rewritten(book, scheme, filepass);
    SameBoundaries(book, scheme, filepass);
    var v := Walk(out, 0);
    ErasedIsStray(w.records, v.records, filepass);
    assert v.records[0] == RecordOf(out, 0).value;
    ScanOfRecords(out, 0);
  }

  /**
   Only the first FILEPASS is erased, so the output holds none, and is refused as never
   having been encrypted, exactly when the input held one. With more, a second decrypt
   meets the erased record before the next FILEPASS.
   */
  lemma OutputHoldsNoFilepass(book: Bytes, scheme: Scheme, filepass: Record)
    requires scheme.Sized() && Screen(book) == Ok(filepass)
    ensures
      var out, one := Rewritten(book, scheme, filepass), Filepasses(Walk(book, 0).records) == 1;
      && (FirstFilepass(Walk(out, 0).records).None? <==> one)
      && (Screen(out) == Err(NotEncrypted) <==> one)
      && (Screen(out) == Err(BadParameters(Filepass, OutOfOrder(0))) <==> !one)
  {
    var w, v := Walk(book, 0), Walk(Rewritten(book, scheme, filepass), 0);
    SameBoundaries(book, scheme, filepass);
    OutputKeepsTheOthers(book, scheme, filepass);
    NoneIsNoFilepass(v.records);
    ErasedIsStray(w.records, v.records, filepass);
  }

  // ----- what a writer encrypted comes back -----

  lemma LockedKeeps(book: Bytes, scheme: Scheme, k: nat, i: nat)
    requires scheme.Sized() && Walk(book, 0).stop.None? && k < |Walk(book, 0).records|
    requires Walk(book, 0).records[k].start - 4 <= i < Walk(book, 0).records[k].start
    ensures i < |book| && Locked(book, scheme)[i] == book[i]
  {
    RecordsTile(book, 0, k);
    HolderOfHeader(book, k, i);
  }

  lemma LockedHeader(book: Bytes, scheme: Scheme, k: nat)
    requires scheme.Sized() && Walk(book, 0).stop.None? && k < |Walk(book, 0).records|
    ensures
      var r, locked := Walk(book, 0).records[k], Locked(book, scheme);
      && 4 <= r.start <= |book|
      && ReadLe16(locked, r.start - 2) == ReadLe16(book, r.start - 2)
      && Renamed(r, locked) == r
  {
    RecordsTile(book, 0, k);
    var r, locked := Walk(book, 0).records[k], Locked(book, scheme);
    forall i | r.start - 4 <= i < r.start
      ensures locked[i] == book[i]
    {
      LockedKeeps(book, scheme, k, i);
    }
    HeaderFollowsBytes(book, locked, r, false);
  }

  /** Encryption leaves the records where they are. */
  lemma LockedWalksTheSame(book: Bytes, scheme: Scheme)
    requires scheme.Sized() && Walk(book, 0).stop.None?
    ensures Walk(Locked(book, scheme), 0) == Walk(book, 0)
    ensures Screen(Locked(book, scheme)) == Screen(book)
  {
    var w, locked := Walk(book, 0), Locked(book, scheme);
    forall k | 0 <= k < |w.records|
      ensures var r := w.records[k];
        && 4 <= r.start <= |book| && ReadLe16(locked, r.start - 2) == ReadLe16(book, r.start - 2)
        && Renamed(r, locked) == r
    {
      LockedHeader(book, scheme, k);
    }
    WalkFollowsLengths(book, locked, 0);
    assert Walk(locked, 0).records == w.records;
  }

  lemma ByteComesBack(book: Bytes, scheme: Scheme, i: nat)
    requires scheme.Sized() && Walk(book, 0).stop.None? && i < |book|
    requires Walk(Locked(book, scheme), 0) == Walk(book, 0)
    ensures OpenedByte(Locked(book, scheme), scheme, i) == book[i]
  {
    var h := Holder(book, i);
    assert Locked(book, scheme)[i] == ClosedByte(book, scheme, i);
    if h.Some? && !StaysClear(h.value, i) {
      scheme.OpensWhatItCloses(book[i], h.value, i);
    }
  }

  /**
   A workbook encrypted as section 2.2.10 of [MS-XLS] says, under either scheme, decrypts
   to the workbook: every record in its place, and only the FILEPASS record erased.
   */
  lemma DecryptRestoresTheWorkbook(book: Bytes, scheme: Scheme, filepass: Record)
    requires scheme.Sized() && Screen(book) == Ok(filepass)
    ensures Screen(Locked(book, scheme)) == Ok(filepass)
    ensures Rewritten(Locked(book, scheme), scheme, filepass) == Erased(book, filepass)
  {
    LockedWalksTheSame(book, scheme);
    var out, want := Rewritten(Locked(book, scheme), scheme, filepass), Erased(book, filepass);
    forall i | 0 <= i < |book|
      ensures out[i] == want[i]
    {
      ByteComesBack(book, scheme, i);
    }
  }

  // ----- the rewrite as the program makes it -----

  method CopyBack(plain: array<Byte>, book: Bytes, from: nat, to: nat)
    requires from <= to <= plain.Length == |book|
    modifies plain
    ensures forall i :: 0 <= i < plain.Length ==> plain[i] == if from <= i < to then book[i] else old(plain[i])
  {
    forall i | from <= i < to {
      plain[i] := book[i];
    }
  }

  /** The RC4 second pass over one record: its header and its clear prefix put back. */
  method RestoreRecord(book: Bytes, plain: array<Byte>, schedule: Schedule, r: Record)
    requires plain.Length == |book| && 4 <= r.start <= r.end <= |book|
    requires forall i :: r.start - 4 <= i < r.end ==> Holder(book, i) == Some(r)
    requires forall i :: r.start - 4 <= i < r.end ==> plain[i] == Xor(book[i], schedule.At(i))
    modifies plain
    ensures forall i :: r.start - 4 <= i < r.end ==> plain[i] == OpenedByte(book, Rc4(schedule, false), i)
    ensures forall i :: 0 <= i < |book| && !(r.start - 4 <= i < r.end) ==> plain[i] == old(plain[i])
  {
    CopyBack(plain, book, r.start - 4, r.start);
    CopyBack(plain, book, r.start, r.start + ClearPrefix(r));
  }

  /** The RC4 second pass: the walk made again, and the clear bytes of each record put back. */
  method RestoreClear(book: Bytes, plain: array<Byte>, schedule: Schedule)
    requires Walk(book, 0).stop.None? && plain.Length == |book|
    requires forall i :: 0 <= i < |book| ==> plain[i] == Xor(book[i], schedule.At(i))
    modifies plain
    ensures forall i :: 0 <= i < |book| ==> plain[i] == OpenedByte(book, Rc4(schedule, false), i)
  {
    var walk := new BiffRecords(book);
    ghost var target := seq<Byte>(|book|, i requires 0 <= i < |book| => OpenedByte(book, Rc4(schedule, false), i));
    ghost var keyed := plain[..];
    while true
      invariant fresh(walk) && walk.book == book && !walk.failed && walk.pos <= |book| && walk.Left().stop.None?
      invariant forall i :: walk.pos <= i < |book| ==> Holder(book, i) == HolderIn(walk.Left().records, i)
      invariant forall i :: 0 <= i < walk.pos ==> plain[i] == target[i]
      invariant forall i :: walk.pos <= i < |book| ==> plain[i] == keyed[i]
      decreases |walk.Left().records|
    {
      var item := walk.Advance();
      if !item.Next? {
        break;
      }
      RestoreRecord(book, plain, schedule, item.record);
    }
  }

  /** The XOR pass: each record from the index its own end selects, the clear prefix skipped. */
  method DeobfuscateRecords(book: Bytes, plain: array<Byte>, o: Obfuscator)
    requires o.Sized() && Walk(book, 0).stop.None? && plain[..] == book
    modifies plain
    ensures forall i :: 0 <= i < |book| ==> plain[i] == OpenedByte(book, XorObfuscation(o), i)
  {
    var walk := new BiffRecords(book);
    ghost var target := seq<Byte>(|book|, i requires 0 <= i < |book| => OpenedByte(book, XorObfuscation(o), i));
    while true
      invariant fresh(walk) && walk.book == book && !walk.failed && walk.pos <= |book| && walk.Left().stop.None?
      invariant forall i :: walk.pos <= i < |book| ==> Holder(book, i) == HolderIn(walk.Left().records, i)
      invariant forall i :: 0 <= i < walk.pos ==> plain[i] == target[i]
      invariant forall i :: walk.pos <= i < |book| ==> plain[i] == book[i]
      decreases |walk.Left().records|
    {
      var item := walk.Advance();
      if !item.Next? {
        break;
      }
      DeobfuscateRecord(book, plain, o, item.record);
    }
  }

  method DeobfuscateRecord(book: Bytes, plain: array<Byte>, o: Obfuscator, r: Record)
    requires o.Sized() && plain.Length == |book| && 4 <= r.start <= r.end <= |book|
    requires forall i :: r.start - 4 <= i < r.end ==> Holder(book, i) == Some(r) && plain[i] == book[i]
    modifies plain
    ensures forall i :: r.start - 4 <= i < r.end ==> plain[i] == OpenedByte(book, XorObfuscation(o), i)
    ensures forall i :: 0 <= i < |book| && !(r.start - 4 <= i < r.end) ==> plain[i] == old(plain[i])
  {
    var clear := ClearPrefix(r);
    Deobfuscate(o, plain, r.start + clear, r.end, r.end + clear);
  }

  /** FILEPASS becomes record zero of the same length with a zero body. */
  method EraseFilepass(plain: array<Byte>, filepass: Record)
    requires 4 <= filepass.start <= filepass.end <= plain.Length
    modifies plain
    ensures forall i :: 0 <= i < plain.Length ==> plain[i] == if Erases(filepass, i) then 0 else old(plain[i])
  {
    forall i | filepass.start - 4 <= i < filepass.start - 2 {
      plain[i] := 0;
    }
    forall i | filepass.start <= i < filepass.end {
      plain[i] := 0;
    }
  }

  /**
   The rewrite of a whole stream on one copy of it. Only a stream of more than 2^32 RC4
   blocks is refused, or a schedule with a key RC4 is not used with.
   */
  method Rewrite(book: Bytes, scheme: Scheme, filepass: Record) returns (r: Result<Bytes>)
    requires scheme.Sized() && Screen(book) == Ok(filepass)
    ensures r.Ok? ==> r.value == Rewritten(book, scheme, filepass)
    ensures r.Err? ==> scheme.Rc4? && r.error.Internal() && (|book| > U32_LIMIT * 1024 || !scheme.Keyable())
  {
    var plain := new Byte[|book|](i requires 0 <= i < |book| => book[i]);
    assert plain[..] == book;
    match scheme {
      case Rc4(schedule, _) =>
        var keyed := DecryptInBlocks(schedule, plain);
        if keyed.Err? {
          return Err(keyed.error);
        }
        RestoreClear(book, plain, schedule);
      case XorObfuscation(o) =>
        DeobfuscateRecords(book, plain, o);
    }
    HolderOfRecordBounds(book, filepass);
    EraseFilepass(plain, filepass);
    return Ok(plain[..]);
  }

  lemma HolderOfRecordBounds(book: Bytes, r: Record)
    requires Walk(book, 0).stop.None? && r in Walk(book, 0).records
    ensures 4 <= r.start <= r.end <= |book|
  {
    var k: nat :| k < |Walk(book, 0).records| && Walk(book, 0).records[k] == r;
    RecordsTile(book, 0, k);
  }
}
