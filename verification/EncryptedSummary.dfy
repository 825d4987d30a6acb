/** The RC4 CryptoAPI encrypted summary stream: `encrypted_summary.rs`. */
module EncryptedSummary {
  import opened Errors
  import opened Octets
  import opened LegacyCiphers

  const PREFIX_LEN: nat := 8
  const COUNT_LEN: nat := 4
  const DESCRIPTOR_FIXED_LEN: nat := 16

  /** The two streams Office puts inside; any other name is refused. */
  datatype PropertySet = Summary | DocumentSummary {

    function Name(): string {
      match this
      case Summary => "\U{5}SummaryInformation"
      case DocumentSummary => "\U{5}DocumentSummaryInformation"
    }
  }

  /** The code units of text, and of a UTF-16LE byte string. */
  function TextUnits(s: string): (u: seq<nat>)
    ensures |u| == |s|
  {
    seq(|s|, i requires 0 <= i < |s| => s[i] as nat)
  }

  function Units(utf16le: Bytes): seq<nat> {
    seq<nat>(|utf16le| / 2,
             i requires 0 <= i < |utf16le| / 2 => utf16le[2 * i] as nat + 256 * utf16le[2 * i + 1] as nat)
  }

  /** UTF-16LE of text whose characters all fit a byte. */
  function Utf16(s: string): (b: Bytes)
    ensures |b| == 2 * |s|
  {
    seq<Byte>(2 * |s|, i requires 0 <= i < 2 * |s| => if i % 2 == 0 then s[i / 2] as int % 256 else 0)
  }

  const NAMES: map<seq<nat>, PropertySet> :=
    map[TextUnits(Summary.Name()) := Summary, TextUnits(DocumentSummary.Name()) := DocumentSummary]

  function PropertySetName(utf16le: Bytes): Option<PropertySet> {
    var units := Units(utf16le);
    if units in NAMES then Some(NAMES[units]) else None
  }

  lemma NameReadsBack(name: PropertySet)
    ensures PropertySetName(Utf16(name.Name())) == Some(name)
    ensures |Utf16(name.Name())| == match name case Summary => 38 case DocumentSummary => 54
  {
    UnitsOfText(name.Name());
    assert |TextUnits(Summary.Name())| != |TextUnits(DocumentSummary.Name())|;
  }

  /** And no other byte string of whole code units is taken for it. */
  lemma NameIsExact(utf16le: Bytes, name: PropertySet)
    requires |utf16le| % 2 == 0
    ensures PropertySetName(utf16le) == Some(name) <==> utf16le == Utf16(name.Name())
  {
    NameReadsBack(name);
    if PropertySetName(utf16le) == Some(name) {
      assert Units(utf16le) == TextUnits(name.Name());
      UnitsAreExact(utf16le, name.Name());
    }
  }

  /** Text in UTF-16LE, a character and a zero at a time. */
  predicate Spells(b: Bytes, s: string) {
    |b| == 2 * |s| && forall i :: 0 <= i < |s| ==> b[2 * i] as int == s[i] as int && b[2 * i + 1] == 0
  }

  /** The two names, by their text: a character five, and then the name of the property set. */
  lemma NameIsSpelled(utf16le: Bytes)
    requires |utf16le| % 2 == 0
    ensures PropertySetName(utf16le) == Some(Summary) <==>
      |utf16le| > 2 && utf16le[..2] == [5, 0] && Spells(utf16le[2..], "SummaryInformation")
    ensures PropertySetName(utf16le) == Some(DocumentSummary) <==>
      |utf16le| > 2 && utf16le[..2] == [5, 0] && Spells(utf16le[2..], "DocumentSummaryInformation")
  {
    NameIsExact(utf16le, Summary);
    NameIsExact(utf16le, DocumentSummary);
    SpelledBehindFive(utf16le, "SummaryInformation");
    SpelledBehindFive(utf16le, "DocumentSummaryInformation");
    assert Summary.Name() == "\U{5}" + "SummaryInformation";
    assert DocumentSummary.Name() == "\U{5}" + "DocumentSummaryInformation";
  }

  lemma SpelledBehindFive(b: Bytes, s: string)
    requires |b| % 2 == 0 && forall i :: 0 <= i < |s| ==> s[i] as int < 256
    ensures b == Utf16("\U{5}" + s) <==> |b| >= 2 && b[..2] == [5, 0] && Spells(b[2..], s)
  {
    if |b| >= 2 && b[..2] == [5, 0] && Spells(b[2..], s) {
      FiveAndSpelled(b, s);
    }
    if b == Utf16("\U{5}" + s) {
      WrittenIsSpelled(s);
    }
  }

  lemma FiveAndSpelled(b: Bytes, s: string)
    requires |b| >= 2 && b[..2] == [5, 0] && Spells(b[2..], s) && forall i :: 0 <= i < |s| ==> s[i] as int < 256
    ensures b == Utf16("\U{5}" + s)
  {
    var t := "\U{5}" + s;
    assert b[0] == b[..2][0] && b[1] == b[..2][1];
    forall i | 0 <= i < |b|
      ensures b[i] == Utf16(t)[i]
    {
      if i >= 2 {
        var k := (i - 2) / 2;
        assert b[2..][2 * k] == b[2 * k + 2] && b[2..][2 * k + 1] == b[2 * k + 3] && t[k + 1] == s[k];
      }
    }
  }

  lemma WrittenIsSpelled(s: string)
    requires forall i :: 0 <= i < |s| ==> s[i] as int < 256
    ensures var b := Utf16("\U{5}" + s); b[..2] == [5, 0] && Spells(b[2..], s)
  {
    var t := "\U{5}" + s;
    var b := Utf16(t);
    assert b[..2] == [b[0], b[1]];
    forall i | 0 <= i < |s|
      ensures b[2..][2 * i] as int == s[i] as int && b[2..][2 * i + 1] == 0
    {
      assert b[2 * (i + 1)] == t[i + 1] as int && b[2 * (i + 1) + 1] == 0;
    }
  }

  lemma UnitsAreExact(utf16le: Bytes, s: string)
    requires |utf16le| % 2 == 0 && Units(utf16le) == TextUnits(s)
    requires forall i :: 0 <= i < |s| ==> s[i] as int < 256
    ensures utf16le == Utf16(s)
  {
    assert |utf16le| == 2 * |s|;
    forall i | 0 <= i < |utf16le|
      ensures utf16le[i] == Utf16(s)[i]
    {
      var k := i / 2;
      assert Units(utf16le)[k] == s[k] as int;
      assert utf16le[2 * k] as nat + 256 * utf16le[2 * k + 1] as nat == s[k] as nat;
    }
  }

  lemma UnitsOfText(s: string)
    requires forall i :: 0 <= i < |s| ==> s[i] as int < 256
    ensures Units(Utf16(s)) == TextUnits(s)
  {
    forall i | 0 <= i < |s|
      ensures Units(Utf16(s))[i] == TextUnits(s)[i]
    {
      assert 2 * i / 2 == i && 2 * i % 2 == 0 && (2 * i + 1) % 2 == 1;
    }
  }

  // ----- descriptors -----

  /** Section 2.3.5.3 of [MS-OFFCRYPTO]. */
  datatype Descriptor = Descriptor(offset: nat, size: nat, block: nat, flags: Byte, reserved: Bytes, name: Bytes) {

    predicate Formed() {
      && offset < U32_LIMIT && size < U32_LIMIT && block < 0x1_0000
      && |reserved| == 4 && |name| < 512 && |name| % 2 == 0
    }

    function Fixed(): (b: Bytes)
      requires Formed()
      ensures |b| == 16
    {
      Le32(offset) + Le32(size) + Le16(block) + [|name| / 2, flags] + reserved
    }

    function Written(): (b: Bytes)
      requires Formed()
      ensures |b| == 18 + |name|
    {
      Fixed() + name + [0, 0]
    }
  }

  datatype Parsed = Parsed(d: Descriptor, next: nat)

  function ReadDescriptor(table: Bytes, at: nat): (r: Result<Parsed>)
    ensures r.Err? ==> !r.error.Internal()
    ensures r.Ok? ==> r.value.d.Formed() && r.value.next == at + 18 + |r.value.d.name| <= |table|
  {
    if at + DESCRIPTOR_FIXED_LEN > |table| then
      Err(BadParameters(SummaryDescriptor, Truncated(if at <= |table| then |table| - at else 0, DESCRIPTOR_FIXED_LEN)))
    else
      var fixed := table[at..at + 16];
      var offset, size, block := ReadLe32(fixed, 0).value, ReadLe32(fixed, 4).value, ReadLe16(fixed, 8).value;
      var nameLen: nat := 2 * fixed[10] as int;
      var from := at + 16;
      if from + nameLen > |table| then
        Err(BadParameters(SummaryStreamName, OutOfBounds(from, nameLen, |table|)))
      else if from + nameLen + 2 > |table| || table[from + nameLen..from + nameLen + 2] != [0, 0] then
        Err(BadParameters(SummaryStreamName, Unterminated))
      else
        Ok(Parsed(Descriptor(offset, size, block, fixed[11], fixed[12..16], table[from..from + nameLen]),
                  from + nameLen + 2))
  }

  lemma FixedFields(d: Descriptor)
    requires d.Formed()
    ensures
      var f := d.Fixed();
      && ReadLe32(f, 0) == Some(d.offset) && ReadLe32(f, 4) == Some(d.size) && ReadLe16(f, 8) == Some(d.block)
      && f[10] == |d.name| / 2 && f[11] == d.flags && f[12..16] == d.reserved
  {
    var f := d.Fixed();
    ReadBack32(f, 0, d.offset);
    assert f[4..8] == Le32(d.size);
    ReadBack32(f, 4, d.size);
    assert f[8..10] == Le16(d.block);
    ReadBack16(f, 8, d.block);
  }

  /** A descriptor is read back from where it was written, whatever surrounds it. */
  lemma DescriptorReadsBack(table: Bytes, at: nat, d: Descriptor)
    requires d.Formed() && at + |d.Written()| <= |table| && table[at..at + |d.Written()|] == d.Written()
    ensures ReadDescriptor(table, at) == Ok(Parsed(d, at + |d.Written()|))
  {
    var w := d.Written();
    var n := |d.name|;
    FixedFields(d);
    assert w == (d.Fixed() + d.name) + [0, 0] && |d.Fixed()| == 16;
    Split(table, at, d.Fixed() + d.name, [0, 0]);
    Split(table, at, d.Fixed(), d.name);
    assert table[at..at + 16] == d.Fixed() && table[at + 16..at + 16 + n] == d.name;
  }

  lemma FixedWritesBack(fixed: Bytes, d: Descriptor)
    requires |fixed| == 16 && d.Formed() && |d.name| == 2 * fixed[10] as int && d.flags == fixed[11]
    requires d.reserved == fixed[12..16]
    requires ReadLe32(fixed, 0) == Some(d.offset) && ReadLe32(fixed, 4) == Some(d.size)
    requires ReadLe16(fixed, 8) == Some(d.block)
    ensures d.Fixed() == fixed
  {
    WriteBack32(fixed, 0);
    WriteBack32(fixed, 4);
    WriteBack16(fixed, 8);
    Join(fixed, 0, 4, 8);
    Join(fixed, 0, 8, 10);
    Join(fixed, 0, 10, 12);
    Join(fixed, 0, 12, 16);
    assert [|d.name| / 2, d.flags] == fixed[10..12] && fixed[0..16] == fixed;
  }

  /** And what is read is what is written there. */
  lemma DescriptorWritesBack(table: Bytes, at: nat)
    requires ReadDescriptor(table, at).Ok?
    ensures var r := ReadDescriptor(table, at).value; table[at..r.next] == r.d.Written()
  {
    var r := ReadDescriptor(table, at).value;
    var n := |r.d.name|;
    FixedWritesBack(table[at..at + 16], r.d);
    Join(table, at, at + 16, at + 16 + n);
    Join(table, at, at + 16 + n, at + 18 + n);
  }

  // ----- what a descriptor admits -----

  /** A restored stream, and where in the data it lay. */
  datatype Restored = Restored(name: PropertySet, start: nat, end: nat, bytes: Bytes) {

    predicate Overlaps(start: nat, end: nat) {
      start < this.end && this.start < end
    }
  }

  predicate NameTaken(seen: seq<Restored>, name: PropertySet) {
    exists k :: 0 <= k < |seen| && seen[k].name == name
  }

  predicate ExtentTaken(seen: seq<Restored>, start: nat, end: nat) {
    exists k :: 0 <= k < |seen| && seen[k].Overlaps(start, end)
  }

  function Admit(data: Bytes, tableAt: nat, schedule: Schedule, seen: seq<Restored>, d: Descriptor)
    : (r: Result<Restored>)
    requires tableAt <= |data|
    ensures r.Err? && schedule.Takes(d.block) ==> !r.error.Internal()
  {
    if d.flags % 2 == 0 then Err(UnsupportedEncryptedContent)
    else
      match PropertySetName(d.name)
      case None => Err(UnsupportedEncryptedContent)
      case Some(name) =>
        var end := d.offset + d.size;
        if NameTaken(seen, name) then Err(BadParameters(SummaryDescriptor, Duplicate))
        else if d.offset < PREFIX_LEN || end > tableAt then
          Err(BadParameters(SummaryStreamExtent, OutOfBounds(d.offset, d.size, tableAt)))
        else if ExtentTaken(seen, d.offset, end) then
          Err(BadParameters(SummaryStreamExtent, FileProblem.Overlaps))
        else if !schedule.Takes(d.block) then
          Err(InvariantViolated(Rc4KeyLength))
        else
          Ok(Restored(name, d.offset, end, schedule.Keyed(data[d.offset..end], d.block)))
  }

  /** What refuses a descriptor: a storage or another name, a name twice, a place outside, a place taken. */
  lemma RefusedDescriptor(data: Bytes, tableAt: nat, schedule: Schedule, seen: seq<Restored>, d: Descriptor)
    requires tableAt <= |data| && d.Formed() && schedule.Takes(d.block)
    ensures
      var r, end, name := Admit(data, tableAt, schedule, seen, d), d.offset + d.size, PropertySetName(d.name);
      if d.flags % 2 == 0 || name.None? then r == Err(UnsupportedEncryptedContent)
      else if exists k :: 0 <= k < |seen| && seen[k].name == name.value then
        r == Err(BadParameters(SummaryDescriptor, Duplicate))
      else if d.offset < 8 || end > tableAt then
        r == Err(BadParameters(SummaryStreamExtent, OutOfBounds(d.offset, d.size, tableAt)))
      else if exists k :: 0 <= k < |seen| && d.offset < seen[k].end && seen[k].start < end then
        r == Err(BadParameters(SummaryStreamExtent, FileProblem.Overlaps))
      else r.Ok?
  {
    assert forall k :: 0 <= k < |seen| ==>
      (seen[k].Overlaps(d.offset, d.offset + d.size) <==>
        d.offset < seen[k].end && seen[k].start < d.offset + d.size);
  }

  /** The descriptors one after the other, each admitted beside those before it. */
  function Admitted(data: Bytes, table: Bytes, tableAt: nat, schedule: Schedule, at: nat, count: nat,
                    seen: seq<Restored>)
    : (r: Result<seq<Restored>>)
    requires tableAt <= |data|
    ensures r.Err? && schedule.Keyable() ==> !r.error.Internal()
    decreases count
  {
    if count == 0 then Ok(seen)
    else
      var parsed :- ReadDescriptor(table, at);
      var restored :- Admit(data, tableAt, schedule, seen, parsed.d);
      Admitted(data, table, tableAt, schedule, parsed.next, count - 1, seen + [restored])
  }

  /** What is left to admit gives the whole answer. */
  ghost predicate Gives(data: Bytes, table: Bytes, tableAt: nat, schedule: Schedule, at: nat, count: nat,
                        seen: seq<Restored>, answer: Result<seq<Restored>>)
    requires tableAt <= |data|
  {
    Admitted(data, table, tableAt, schedule, at, count, seen) == answer
  }

  lemma AdmittedStep(data: Bytes, table: Bytes, tableAt: nat, schedule: Schedule, at: nat, count: nat,
                     seen: seq<Restored>, answer: Result<seq<Restored>>, parsed: Parsed, more: Restored)
    requires tableAt <= |data| && count > 0 && Gives(data, table, tableAt, schedule, at, count, seen, answer)
    requires ReadDescriptor(table, at) == Ok(parsed) && Admit(data, tableAt, schedule, seen, parsed.d) == Ok(more)
    ensures Gives(data, table, tableAt, schedule, parsed.next, count - 1, seen + [more], answer)
  {
  }

  lemma AdmittedStepBack(data: Bytes, table: Bytes, tableAt: nat, schedule: Schedule, at: nat, count: nat,
                         seen: seq<Restored>, answer: Result<seq<Restored>>, parsed: Parsed, more: Restored)
    requires tableAt <= |data| && count > 0
    requires ReadDescriptor(table, at) == Ok(parsed) && Admit(data, tableAt, schedule, seen, parsed.d) == Ok(more)
    requires Gives(data, table, tableAt, schedule, parsed.next, count - 1, seen + [more], answer)
    ensures Gives(data, table, tableAt, schedule, at, count, seen, answer)
  {
  }

  lemma AdmittedStops(data: Bytes, table: Bytes, tableAt: nat, schedule: Schedule, at: nat, count: nat,
                      seen: seq<Restored>, answer: Result<seq<Restored>>, e: Error)
    requires tableAt <= |data| && count > 0 && Gives(data, table, tableAt, schedule, at, count, seen, answer)
    requires var r := ReadDescriptor(table, at);
      r == Err(e) || (r.Ok? && Admit(data, tableAt, schedule, seen, r.value.d) == Err(e))
    ensures answer == Err(e)
  {
  }

  lemma AllAreGiven(data: Bytes, table: Bytes, tableAt: nat, schedule: Schedule, at: nat, seen: seq<Restored>,
                    answer: Result<seq<Restored>>)
    requires tableAt <= |data| && Gives(data, table, tableAt, schedule, at, 0, seen, answer)
    ensures answer == Ok(seen)
  {
  }

  /** Where the prefix says the table is, if that lies after the prefix and inside the data. */
  function TableBounds(data: Bytes, schedule: Schedule): (r: Result<(nat, nat)>)
    ensures r.Err? && schedule.Takes(0) ==> !r.error.Internal()
    ensures r.Ok? ==> schedule.Takes(0)
    ensures r.Ok? ==> PREFIX_LEN <= r.value.0 <= r.value.1 <= |data|
  {
    if |data| < PREFIX_LEN then Err(BadParameters(SummaryStream, Truncated(|data|, PREFIX_LEN)))
    else if !schedule.Takes(0) then Err(InvariantViolated(Rc4KeyLength))
    else
      var prefix := schedule.Keyed(data[..8], 0);
      var at, size := ReadLe32(prefix, 0).value, ReadLe32(prefix, 4).value;
      if at < PREFIX_LEN || at + size > |data| then
        Err(BadParameters(SummaryDescriptorArray, OutOfBounds(at, size, |data|)))
      else
        Ok((at, at + size))
  }

  /** The declared count, if the table could hold that many of the smallest descriptors. */
  function DeclaredCount(table: Bytes): (r: Result<nat>)
    ensures r.Err? ==> !r.error.Internal()
    ensures r.Ok? ==> 4 + 18 * r.value <= |table| && ReadLe32(table, 0) == Some(r.value)
  {
    match ReadLe32(table, 0)
    case None => Err(BadParameters(SummaryDescriptorArray, Truncated(|table|, COUNT_LEN)))
    case Some(count) =>
      if 18 * count > |table| - 4 then
        Err(BadParameters(SummaryDescriptorCount, OutOfRange(count, 0, (|table| - 4) / 18)))
      else
        Ok(count)
  }

  /** What the stream restores. */
  function Unsealed(data: Bytes, schedule: Schedule): (r: Result<seq<Restored>>)
    ensures r.Err? && schedule.Keyable() ==> !r.error.Internal()
  {
    var bounds :- TableBounds(data, schedule);
    var table := schedule.Keyed(data[bounds.0..bounds.1], 0);
    var count :- DeclaredCount(table);
    Admitted(data, table, bounds.0, schedule, COUNT_LEN, count, [])
  }

  // ----- what holds of everything admitted -----

  /** Distinct names, extents between the prefix and the table, no two overlapping. */
  ghost predicate Sound(restored: seq<Restored>, tableAt: nat) {
    && (forall i :: 0 <= i < |restored| ==>
      && 8 <= restored[i].start <= restored[i].end <= tableAt
      && |restored[i].bytes| == restored[i].end - restored[i].start)
    && (forall i, j :: 0 <= i < j < |restored| ==>
      && restored[i].name != restored[j].name
      && !restored[i].Overlaps(restored[j].start, restored[j].end))
  }

  function TotalBytes(restored: seq<Restored>): nat {
    if restored == [] then 0 else |restored[0].bytes| + TotalBytes(restored[1..])
  }

  lemma NoThreeNames(a: PropertySet, b: PropertySet, c: PropertySet)
    ensures a == b || a == c || b == c
  {
  }

  /** With two names to choose from, there are at most two, and together they fit before the table. */
  lemma SoundIsSmall(restored: seq<Restored>, tableAt: nat)
    requires Sound(restored, tableAt)
    ensures |restored| <= 2
    ensures restored != [] ==> TotalBytes(restored) + 8 <= tableAt
  {
    if |restored| >= 3 {
      NoThreeNames(restored[0].name, restored[1].name, restored[2].name);
    }
    if |restored| == 1 {
      assert restored[1..] == [];
    }
    if |restored| == 2 {
      var first, second := restored[0], restored[1];
      assert restored[1..] == [second] && TotalBytes([second]) == |second.bytes|;
      assert !first.Overlaps(second.start, second.end);
    }
  }

  lemma AdmitKeepsSound(data: Bytes, tableAt: nat, schedule: Schedule, seen: seq<Restored>, d: Descriptor)
    requires tableAt <= |data| && Sound(seen, tableAt) && Admit(data, tableAt, schedule, seen, d).Ok?
    ensures Sound(seen + [Admit(data, tableAt, schedule, seen, d).value], tableAt)
  {
    var more := Admit(data, tableAt, schedule, seen, d).value;
    var all := seen + [more];
    forall i, j | 0 <= i < j < |all|
      ensures all[i].name != all[j].name && !all[i].Overlaps(all[j].start, all[j].end)
    {
      if j == |seen| {
        assert all[i] == seen[i] && all[j] == more;
      } else {
        assert all[i] == seen[i] && all[j] == seen[j];
      }
    }
  }

  lemma AdmittedFirst(data: Bytes, table: Bytes, tableAt: nat, schedule: Schedule, at: nat, count: nat,
                      seen: seq<Restored>, all: seq<Restored>)
    returns (next: nat, left: nat, grown: seq<Restored>)
    requires tableAt <= |data| && count > 0 && Sound(seen, tableAt)
    requires Gives(data, table, tableAt, schedule, at, count, seen, Ok(all))
    ensures Sound(grown, tableAt) && |grown| == |seen| + 1 && left == count - 1
    ensures Gives(data, table, tableAt, schedule, next, left, grown, Ok(all))
  {
    var parsed := ReadDescriptor(table, at).value;
    var more := Admit(data, tableAt, schedule, seen, parsed.d).value;
    next, left, grown := parsed.next, count - 1, seen + [more];
    AdmittedStep(data, table, tableAt, schedule, at, count, seen, Ok(all), parsed, more);
    AdmitKeepsSound(data, tableAt, schedule, seen, parsed.d);
  }

  lemma {:induction false} AdmittedIsSound(data: Bytes, table: Bytes, tableAt: nat, schedule: Schedule, at: nat,
                                           count: nat, seen: seq<Restored>, all: seq<Restored>)
    requires tableAt <= |data| && Sound(seen, tableAt)
    requires Gives(data, table, tableAt, schedule, at, count, seen, Ok(all))
    ensures Sound(all, tableAt) && |all| == |seen| + count
    decreases count
  {
    if count > 0 {
      var next, left, grown := AdmittedFirst(data, table, tableAt, schedule, at, count, seen, all);
      AdmittedIsSound(data, table, tableAt, schedule, next, left, grown, all);
    } else {
      AllAreGiven(data, table, tableAt, schedule, at, seen, Ok(all));
    }
  }

  /**
   On every input, success means two streams at most, of distinct names, from disjoint
   extents between the prefix and the table, adding up to no more than lies between them.
   */
  lemma UnsealedIsSound(data: Bytes, schedule: Schedule)
    ensures var r := Unsealed(data, schedule); r.Ok? ==>
      var tableAt := TableBounds(data, schedule).value.0;
      && Sound(r.value, tableAt) && |r.value| <= 2 && TotalBytes(r.value) + 8 <= tableAt <= |data|
  {
    if Unsealed(data, schedule).Ok? {
      var bounds := TableBounds(data, schedule).value;
      var table := schedule.Keyed(data[bounds.0..bounds.1], 0);
      AdmittedIsSound(data, table, bounds.0, schedule, COUNT_LEN, DeclaredCount(table).value, [],
                      Unsealed(data, schedule).value);
      SoundIsSmall(Unsealed(data, schedule).value, bounds.0);
    }
  }

  // ----- the parse as the program makes it -----

  method DecryptCopy(schedule: Schedule, bytes: Bytes, block: nat) returns (r: Result<Bytes>)
    ensures r ==
      if schedule.Takes(block) then Ok(schedule.Keyed(bytes, block)) else Err(InvariantViolated(Rc4KeyLength))
  {
    var copy := new Byte[|bytes|](i requires 0 <= i < |bytes| => bytes[i]);
    var applied :- ApplyKeystream(schedule, copy, 0, |bytes|, block);
    assert copy[..] == schedule.Keyed(bytes, block);
    return Ok(copy[..]);
  }

  lemma TableDecides(data: Bytes, schedule: Schedule, tableAt: nat, tableEnd: nat, table: Bytes, count: nat)
    requires TableBounds(data, schedule) == Ok((tableAt, tableEnd))
    requires table == schedule.Keyed(data[tableAt..tableEnd], 0) && DeclaredCount(table) == Ok(count)
    ensures Unsealed(data, schedule) == Admitted(data, table, tableAt, schedule, COUNT_LEN, count, [])
  {
  }

  method ReadBounds(data: Bytes, schedule: Schedule) returns (r: Result<(nat, nat)>)
    ensures r == TableBounds(data, schedule)
  {
    if |data| < PREFIX_LEN {
      return Err(BadParameters(SummaryStream, Truncated(|data|, PREFIX_LEN)));
    }
    var prefix :- DecryptCopy(schedule, data[..8], 0);
    var tableAt, size := ReadLe32(prefix, 0).value, ReadLe32(prefix, 4).value;
    var tableEnd := tableAt + size;
    if tableAt < PREFIX_LEN || tableEnd > |data| {
      return Err(BadParameters(SummaryDescriptorArray, OutOfBounds(tableAt, size, |data|)));
    }
    return Ok((tableAt, tableEnd));
  }

  /** `turns` counts the descriptors read: three at most, whatever the declared count. */
  method DecryptStream(data: Bytes, schedule: Schedule) returns (r: Result<seq<Restored>>, ghost turns: nat)
    ensures r == Unsealed(data, schedule)
    ensures turns <= 3 && 18 * turns <= |data|
  {
    turns := 0;
    var bounds := ReadBounds(data, schedule);
    if bounds.Err? {
      return Err(bounds.error), turns;
    }
    var (tableAt, tableEnd) := bounds.value;
    var decrypted := DecryptCopy(schedule, data[tableAt..tableEnd], 0);
    var table := decrypted.value;
    var declared := DeclaredCount(table);
    if declared.Err? {
      return Err(declared.error), turns;
    }
    TableDecides(data, schedule, tableAt, tableEnd, table, declared.value);
    ghost var answer := Unsealed(data, schedule);
    r, turns := AdmitAll(data, table, tableAt, schedule, declared.value, answer);
  }

  method AdmitAll(data: Bytes, table: Bytes, tableAt: nat, schedule: Schedule, count: nat,
                  ghost answer: Result<seq<Restored>>)
    returns (r: Result<seq<Restored>>, ghost turns: nat)
    requires tableAt <= |data| && Gives(data, table, tableAt, schedule, COUNT_LEN, count, [], answer)
    ensures r == answer
    ensures turns <= 3 && turns <= count
  {
    turns := 0;
    var restored: seq<Restored> := [];
    var at := COUNT_LEN;
    var left := count;
    while left > 0
      invariant Gives(data, table, tableAt, schedule, at, left, restored, answer)
      invariant turns == |restored| <= 2 && turns + left == count && Sound(restored, tableAt)
    {
      turns := turns + 1;
      var more := AdmitAt(data, table, tableAt, schedule, at, restored, left, answer);
      if more.Err? {
        return Err(more.error), turns;
      }
      restored, at, left := restored + [more.value.0], more.value.1, left - 1;
      SoundIsSmall(restored, tableAt);
    }
    AllAreGiven(data, table, tableAt, schedule, at, restored, answer);
    return Ok(restored), turns;
  }

  /** One turn of the loop: a descriptor read and admitted. */
  method AdmitAt(data: Bytes, table: Bytes, tableAt: nat, schedule: Schedule, at: nat, seen: seq<Restored>,
                 ghost count: nat, ghost answer: Result<seq<Restored>>)
    returns (r: Result<(Restored, nat)>)
    requires tableAt <= |data| && count > 0 && Sound(seen, tableAt)
    requires Gives(data, table, tableAt, schedule, at, count, seen, answer)
    ensures r.Ok? ==>
      && Gives(data, table, tableAt, schedule, r.value.1, count - 1, seen + [r.value.0], answer)
      && Sound(seen + [r.value.0], tableAt)
    ensures r.Err? ==> answer == Err(r.error)
  {
    var parsed := ReadDescriptor(table, at);
    if parsed.Err? {
      AdmittedStops(data, table, tableAt, schedule, at, count, seen, answer, parsed.error);
      return Err(parsed.error);
    }
    var admitted := AdmitNext(data, tableAt, schedule, seen, parsed.value.d);
    if admitted.Err? {
      AdmittedStops(data, table, tableAt, schedule, at, count, seen, answer, admitted.error);
      return Err(admitted.error);
    }
    AdmittedStep(data, table, tableAt, schedule, at, count, seen, answer, parsed.value, admitted.value);
    return Ok((admitted.value, parsed.value.next));
  }

  /** One descriptor's checks, in their order, and its stream decrypted. */
  method AdmitNext(data: Bytes, tableAt: nat, schedule: Schedule, seen: seq<Restored>, d: Descriptor)
    returns (r: Result<Restored>)
    requires tableAt <= |data| && Sound(seen, tableAt)
    ensures r == Admit(data, tableAt, schedule, seen, d)
    ensures r.Ok? ==> Sound(seen + [r.value], tableAt)
  {
    if d.flags % 2 == 0 {
      return Err(UnsupportedEncryptedContent);
    }
    var name := PropertySetName(d.name);
    if name.None? {
      return Err(UnsupportedEncryptedContent);
    }
    if NameTaken(seen, name.value) {
      return Err(BadParameters(SummaryDescriptor, Duplicate));
    }
    var end := d.offset + d.size;
    if d.offset < PREFIX_LEN || end > tableAt {
      return Err(BadParameters(SummaryStreamExtent, OutOfBounds(d.offset, d.size, tableAt)));
    }
    if ExtentTaken(seen, d.offset, end) {
      return Err(BadParameters(SummaryStreamExtent, FileProblem.Overlaps));
    }
    var plain :- DecryptCopy(schedule, data[d.offset..end], d.block);
    AdmitKeepsSound(data, tableAt, schedule, seen, d);
    return Ok(Restored(name.value, d.offset, end, plain));
  }
}
