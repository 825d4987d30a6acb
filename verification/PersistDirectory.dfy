/** The PowerPoint persist object directory: `persist_directory` in `binary_office.rs`. */
module PersistDirectory {
  import opened Errors
  import opened Octets

  const RT_PERSIST_DIRECTORY_ATOM: nat := 0x1772
  const PPT_PERSIST_OBJECTS_MAX: nat := 0x10_0000
  const PPT_PERSIST_DIRECTORY_READ_CAP: nat := 0x80_0000

  // ----- entries, and how they are written -----

  /** A run of consecutive identifiers: section 2.3.5 of [MS-PPT]. */
  datatype Entry = Entry(firstId: nat, offsets: seq<nat>) {

    predicate Formed() {
      && firstId < 0x10_0000 && 1 <= |offsets| < 0x1000
      && forall i :: 0 <= i < |offsets| ==> offsets[i] < U32_LIMIT
    }

    function Word(): nat {
      firstId + 0x10_0000 * |offsets|
    }

    function Written(): Bytes {
      Le32(Word()) + Words(offsets)
    }

    predicate Names(id: nat) {
      firstId <= id < firstId + |offsets|
    }
  }

  function Words(offsets: seq<nat>): (b: Bytes)
    ensures |b| == 4 * |offsets|
  {
    if offsets == [] then [] else Words(offsets[..|offsets| - 1]) + Le32(offsets[|offsets| - 1])
  }

  function WrittenAll(es: seq<Entry>): Bytes {
    if es == [] then [] else es[0].Written() + WrittenAll(es[1..])
  }

  function Objects(es: seq<Entry>): nat {
    if es == [] then 0 else |es[0].offsets| + Objects(es[1..])
  }

  predicate AllFormed(es: seq<Entry>) {
    forall i :: 0 <= i < |es| ==> es[i].Formed()
  }

  // ----- what a run of entries says -----

  /** The first `n` identifiers of an entry, each replacing what the directory had. */
  function Applied(d: map<nat, nat>, e: Entry, n: nat): map<nat, nat>
    requires n <= |e.offsets|
  {
    if n == 0 then d else Applied(d, e, n - 1)[e.firstId + n - 1 := e.offsets[n - 1]]
  }

  function Folded(d: map<nat, nat>, es: seq<Entry>): map<nat, nat>
    decreases |es|
  {
    if es == [] then d else Folded(Applied(d, es[0], |es[0].offsets|), es[1..])
  }

  /** The offset the last entry naming an identifier gives it. */
  function LastOffset(es: seq<Entry>, id: nat): Option<nat> {
    if es == [] then None
    else
      var later := LastOffset(es[1..], id);
      if later.Some? then later
      else if es[0].Names(id) then Some(es[0].offsets[id - es[0].firstId])
      else None
  }

  lemma {:induction false} AppliedAt(d: map<nat, nat>, e: Entry, n: nat, id: nat)
    requires n <= |e.offsets|
    ensures
      var a := Applied(d, e, n);
      if e.firstId <= id < e.firstId + n then id in a && a[id] == e.offsets[id - e.firstId]
      else (id in a <==> id in d) && (id in a ==> a[id] == d[id])
  {
    if n > 0 {
      AppliedAt(d, e, n - 1, id);
    }
  }

  /** Later identifiers win: the directory holds exactly what the last entry to name each one says. */
  lemma {:induction false} LaterWins(d: map<nat, nat>, es: seq<Entry>, id: nat)
    ensures
      var f, last := Folded(d, es), LastOffset(es, id);
      if last.Some? then id in f && f[id] == last.value
      else (id in f <==> id in d) && (id in f ==> f[id] == d[id])
    decreases |es|
  {
    if es != [] {
      AppliedAt(d, es[0], |es[0].offsets|, id);
      LaterWins(Applied(d, es[0], |es[0].offsets|), es[1..], id);
    }
  }

  // ----- the parse -----

  function OffsetsAt(body: Bytes, pos: nat, n: nat): (o: seq<nat>)
    requires pos + 4 * n <= |body|
    ensures |o| == n && forall i :: 0 <= i < n ==> o[i] < U32_LIMIT
  {
    if n == 0 then [] else OffsetsAt(body, pos, n - 1) + [ReadLe32(body, pos + 4 * (n - 1)).value]
  }

  function EntryAt(body: Bytes, pos: nat): (e: Option<Entry>)
    ensures e.Some? ==> e.value.Formed() && pos + 4 + 4 * |e.value.offsets| <= |body|
  {
    match ReadLe32(body, pos)
    case None => None
    case Some(word) =>
      var count := word / 0x10_0000;
      if count == 0 || pos + 4 + 4 * count > |body| then None
      else Some(Entry(word % 0x10_0000, OffsetsAt(body, pos + 4, count)))
  }

  /** The entries from a position on, with `objects` identifiers already counted. */
  function EntriesFrom(body: Bytes, pos: nat, objects: nat): Option<seq<Entry>>
    decreases |body| - pos
  {
    if pos >= |body| then Some([])
    else
      match EntryAt(body, pos)
      case None => None
      case Some(e) =>
        if objects + |e.offsets| > PPT_PERSIST_OBJECTS_MAX then None
        else
          match EntriesFrom(body, pos + 4 + 4 * |e.offsets|, objects + |e.offsets|)
          case None => None
          case Some(es) => Some([e] + es)
  }

  lemma {:induction false} OffsetsWriteBack(body: Bytes, pos: nat, n: nat)
    requires pos + 4 * n <= |body|
    ensures Words(OffsetsAt(body, pos, n)) == body[pos..pos + 4 * n]
  {
    if n > 0 {
      OffsetsWriteBack(body, pos, n - 1);
      WriteBack32(body, pos + 4 * (n - 1));
      var before, last := OffsetsAt(body, pos, n - 1), ReadLe32(body, pos + 4 * (n - 1)).value;
      assert (before + [last])[..n - 1] == before;
    }
  }

  lemma {:induction false} OffsetsReadBack(body: Bytes, pos: nat, offsets: seq<nat>)
    requires pos + 4 * |offsets| <= |body| && body[pos..pos + 4 * |offsets|] == Words(offsets)
    requires forall i :: 0 <= i < |offsets| ==> offsets[i] < U32_LIMIT
    ensures OffsetsAt(body, pos, |offsets|) == offsets
    decreases |offsets|
  {
    if offsets != [] {
      var n := |offsets| - 1;
      var before, last := offsets[..n], offsets[n];
      Split(body, pos, Words(before), Le32(last));
      OffsetsReadBack(body, pos, before);
      ReadBack32(body, pos + 4 * n, last);
    }
  }

  lemma EntryWritesBack(body: Bytes, pos: nat)
    requires EntryAt(body, pos).Some?
    ensures var e := EntryAt(body, pos).value; e.Written() == body[pos..pos + 4 + 4 * |e.offsets|]
  {
    var e := EntryAt(body, pos).value;
    var n, word := |e.offsets|, ReadLe32(body, pos).value;
    WordSplits(e, word);
    WriteBack32(body, pos);
    OffsetsWriteBack(body, pos + 4, n);
    Join(body, pos, pos + 4, pos + 4 + 4 * n);
  }

  lemma WordSplits(e: Entry, word: nat)
    requires e.firstId == word % 0x10_0000 && |e.offsets| == word / 0x10_0000
    ensures e.Word() == word
  {
  }

  lemma EntryReadsBack(body: Bytes, pos: nat, e: Entry)
    requires e.Formed() && pos + 4 + 4 * |e.offsets| <= |body|
    requires body[pos..pos + 4 + 4 * |e.offsets|] == e.Written()
    ensures EntryAt(body, pos) == Some(e)
  {
    Split(body, pos, Le32(e.Word()), Words(e.offsets));
    ReadBack32(body, pos, e.Word());
    OffsetsReadBack(body, pos + 4, e.offsets);
    WordParts(e);
  }

  lemma WordParts(e: Entry)
    requires e.Formed()
    ensures e.Word() < U32_LIMIT && e.Word() % 0x10_0000 == e.firstId && e.Word() / 0x10_0000 == |e.offsets|
  {
  }

  lemma EntriesStep(body: Bytes, pos: nat, objects: nat, e: Entry, rest: seq<Entry>)
    requires EntryAt(body, pos) == Some(e) && objects + |e.offsets| <= PPT_PERSIST_OBJECTS_MAX
    requires EntriesFrom(body, pos + 4 + 4 * |e.offsets|, objects + |e.offsets|) == Some(rest)
    ensures EntriesFrom(body, pos, objects) == Some([e] + rest)
  {
  }

  lemma WrittenOneMore(e: Entry, rest: seq<Entry>)
    ensures WrittenAll([e] + rest) == e.Written() + WrittenAll(rest)
    ensures Objects([e] + rest) == |e.offsets| + Objects(rest)
  {
    assert ([e] + rest)[1..] == rest;
  }

  /** Formed entries within the identifier space that are the body from a position on. */
  ghost predicate WritesRest(body: Bytes, pos: nat, objects: nat, es: seq<Entry>)
    requires pos <= |body|
  {
    AllFormed(es) && WrittenAll(es) == body[pos..] && objects + Objects(es) <= PPT_PERSIST_OBJECTS_MAX
  }

  lemma WritesOneMore(body: Bytes, pos: nat, objects: nat, e: Entry, rest: seq<Entry>)
    requires EntryAt(body, pos) == Some(e)
    requires WritesRest(body, pos + 4 + 4 * |e.offsets|, objects + |e.offsets|, rest)
    ensures WritesRest(body, pos, objects, [e] + rest)
  {
    var next := pos + 4 + 4 * |e.offsets|;
    EntryWritesBack(body, pos);
    WrittenOneMore(e, rest);
    Join(body, pos, next, |body|);
    assert body[pos..] == body[pos..|body|] && body[next..] == body[next..|body|];
  }

  /** What parses is formed, within the identifier space, and is the body to the last byte. */
  lemma {:induction false} ParsedIsWritten(body: Bytes, pos: nat, objects: nat)
    requires pos <= |body| && EntriesFrom(body, pos, objects).Some? && objects <= PPT_PERSIST_OBJECTS_MAX
    ensures WritesRest(body, pos, objects, EntriesFrom(body, pos, objects).value)
    decreases |body| - pos
  {
    if pos < |body| {
      var e := EntryAt(body, pos).value;
      var next := pos + 4 + 4 * |e.offsets|;
      var rest := EntriesFrom(body, next, objects + |e.offsets|).value;
      EntriesStep(body, pos, objects, e, rest);
      ParsedIsWritten(body, next, objects + |e.offsets|);
      WritesOneMore(body, pos, objects, e, rest);
    }
  }

  /** And what is written, formed and within the space, parses to itself. */
  lemma {:induction false} WrittenIsParsed(body: Bytes, pos: nat, objects: nat, es: seq<Entry>)
    requires pos <= |body| && AllFormed(es) && body[pos..] == WrittenAll(es)
    requires objects + Objects(es) <= PPT_PERSIST_OBJECTS_MAX
    ensures EntriesFrom(body, pos, objects) == Some(es)
    decreases |es|
  {
    if es == [] {
      SplitTail(body, pos, [], []);
    } else {
      var e := es[0];
      SplitTail(body, pos, e.Written(), WrittenAll(es[1..]));
      EntryReadsBack(body, pos, e);
      WrittenIsParsed(body, pos + 4 + 4 * |e.offsets|, objects + |e.offsets|, es[1..]);
      EntriesStep(body, pos, objects, e, es[1..]);
      assert es == [e] + es[1..];
    }
  }

  /** The body of the atom at a position, once its header is one and its length is within the cap. */
  function BodyAt(src: Bytes, at: nat): Option<Bytes> {
    if at + 8 > |src| then None
    else
      var verInstance, recType := ReadLe16(src, at).value, ReadLe16(src, at + 2).value;
      var recLen := ReadLe32(src, at + 4).value;
      if verInstance != 0 || recType != RT_PERSIST_DIRECTORY_ATOM || recLen > PPT_PERSIST_DIRECTORY_READ_CAP then None
      else if at + 8 + recLen > |src| then None
      else Some(src[at + 8..at + 8 + recLen])
  }

  function Directory(src: Bytes, at: nat): Option<map<nat, nat>> {
    match BodyAt(src, at)
    case None => None
    case Some(body) =>
      match EntriesFrom(body, 0, 0)
      case None => None
      case Some(es) => Some(Folded(map[], es))
  }

  /** An atom as a writer writes it. */
  function Atom(es: seq<Entry>): Bytes {
    Le16(0) + Le16(RT_PERSIST_DIRECTORY_ATOM) + Le32(|WrittenAll(es)|) + WrittenAll(es)
  }

  /**
   The directory is there exactly when the atom's body is the writing of formed entries
   within the identifier space, and then it is their fold.
   */
  lemma DirectoryInvertsTheWriter(src: Bytes, at: nat, es: seq<Entry>)
    requires AllFormed(es)
    ensures BodyAt(src, at) == Some(WrittenAll(es)) && Objects(es) <= PPT_PERSIST_OBJECTS_MAX
      ==> Directory(src, at) == Some(Folded(map[], es))
    ensures Directory(src, at).Some? ==>
      && BodyAt(src, at).Some?
      && var found := EntriesFrom(BodyAt(src, at).value, 0, 0).value;
      && AllFormed(found) && BodyAt(src, at) == Some(WrittenAll(found)) && Objects(found) <= PPT_PERSIST_OBJECTS_MAX
      && Directory(src, at) == Some(Folded(map[], found))
  {
    match BodyAt(src, at) {
      case None =>
      case Some(body) =>
        assert body[0..] == body;
        if body == WrittenAll(es) && Objects(es) <= PPT_PERSIST_OBJECTS_MAX {
          WrittenIsParsed(body, 0, 0, es);
        }
        if EntriesFrom(body, 0, 0).Some? {
          ParsedIsWritten(body, 0, 0);
        }
    }
  }

  /** A written atom within the caps is read back wherever in a stream it lies. */
  lemma AtomReadsBack(before: Bytes, after: Bytes, es: seq<Entry>)
    requires AllFormed(es) && Objects(es) <= PPT_PERSIST_OBJECTS_MAX
    requires |WrittenAll(es)| <= PPT_PERSIST_DIRECTORY_READ_CAP
    ensures Directory(before + Atom(es) + after, |before|) == Some(Folded(map[], es))
  {
    var src, at, body := before + Atom(es) + after, |before|, WrittenAll(es);
    assert src[at..at + |Atom(es)|] == Atom(es);
    AtomLies(src, at, es);
    ReadBack16(src, at, 0);
    ReadBack16(src, at + 2, RT_PERSIST_DIRECTORY_ATOM);
    ReadBack32(src, at + 4, |body|);
    assert BodyAt(src, at) == Some(body);
    DirectoryInvertsTheWriter(src, at, es);
  }

  lemma AtomLies(src: Bytes, at: nat, es: seq<Entry>)
    requires at + |Atom(es)| <= |src| && src[at..at + |Atom(es)|] == Atom(es)
    ensures
      var body := WrittenAll(es);
      && |Atom(es)| == 8 + |body|
      && src[at..at + 2] == Le16(0) && src[at + 2..at + 4] == Le16(RT_PERSIST_DIRECTORY_ATOM)
      && src[at + 4..at + 8] == Le32(|body|) && src[at + 8..at + 8 + |body|] == body
  {
    var kind, len, body := Le16(0) + Le16(RT_PERSIST_DIRECTORY_ATOM), Le32(|WrittenAll(es)|), WrittenAll(es);
    Split(src, at, kind + len, body);
    Split(src, at, kind, len);
    Split(src, at, Le16(0), Le16(RT_PERSIST_DIRECTORY_ATOM));
  }

  // ----- the parse as the program makes it -----

  /** One entry's identifiers, each read and put in; `None` if an offset is missing. */
  method ReadRun(body: Bytes, start: nat, firstId: nat, count: nat, d: map<nat, nat>)
    returns (r: Option<map<nat, nat>>)
    ensures r.Some? <==> start + 4 * count <= |body| || count == 0
    ensures r.Some? && start + 4 * count <= |body| ==>
      r.value == Applied(d, Entry(firstId, OffsetsAt(body, start, count)), count)
    ensures count == 0 ==> r == Some(d)
  {
    var directory, pos := d, start;
    for i := 0 to count
      invariant pos == start + 4 * i && (i > 0 ==> pos <= |body|)
      invariant start + 4 * count <= |body| ==>
        directory == Applied(d, Entry(firstId, OffsetsAt(body, start, count)), i)
      invariant i == 0 ==> directory == d
    {
      var offset := ReadLe32(body, pos);
      if offset.None? {
        return None;
      }
      if start + 4 * count <= |body| {
        OffsetAt(body, start, count, i);
      }
      directory := directory[firstId + i := offset.value];
      pos := pos + 4;
    }
    return Some(directory);
  }

  lemma {:induction false} OffsetAt(body: Bytes, pos: nat, n: nat, i: nat)
    requires pos + 4 * n <= |body| && i < n
    ensures Some(OffsetsAt(body, pos, n)[i]) == ReadLe32(body, pos + 4 * i)
  {
    if i < n - 1 {
      OffsetAt(body, pos, n - 1, i);
    }
  }

  method PersistDirectory(src: Bytes, at: nat) returns (r: Option<map<nat, nat>>)
    ensures r == Directory(src, at)
  {
    if at + 8 > |src| {
      return None;
    }
    var verInstance, recType := ReadLe16(src, at).value, ReadLe16(src, at + 2).value;
    var recLen := ReadLe32(src, at + 4).value;
    if verInstance != 0 || recType != RT_PERSIST_DIRECTORY_ATOM || recLen > PPT_PERSIST_DIRECTORY_READ_CAP {
      return None;
    }
    if at + 8 + recLen > |src| {
      return None;
    }
    r := ReadEntries(src[at + 8..at + 8 + recLen]);
  }

  method ReadEntries(body: Bytes) returns (r: Option<map<nat, nat>>)
    ensures r == match EntriesFrom(body, 0, 0) case None => None case Some(es) => Some(Folded(map[], es))
  {
    var directory: map<nat, nat> := map[];
    var objects: nat, pos: nat := 0, 0;
    ghost var all := EntriesFrom(body, 0, 0);
    while pos < |body|
      invariant pos <= |body| && objects <= PPT_PERSIST_OBJECTS_MAX
      invariant var left := EntriesFrom(body, pos, objects);
        && (all.Some? <==> left.Some?)
        && (all.Some? ==> Folded(map[], all.value) == Folded(directory, left.value))
      decreases |body| - pos
    {
      var word := ReadLe32(body, pos);
      if word.None? {
        return None;
      }
      var firstId, count := word.value % 0x10_0000, word.value / 0x10_0000;
      if count == 0 {
        return None;
      }
      objects := objects + count;
      if objects > PPT_PERSIST_OBJECTS_MAX {
        return None;
      }
      var run := ReadRun(body, pos + 4, firstId, count, directory);
      if run.None? {
        return None;
      }
      directory, pos := run.value, pos + 4 + 4 * count;
    }
    return Some(directory);
  }
}
