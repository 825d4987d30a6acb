/**
 The names a `DataSpaceMap` declares: the reader (`data_space_map.rs`) against the writer
 (`dataspaces.rs`). A name is its UTF-16 code units.
 */
module DataSpaceMap {
  import opened Errors
  import opened Octets

  type Unit = x: int | 0 <= x < 0x1_0000
  type Name = seq<Unit>

  const HEADER_LENGTH: nat := 8
  const ENTRY_FIXED_LEN: nat := 8

  // ----- the writer -----

  function Utf16(name: Name): (b: Bytes)
    ensures |b| == 2 * |name|
  {
    if name == [] then [] else Utf16(name[..|name| - 1]) + Le16(name[|name| - 1])
  }

  function PadLen(n: nat): (p: nat)
    ensures p < 4 && (n + p) % 4 == 0
  {
    (4 - n % 4) % 4
  }

  /** A `UNICODE-LP-P4`: section 2.1.2 of [MS-OFFCRYPTO]. */
  function WriteLpP4(name: Name): (b: Bytes)
    ensures |b| == 4 + 2 * |name| + PadLen(2 * |name|)
  {
    Le32(2 * |name|) + Utf16(name) + Zeros(PadLen(2 * |name|))
  }

  datatype Component = Component(kind: nat, name: Name) {

    function Written(): Bytes {
      Le32(kind) + WriteLpP4(name)
    }
  }

  function WrittenComponents(cs: seq<Component>): Bytes {
    if cs == [] then [] else cs[0].Written() + WrittenComponents(cs[1..])
  }

  /** Section 2.1.6: the length counts the whole entry, itself included. */
  datatype Entry = Entry(components: seq<Component>, name: Name) {

    function Rest(): Bytes {
      Le32(|components|) + (WrittenComponents(components) + WriteLpP4(name))
    }

    function Written(): (b: Bytes)
      ensures |b| >= 12
    {
      Le32(4 + |Rest()|) + Rest()
    }

    predicate Fits() {
      |Written()| < U32_LIMIT && |components| < U32_LIMIT
    }
  }

  function WrittenEntries(es: seq<Entry>): (ws: seq<Bytes>)
    ensures |ws| == |es|
  {
    seq(|es|, i requires 0 <= i < |es| => es[i].Written())
  }

  predicate AllFit(es: seq<Entry>) {
    forall i :: 0 <= i < |es| ==> es[i].Fits()
  }

  function NamesOf(es: seq<Entry>): (names: seq<Name>)
    ensures |names| == |es|
  {
    seq(|es|, i requires 0 <= i < |es| => es[i].name)
  }

  // ----- walking from one item to the next -----

  datatype Step = Step(name: Name, next: nat)

  /** At most `count` items, each from where the one before it ended, up to the first that cannot be read. */
  function Collected(read: nat -> Option<Step>, at: nat, count: nat): (items: seq<Name>)
    ensures |items| <= count
    decreases count
  {
    if count == 0 then []
    else
      match read(at)
      case None => []
      case Some(step) => [step.name] + Collected(read, step.next, count - 1)
  }

  /** Each item is read where the one before it ended. */
  ghost predicate InTurn(read: nat -> Option<Step>, ats: seq<nat>, items: seq<Name>) {
    && |ats| == |items| + 1
    && forall i :: 0 <= i < |items| ==> read(ats[i]) == Some(Step(items[i], ats[i + 1]))
  }

  /** Items known to follow one another are collected first, then what the rest gives. */
  lemma {:induction false} CollectedInTurn(read: nat -> Option<Step>, ats: seq<nat>, items: seq<Name>, count: nat,
                                           start: nat, end: nat, left: nat)
    requires InTurn(read, ats, items) && ats[0] == start && ats[|items|] == end && count == |items| + left
    ensures Collected(read, start, count) == items + Collected(read, end, left)
    decreases |items|
  {
    if items != [] {
      CollectedInTurn(read, ats[1..], items[1..], count - 1, ats[1], end, left);
      var rest := Collected(read, end, left);
      assert [items[0]] + (items[1..] + rest) == items + rest;
    }
  }

  lemma CollectedOneMore(read: nat -> Option<Step>, at: nat, count: nat, before: seq<Name>, item: Name, next: nat)
    requires count > 0 && read(at) == Some(Step(item, next))
    ensures before + Collected(read, at, count) == before + [item] + Collected(read, next, count - 1)
  {
    assert before + ([item] + Collected(read, next, count - 1)) == before + [item] + Collected(read, next, count - 1);
  }

  lemma CollectedNoMore(read: nat -> Option<Step>, at: nat, count: nat, before: seq<Name>)
    requires read(at).None? || count == 0
    ensures before + Collected(read, at, count) == before
  {
  }

  /** When every item takes room, there is only room for so many. */
  lemma {:induction false} CollectedFits(read: nat -> Option<Step>, at: nat, count: nat, room: nat, size: nat)
    requires at <= size
    requires forall p: nat :: read(p).Some? ==> p + room <= read(p).value.next <= size
    ensures at + room * |Collected(read, at, count)| <= size
    decreases count
  {
    if count > 0 && read(at).Some? {
      CollectedFits(read, read(at).value.next, count - 1, room, size);
      var n := |Collected(read, at, count)|;
      assert room * n == room + room * (n - 1);
    }
  }

  // ----- the reader -----

  function UnitsAt(b: Bytes, at: nat, n: nat): (name: Name)
    requires at + 2 * n <= |b|
    ensures |name| == n
  {
    if n == 0 then [] else UnitsAt(b, at, n - 1) + [ReadLe16(b, at + 2 * (n - 1)).value]
  }

  datatype Text = Text(name: Name, next: nat)

  /** The text at a position, and where what follows it starts. */
  function LpP4(b: Bytes, at: nat, end: nat): (r: Option<Text>)
    requires end <= |b|
    ensures r.Some? ==> at + 4 + 2 * |r.value.name| <= end && at + 4 <= r.value.next <= end + 3
  {
    match ReadLe32(b, at)
    case None => None
    case Some(len) =>
      var start := at + 4;
      var stop := start + len;
      if len % 2 != 0 || stop > end then None
      else Some(Text(UnitsAt(b, start, len / 2), stop + PadLen(len)))
  }

  /** Where the components from `p` on end, if each of them can be read. */
  function PastComponents(b: Bytes, p: nat, end: nat, count: nat): (r: Option<nat>)
    requires end <= |b|
    ensures r.Some? ==> p + 8 * count <= r.value
    decreases count
  {
    if count == 0 then Some(p)
    else
      match LpP4(b, p + 4, end)
      case None => None
      case Some(text) => PastComponents(b, text.next, end, count - 1)
  }

  datatype Found = Found(name: Name, end: nat, components: nat)

  /** The name of the entry at a position, and where the entry ends. */
  function EntryAt(b: Bytes, at: nat): (r: Option<Found>)
    ensures r.Some? ==> at + 12 + 8 * r.value.components <= r.value.end <= |b|
  {
    match ReadLe32(b, at)
    case None => None
    case Some(len) =>
      var end := at + len;
      if end > |b| then None
      else
        match ReadLe32(b, at + 4)
        case None => None
        case Some(components) =>
          match PastComponents(b, at + ENTRY_FIXED_LEN, end, components)
          case None => None
          case Some(p) =>
            match LpP4(b, p, end)
            case None => None
            case Some(text) => Some(Found(text.name, end, components))
  }

  function EntryReader(b: Bytes): nat -> Option<Step> {
    (at: nat) =>
      match EntryAt(b, at)
      case None => None
      case Some(found) => Some(Step(found.name, found.end))
  }

  /** The names in order, up to the first entry that does not parse. */
  function DataSpaceNames(b: Bytes): seq<Name> {
    if ReadLe32(b, 0) != Some(HEADER_LENGTH) then []
    else
      match ReadLe32(b, 4)
      case None => []
      case Some(count) => Collected(EntryReader(b), HEADER_LENGTH, count)
  }

  /** On any bytes and any count, twelve bytes are spent on every name after the header's eight. */
  lemma NamesAreFew(b: Bytes)
    ensures DataSpaceNames(b) != [] ==> 8 + 12 * |DataSpaceNames(b)| <= |b|
  {
    if DataSpaceNames(b) != [] {
      CollectedFits(EntryReader(b), HEADER_LENGTH, ReadLe32(b, 4).value, 12, |b|);
    }
  }

  // ----- the reader over what the writer wrote -----

  lemma {:induction false} UnitsReadBack(b: Bytes, at: nat, name: Name)
    requires at + 2 * |name| <= |b| && b[at..at + 2 * |name|] == Utf16(name)
    ensures UnitsAt(b, at, |name|) == name
    decreases |name|
  {
    if name != [] {
      var n := |name| - 1;
      Split(b, at, Utf16(name[..n]), Le16(name[n]));
      UnitsReadBack(b, at, name[..n]);
      ReadBack16(b, at + 2 * n, name[n]);
    }
  }

  lemma LpP4Lies(b: Bytes, at: nat, name: Name)
    requires at + |WriteLpP4(name)| <= |b| && b[at..at + |WriteLpP4(name)|] == WriteLpP4(name)
    ensures b[at..at + 4] == Le32(2 * |name|) && b[at + 4..at + 4 + 2 * |name|] == Utf16(name)
  {
    var len, text, pad := Le32(2 * |name|), Utf16(name), Zeros(PadLen(2 * |name|));
    Split(b, at, len + text, pad);
    Split(b, at, len, text);
  }

  lemma LpP4ReadsBack(b: Bytes, at: nat, end: nat, name: Name)
    requires end <= |b| && at + |WriteLpP4(name)| <= end && 2 * |name| < U32_LIMIT
    requires b[at..at + |WriteLpP4(name)|] == WriteLpP4(name)
    ensures LpP4(b, at, end) == Some(Text(name, at + |WriteLpP4(name)|))
  {
    LpP4Lies(b, at, name);
    ReadBack32(b, at, 2 * |name|);
    UnitsReadBack(b, at + 4, name);
    TextOfParts(b, at, end, |name|);
  }

  lemma TextOfParts(b: Bytes, at: nat, end: nat, n: nat)
    requires at + 4 + 2 * n <= end <= |b| && ReadLe32(b, at) == Some(2 * n)
    ensures LpP4(b, at, end) == Some(Text(UnitsAt(b, at + 4, n), at + 4 + 2 * n + PadLen(2 * n)))
  {
    assert 2 * n % 2 == 0 && 2 * n / 2 == n;
  }

  lemma PastOneMore(b: Bytes, p: nat, end: nat, count: nat, next: nat)
    requires end <= |b| && count > 0 && LpP4(b, p + 4, end).Some? && LpP4(b, p + 4, end).value.next == next
    ensures PastComponents(b, p, end, count) == PastComponents(b, next, end, count - 1)
  {
  }

  lemma ComponentLies(b: Bytes, p: nat, q: nat, cs: seq<Component>)
    requires cs != [] && p <= q <= |b| && b[p..q] == WrittenComponents(cs)
    ensures
      var text := WriteLpP4(cs[0].name);
      var next := p + 4 + |text|;
      next <= q && b[p + 4..next] == text && b[next..q] == WrittenComponents(cs[1..])
  {
    var kind, text, rest := Le32(cs[0].kind), WriteLpP4(cs[0].name), WrittenComponents(cs[1..]);
    Split(b, p, kind + text, rest);
    Split(b, p, kind, text);
  }

  lemma {:induction false} ComponentsReadBack(b: Bytes, p: nat, q: nat, end: nat, cs: seq<Component>)
    requires p <= q <= end <= |b| && q - p < U32_LIMIT && b[p..q] == WrittenComponents(cs)
    ensures PastComponents(b, p, end, |cs|) == Some(q)
    decreases |cs|
  {
    if cs != [] {
      ComponentLies(b, p, q, cs);
      var next := p + 4 + |WriteLpP4(cs[0].name)|;
      ComponentsReadBack(b, next, q, end, cs[1..]);
      LpP4ReadsBack(b, p + 4, end, cs[0].name);
      PastOneMore(b, p, end, |cs|, next);
    }
  }

  lemma EntryLies(b: Bytes, at: nat, len: nat, end: nat, p: nat, e: Entry)
    requires len == |e.Written()| && end == at + len <= |b| && b[at..end] == e.Written()
    requires p == at + 8 + |WrittenComponents(e.components)|
    ensures p <= end && b[at..at + 4] == Le32(len) && b[at + 4..at + 8] == Le32(|e.components|)
    ensures b[at + 8..p] == WrittenComponents(e.components) && b[p..end] == WriteLpP4(e.name)
  {
    var count, cs, name := Le32(|e.components|), WrittenComponents(e.components), WriteLpP4(e.name);
    assert len == 4 + |e.Rest()| == 8 + |cs| + |name|;
    Split(b, at, Le32(len), count + (cs + name));
    Split(b, at + 4, count, cs + name);
    Split(b, at + 8, cs, name);
  }

  lemma EntryReadsBack(b: Bytes, at: nat, len: nat, end: nat, p: nat, e: Entry)
    requires at + 8 <= p <= end == at + len <= |b| && len < U32_LIMIT && |e.components| < U32_LIMIT
    requires b[at..at + 4] == Le32(len) && b[at + 4..at + 8] == Le32(|e.components|)
    requires b[at + 8..p] == WrittenComponents(e.components) && b[p..end] == WriteLpP4(e.name)
    ensures EntryAt(b, at) == Some(Found(e.name, end, |e.components|))
  {
    PartsReadBack(b, at, len, end, p, e);
    EntryOfParts(b, at, len, end, |e.components|, p, e.name);
  }

  /** An entry by its parts: two numbers, and the components and the name behind them. */
  ghost predicate EntryParts(b: Bytes, at: nat, len: nat, end: nat, count: nat, p: nat, name: Name) {
    && end == at + len <= |b| && ReadLe32(b, at) == Some(len) && ReadLe32(b, at + 4) == Some(count)
    && TailIs(b, at + 8, end, count, p, name)
  }

  lemma PartsReadBack(b: Bytes, at: nat, len: nat, end: nat, p: nat, e: Entry)
    requires at + 8 <= p <= end == at + len <= |b| && len < U32_LIMIT && |e.components| < U32_LIMIT
    requires b[at..at + 4] == Le32(len) && b[at + 4..at + 8] == Le32(|e.components|)
    requires b[at + 8..p] == WrittenComponents(e.components) && b[p..end] == WriteLpP4(e.name)
    ensures EntryParts(b, at, len, end, |e.components|, p, e.name)
  {
    ReadBack32(b, at, len);
    ReadBack32(b, at + 4, |e.components|);
    TailReadsBack(b, at + 8, p, end, e);
  }

  /** The components and the name, in the form the walk asks for them. */
  lemma TailReadsBack(b: Bytes, from: nat, p: nat, end: nat, e: Entry)
    requires from <= p <= end <= |b| && end - from < U32_LIMIT
    requires b[from..p] == WrittenComponents(e.components) && b[p..end] == WriteLpP4(e.name)
    ensures TailIs(b, from, end, |e.components|, p, e.name)
  {
    ComponentsReadBack(b, from, p, end, e.components);
    LpP4ReadsBack(b, p, end, e.name);
  }

  ghost predicate TailIs(b: Bytes, from: nat, end: nat, count: nat, p: nat, name: Name)
    requires end <= |b|
  {
    PastComponents(b, from, end, count) == Some(p) && LpP4(b, p, end).Some? && LpP4(b, p, end).value.name == name
  }

  lemma EntryOfParts(b: Bytes, at: nat, len: nat, end: nat, count: nat, p: nat, name: Name)
    requires EntryParts(b, at, len, end, count, p, name)
    ensures EntryAt(b, at) == Some(Found(name, end, count))
  {
  }

  lemma EachEntryReadsBack(b: Bytes, at: nat, es: seq<Entry>, i: nat)
    requires var all := Concat(WrittenEntries(es)); at + |all| <= |b| && b[at..at + |all|] == all
    requires AllFit(es) && i < |es|
    ensures var ats := Starts(at, WrittenEntries(es)); EntryReader(b)(ats[i]) == Some(Step(NamesOf(es)[i], ats[i + 1]))
  {
    var ws := WrittenEntries(es);
    var ats := Starts(at, ws);
    BlockLies(b, at, ws, i);
    assert NamesOf(es)[i] == es[i].name;
    ReaderReadsBack(b, ats[i], |ws[i]|, ats[i + 1], es[i]);
  }

  lemma ReaderReadsBack(b: Bytes, at: nat, len: nat, end: nat, e: Entry)
    requires e.Fits() && end == at + len <= |b| && b[at..end] == e.Written() && len == |e.Written()|
    ensures EntryReader(b)(at) == Some(Step(e.name, end))
  {
    var p := at + 8 + |WrittenComponents(e.components)|;
    EntryLies(b, at, len, end, p, e);
    PartsReadBack(b, at, len, end, p, e);
    ReaderReads(b, at, len, end, |e.components|, p, e.name);
  }

  lemma ReaderReads(b: Bytes, at: nat, len: nat, end: nat, count: nat, p: nat, name: Name)
    requires EntryParts(b, at, len, end, count, p, name)
    ensures EntryReader(b)(at) == Some(Step(name, end))
  {
    EntryOfParts(b, at, len, end, count, p, name);
  }

  lemma AllEntriesReadBack(b: Bytes, at: nat, es: seq<Entry>, read: nat -> Option<Step>)
    requires var all := Concat(WrittenEntries(es)); at + |all| <= |b| && b[at..at + |all|] == all
    requires AllFit(es) && read == EntryReader(b)
    ensures InTurn(read, Starts(at, WrittenEntries(es)), NamesOf(es))
  {
    var ats, names := Starts(at, WrittenEntries(es)), NamesOf(es);
    forall i | 0 <= i < |names|
      ensures read(ats[i]) == Some(Step(names[i], ats[i + 1]))
    {
      EachEntryReadsBack(b, at, es, i);
    }
  }

  lemma CollectedEntries(read: nat -> Option<Step>, at: nat, es: seq<Entry>, count: nat, end: nat, left: nat)
    requires InTurn(read, Starts(at, WrittenEntries(es)), NamesOf(es)) && count == |es| + left
    requires end == at + |Concat(WrittenEntries(es))|
    ensures Collected(read, at, count) == NamesOf(es) + Collected(read, end, left)
  {
    CollectedInTurn(read, Starts(at, WrittenEntries(es)), NamesOf(es), count, at, end, left);
  }

  /** A map as a writer writes it, with a declared count and anything after the entries. */
  function Map(count: nat, es: seq<Entry>, after: Bytes): Bytes {
    Le32(HEADER_LENGTH) + Le32(count) + (Concat(WrittenEntries(es)) + after)
  }

  /**
   Any run of written entries gives its names in order, and then whatever the rest gives:
   nothing, when what follows is malformed or not counted.
   */
  lemma MapReadsBack(b: Bytes, count: nat, es: seq<Entry>, after: Bytes, end: nat, left: nat)
    requires count == |es| + left < U32_LIMIT && AllFit(es)
    requires b == Map(count, es, after) && end == 8 + |Concat(WrittenEntries(es))|
    ensures DataSpaceNames(b) == NamesOf(es) + Collected(EntryReader(b), end, left)
  {
    MapLies(b, count, Concat(WrittenEntries(es)), after);
    AllEntriesReadBack(b, 8, es, EntryReader(b));
    CollectedEntries(EntryReader(b), 8, es, count, end, left);
  }

  lemma MapLies(b: Bytes, count: nat, all: Bytes, after: Bytes)
    requires b == Le32(HEADER_LENGTH) + Le32(count) + (all + after) && count < U32_LIMIT
    ensures 8 + |all| <= |b| && b[8..8 + |all|] == all
    ensures DataSpaceNames(b) == Collected(EntryReader(b), 8, count)
  {
    assert b[0..] == b;
    SplitTail(b, 0, Le32(HEADER_LENGTH) + Le32(count), all + after);
    Split(b, 0, Le32(HEADER_LENGTH), Le32(count));
    SplitTail(b, 8, all, after);
    ReadBack32(b, 0, HEADER_LENGTH);
    ReadBack32(b, 4, count);
  }

  /** What is malformed ends the walk, and what came before it is kept. */
  lemma MalformedTailKeepsTheNames(count: nat, es: seq<Entry>, after: Bytes)
    requires |es| <= count < U32_LIMIT && AllFit(es)
    requires |es| == count || EntryAt(Map(count, es, after), 8 + |Concat(WrittenEntries(es))|).None?
    ensures DataSpaceNames(Map(count, es, after)) == NamesOf(es)
  {
    var b, end, left := Map(count, es, after), 8 + |Concat(WrittenEntries(es))|, count - |es|;
    MapReadsBack(b, count, es, after, end, left);
    NothingCollected(b, end, left, NamesOf(es));
  }

  lemma NothingCollected(b: Bytes, at: nat, left: nat, names: seq<Name>)
    requires left == 0 || EntryAt(b, at).None?
    ensures names + Collected(EntryReader(b), at, left) == names
  {
  }

  // ----- the map every written package carries -----

  function TextUnits(s: string): (u: Name)
    ensures |u| == |s|
  {
    seq<Unit>(|s|, i requires 0 <= i < |s| => s[i] as int % 0x1_0000)
  }

  const ENCRYPTED_PACKAGE := "EncryptedPackage"
  const STRONG_ENCRYPTION := "StrongEncryptionDataSpace"

  /** `data_space_map()`: one entry, for the stream that holds the package. */
  function PackageMap(): Bytes {
    Map(1, [PackageEntry()], [])
  }

  lemma PackageMapNamesItsDataSpace()
    ensures DataSpaceNames(PackageMap()) == [TextUnits("StrongEncryptionDataSpace")]
    ensures |PackageMap()| == 112
  {
    var c := Component(0, TextUnits(ENCRYPTED_PACKAGE));
    var e := Entry([c], TextUnits(STRONG_ENCRYPTION));
    assert |ENCRYPTED_PACKAGE| == 16 && |STRONG_ENCRYPTION| == 25;
    assert [c][1..] == [] && |WrittenComponents([c])| == |c.Written()| == 40;
    assert |WriteLpP4(e.name)| == 56 && |e.Written()| == 104;
    var ws := WrittenEntries([e]);
    assert ws[1..] == [] && Concat(ws) == e.Written() + [] && NamesOf([e]) == [e.name];
    MalformedTailKeepsTheNames(1, [e], []);
  }

  /** The map field by field: one entry of 104 bytes, one component of kind zero, two names and two zeros. */
  lemma PackageMapByFields()
    ensures PackageMap() ==
      Counter(8) + Counter(1) + Counter(104)
      + Counter(1) + Counter(0) + Counter(32) + Utf16(TextUnits("EncryptedPackage"))
      + Counter(50) + Utf16(TextUnits("StrongEncryptionDataSpace")) + [0, 0]
  {
    var text, name := WriteLpP4(TextUnits(ENCRYPTED_PACKAGE)), WriteLpP4(TextUnits(STRONG_ENCRYPTION));
    var rest := [] + Le32(1) + Le32(0) + text + name;
    NamesByFields();
    EntryInOrder(rest);
    assert |rest| == 100;
    MapInOrder(rest, [] + Le32(HEADER_LENGTH) + Le32(1) + Le32(104) + rest);
    FlatMap(rest, text, Utf16(TextUnits("EncryptedPackage")), name, Utf16(TextUnits("StrongEncryptionDataSpace")));
  }

  lemma NamesByFields()
    ensures WriteLpP4(TextUnits(ENCRYPTED_PACKAGE)) == Counter(32) + Utf16(TextUnits("EncryptedPackage"))
    ensures WriteLpP4(TextUnits(STRONG_ENCRYPTION))
      == Counter(50) + Utf16(TextUnits("StrongEncryptionDataSpace")) + [0, 0]
    ensures |WriteLpP4(TextUnits(ENCRYPTED_PACKAGE))| == 36 && |WriteLpP4(TextUnits(STRONG_ENCRYPTION))| == 56
  {
    assert |ENCRYPTED_PACKAGE| == 16 && |STRONG_ENCRYPTION| == 25 && Zeros(0) == [] && Zeros(2) == [0, 0];
    FourBytes(32);
    FourBytes(50);
  }

  lemma FlatMap(rest: Bytes, text: Bytes, u: Bytes, name: Bytes, v: Bytes)
    requires rest == [] + Le32(1) + Le32(0) + text + name
    requires text == Counter(32) + u && name == Counter(50) + v + [0, 0]
    ensures [] + Le32(8) + Le32(1) + Le32(104) + rest
      == Counter(8) + Counter(1) + Counter(104) + Counter(1) + Counter(0) + Counter(32) + u + Counter(50) + v + [0, 0]
  {
    FourBytes(8);
    FourBytes(1);
    FourBytes(104);
    FourBytes(0);
    Flattened(Counter(8), Counter(1), Counter(104), Counter(0), Counter(32), u, Counter(50), v);
  }

  lemma Flattened(size: Bytes, one: Bytes, len: Bytes, zero: Bytes, c: Bytes, u: Bytes, d: Bytes, v: Bytes)
    ensures [] + size + one + len + ([] + one + zero + (c + u) + (d + v + [0, 0]))
      == size + one + len + one + zero + c + u + d + v + [0, 0]
  {
  }

  // ----- the writer as the program makes it -----

  class ByteBuffer {
    var bytes: Bytes

    constructor ()
      ensures bytes == []
    {
      bytes := [];
    }

    method Extend(more: Bytes)
      modifies this
      ensures bytes == old(bytes) + more
    {
      bytes := bytes + more;
    }
  }

  method AppendLpP4(buffer: ByteBuffer, name: Name)
    modifies buffer
    ensures buffer.bytes == old(buffer.bytes) + WriteLpP4(name)
  {
    var byteLen := 2 * |name|;
    ghost var before, written := buffer.bytes, Le32(byteLen);
    buffer.Extend(Le32(byteLen));
    for i := 0 to |name|
      invariant written == Le32(byteLen) + Utf16(name[..i]) && buffer.bytes == before + written
    {
      buffer.Extend(Le16(name[i]));
      assert name[..i + 1][..i] == name[..i];
      Regroup(before, written, Le16(name[i]));
      Regroup(Le32(byteLen), Utf16(name[..i]), Le16(name[i]));
      written := written + Le16(name[i]);
    }
    assert name[..|name|] == name;
    buffer.Extend(Zeros(PadLen(byteLen)));
    Regroup(before, written, Zeros(PadLen(byteLen)));
  }

  /** `data_space_map()`: the entry in one buffer, the header and its length in another. */
  method BuildPackageMap() returns (b: Bytes)
    ensures b == PackageMap()
  {
    var entry := new ByteBuffer();
    entry.Extend(Le32(1));
    entry.Extend(Le32(0));
    AppendLpP4(entry, TextUnits(ENCRYPTED_PACKAGE));
    AppendLpP4(entry, TextUnits(STRONG_ENCRYPTION));
    EntryInOrder(entry.bytes);
    var buffer := new ByteBuffer();
    buffer.Extend(Le32(HEADER_LENGTH));
    buffer.Extend(Le32(1));
    buffer.Extend(Le32(4 + |entry.bytes|));
    buffer.Extend(entry.bytes);
    b := buffer.bytes;
    MapInOrder(entry.bytes, b);
  }

  function PackageEntry(): Entry {
    Entry([Component(0, TextUnits(ENCRYPTED_PACKAGE))], TextUnits(STRONG_ENCRYPTION))
  }

  lemma EntryInOrder(bytes: Bytes)
    requires bytes ==
      [] + Le32(1) + Le32(0) + WriteLpP4(TextUnits(ENCRYPTED_PACKAGE)) + WriteLpP4(TextUnits(STRONG_ENCRYPTION))
    ensures bytes == PackageEntry().Rest()
  {
    var c := Component(0, TextUnits(ENCRYPTED_PACKAGE));
    var text, name := WriteLpP4(c.name), WriteLpP4(TextUnits(STRONG_ENCRYPTION));
    assert [c][1..] == [] && WrittenComponents([c]) == c.Written() == Le32(0) + text;
    Regroup(Le32(1), Le32(0), text);
    Regroup(Le32(1), Le32(0) + text, name);
    assert [] + Le32(1) == Le32(1);
  }

  lemma MapInOrder(rest: Bytes, b: Bytes)
    requires rest == PackageEntry().Rest()
    requires b == [] + Le32(HEADER_LENGTH) + Le32(1) + Le32(4 + |rest|) + rest
    ensures b == PackageMap()
  {
    OneEntry(PackageEntry(), Le32(4 + |rest|) + rest);
    InFront(Le32(HEADER_LENGTH), Le32(1), Le32(4 + |rest|), rest);
  }

  lemma InFront(size: Bytes, one: Bytes, len: Bytes, rest: Bytes)
    ensures [] + size + one + len + rest == size + one + (len + rest)
  {
  }

  lemma OneEntry(e: Entry, w: Bytes)
    requires w == e.Written()
    ensures Concat(WrittenEntries([e])) + [] == w
  {
    var ws := WrittenEntries([e]);
    assert ws[1..] == [] && ws[0] == w;
    assert Concat(ws) == w + Concat([]);
  }

  // ----- the walk as the program makes it -----

  /** The components of one entry, read one by one; `turns` counts them. */
  method SkipComponents(b: Bytes, start: nat, end: nat, count: nat) returns (p: Option<nat>, ghost turns: nat)
    requires end <= |b|
    ensures p == PastComponents(b, start, end, count)
    ensures p.Some? ==> turns == count
    ensures turns <= count && (turns > 1 ==> start + 8 * (turns - 1) <= end + 3)
  {
    turns := 0;
    var at: nat := start;
    for i := 0 to count
      invariant PastComponents(b, at, end, count - i) == PastComponents(b, start, end, count)
      invariant turns == i && start + 8 * i <= at && (i > 0 ==> at <= end + 3)
    {
      turns := turns + 1;
      var text := LpP4(b, at + 4, end);
      if text.None? {
        return None, turns;
      }
      at := text.value.next;
    }
    return Some(at), turns;
  }

  /**
   The whole walk. `turns` counts the entries and components looked at: linear in the
   bytes, whatever the declared counts say.
   */
  method ReadDataSpaceNames(b: Bytes) returns (names: seq<Name>, ghost turns: nat)
    ensures names == DataSpaceNames(b)
    ensures 8 * turns <= |b| + 16
  {
    names, turns := [], 0;
    if ReadLe32(b, 0) != Some(HEADER_LENGTH) {
      return;
    }
    var count := ReadLe32(b, 4);
    if count.None? {
      return;
    }
    names, turns := WalkEntries(b, count.value);
  }

  method WalkEntries(b: Bytes, count: nat) returns (names: seq<Name>, ghost turns: nat)
    requires 8 <= |b|
    ensures names == Collected(EntryReader(b), HEADER_LENGTH, count)
    ensures 8 * turns <= |b| + 16
  {
    ghost var read := EntryReader(b);
    ghost var all := Collected(read, HEADER_LENGTH, count);
    names, turns := [], 0;
    var at := HEADER_LENGTH;
    for i := 0 to count
      invariant at <= |b| && 8 * turns <= at
      invariant names + Collected(read, at, count - i) == all
    {
      var found, more := ReadEntry(b, at);
      turns := turns + more;
      if found.None? {
        CollectedNoMore(read, at, count - i, names);
        return;
      }
      CollectedOneMore(read, at, count - i, names, found.value.name, found.value.end);
      names, at := names + [found.value.name], found.value.end;
    }
    CollectedNoMore(read, at, 0, names);
  }

  /** One turn of the walk: the checks of one entry in their order. */
  method ReadEntry(b: Bytes, at: nat) returns (r: Option<Found>, ghost turns: nat)
    requires at <= |b|
    ensures r == EntryAt(b, at)
    ensures if r.Some? then at + 8 * turns <= r.value.end else at + 8 * turns <= |b| + 16
  {
    turns := 1;
    var len := ReadLe32(b, at);
    if len.None? {
      return None, turns;
    }
    var end := at + len.value;
    if end > |b| {
      return None, turns;
    }
    var components := ReadLe32(b, at + 4);
    if components.None? {
      return None, turns;
    }
    var p, skipped := SkipComponents(b, at + ENTRY_FIXED_LEN, end, components.value);
    turns := turns + skipped;
    if p.None? {
      return None, turns;
    }
    var text := LpP4(b, p.value, end);
    if text.None? {
      return None, turns;
    }
    return Some(Found(text.value.name, end, components.value)), turns;
  }
}
