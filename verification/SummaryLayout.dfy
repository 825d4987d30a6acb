/**
 The encrypted summary stream from the writer's side, sections 2.3.5.3 and 2.3.5.4 of
 [MS-OFFCRYPTO], and the parse as its inverse.
 */
module SummaryLayout {
  import opened Errors
  import opened Octets
  import opened LegacyCiphers
  import opened EncryptedSummary

  /** The descriptors lie one after the other in the table from `at` on. */
  ghost predicate TableHolds(table: Bytes, at: nat, ds: seq<Descriptor>)
    decreases |ds|
  {
    ds == [] || (
      && ds[0].Formed() && at + |ds[0].Written()| <= |table|
      && table[at..at + |ds[0].Written()|] == ds[0].Written()
      && TableHolds(table, at + |ds[0].Written()|, ds[1..]))
  }

  /** A descriptor is that of a restored stream. */
  ghost predicate Describes(data: Bytes, tableAt: nat, schedule: Schedule, d: Descriptor, r: Restored) {
    && d.flags % 2 == 1 && PropertySetName(d.name) == Some(r.name)
    && r.start == d.offset && r.end == d.offset + d.size
    && 8 <= r.start && r.end <= tableAt <= |data| && schedule.Takes(d.block)
    && r.bytes == schedule.Keyed(data[r.start..r.end], d.block)
  }

  ghost predicate DescribeAll(data: Bytes, tableAt: nat, schedule: Schedule, ds: seq<Descriptor>, rs: seq<Restored>) {
    && |ds| == |rs|
    && (ds == [] || (
      && Describes(data, tableAt, schedule, ds[0], rs[0])
      && DescribeAll(data, tableAt, schedule, ds[1..], rs[1..])))
  }

  datatype Layout = Layout(tableAt: nat, tableEnd: nat, ds: seq<Descriptor>)

  /** The data is a layout of the restored streams: nothing is said of how it was made. */
  ghost predicate Lays(data: Bytes, schedule: Schedule, l: Layout, restored: seq<Restored>) {
    && 8 <= l.tableAt <= l.tableEnd <= |data| && l.tableAt < U32_LIMIT && l.tableEnd - l.tableAt < U32_LIMIT
    && schedule.Takes(0) && schedule.Keyed(data[..8], 0) == Le32(l.tableAt) + Le32(l.tableEnd - l.tableAt)
    && var table := schedule.Keyed(data[l.tableAt..l.tableEnd], 0);
    && |table| >= 4 && table[..4] == Le32(|l.ds|) && |l.ds| < U32_LIMIT
    && TableHolds(table, 4, l.ds)
    && DescribeAll(data, l.tableAt, schedule, l.ds, restored) && Sound(restored, l.tableAt)
  }

  /** Descriptors of streams that go together are all admitted. */
  lemma {:induction false} DescribedIsAdmitted(data: Bytes, table: Bytes, tableAt: nat, schedule: Schedule, at: nat,
                                               ds: seq<Descriptor>, seen: seq<Restored>, more: seq<Restored>,
                                               all: seq<Restored>)
    requires tableAt <= |data| && TableHolds(table, at, ds) && all == seen + more && Sound(all, tableAt)
    requires DescribeAll(data, tableAt, schedule, ds, more)
    ensures Gives(data, table, tableAt, schedule, at, |ds|, seen, Ok(all))
    decreases |ds|
  {
    if ds == [] {
      assert all == seen;
    } else {
      var next := FirstReads(table, at, ds);
      var rest := ds[1..];
      Regrouped(seen, more);
      DescribedIsAdmitted(data, table, tableAt, schedule, next, rest, seen + [more[0]], more[1..], all);
      assert |rest| == |ds| - 1;
      DescribedAdmits(data, tableAt, schedule, ds[0], seen, more);
      AdmittedStepBack(data, table, tableAt, schedule, at, |ds|, seen, Ok(all), Parsed(ds[0], next), more[0]);
    }
  }

  lemma FirstReads(table: Bytes, at: nat, ds: seq<Descriptor>) returns (next: nat)
    requires ds != [] && TableHolds(table, at, ds)
    ensures ReadDescriptor(table, at) == Ok(Parsed(ds[0], next)) && TableHolds(table, next, ds[1..])
  {
    next := at + |ds[0].Written()|;
    DescriptorReadsBack(table, at, ds[0]);
  }

  lemma Regrouped(seen: seq<Restored>, more: seq<Restored>)
    requires more != []
    ensures seen + [more[0]] + more[1..] == seen + more
  {
  }

  lemma DescribedAdmits(data: Bytes, tableAt: nat, schedule: Schedule, d: Descriptor, seen: seq<Restored>,
                        more: seq<Restored>)
    requires tableAt <= |data| && more != [] && Sound(seen + more, tableAt)
    requires Describes(data, tableAt, schedule, d, more[0])
    ensures Admit(data, tableAt, schedule, seen, d) == Ok(more[0])
  {
    NotTaken(seen, more, tableAt);
  }

  lemma NotTaken(seen: seq<Restored>, more: seq<Restored>, tableAt: nat)
    requires more != [] && Sound(seen + more, tableAt)
    ensures !NameTaken(seen, more[0].name) && !ExtentTaken(seen, more[0].start, more[0].end)
  {
    var all := seen + more;
    forall k | 0 <= k < |seen|
      ensures seen[k].name != more[0].name && !seen[k].Overlaps(more[0].start, more[0].end)
    {
      assert all[k] == seen[k] && all[|seen|] == more[0];
    }
  }

  lemma OneMore(data: Bytes, table: Bytes, tableAt: nat, schedule: Schedule, at: nat, r: Restored, ds: seq<Descriptor>,
                rs: seq<Restored>)
    requires ReadDescriptor(table, at).Ok? && TableHolds(table, ReadDescriptor(table, at).value.next, ds)
    requires Describes(data, tableAt, schedule, ReadDescriptor(table, at).value.d, r)
    requires DescribeAll(data, tableAt, schedule, ds, rs)
    ensures TableHolds(table, at, [ReadDescriptor(table, at).value.d] + ds)
    ensures DescribeAll(data, tableAt, schedule, [ReadDescriptor(table, at).value.d] + ds, [r] + rs)
  {
    HoldsOneMore(table, at, ds);
    DescribesOneMore(data, tableAt, schedule, ReadDescriptor(table, at).value.d, r, ds, rs);
  }

  lemma AdmittedSplits(data: Bytes, table: Bytes, tableAt: nat, schedule: Schedule, at: nat, count: nat,
                       seen: seq<Restored>, all: seq<Restored>)
    returns (parsed: Parsed, first: Restored)
    requires tableAt <= |data| && count > 0 && Admitted(data, table, tableAt, schedule, at, count, seen) == Ok(all)
    ensures ReadDescriptor(table, at) == Ok(parsed) && Describes(data, tableAt, schedule, parsed.d, first)
    ensures Admitted(data, table, tableAt, schedule, parsed.next, count - 1, seen + [first]) == Ok(all)
  {
    parsed := ReadDescriptor(table, at).value;
    first := Admit(data, tableAt, schedule, seen, parsed.d).value;
    AdmitDescribes(data, tableAt, schedule, seen, parsed.d);
  }

  lemma HoldsOneMore(table: Bytes, at: nat, ds: seq<Descriptor>)
    requires ReadDescriptor(table, at).Ok? && TableHolds(table, ReadDescriptor(table, at).value.next, ds)
    ensures TableHolds(table, at, [ReadDescriptor(table, at).value.d] + ds)
  {
    var d := ReadDescriptor(table, at).value.d;
    DescriptorWritesBack(table, at);
    assert ([d] + ds)[1..] == ds;
  }

  lemma AdmitDescribes(data: Bytes, tableAt: nat, schedule: Schedule, seen: seq<Restored>, d: Descriptor)
    requires tableAt <= |data| && Admit(data, tableAt, schedule, seen, d).Ok?
    ensures Describes(data, tableAt, schedule, d, Admit(data, tableAt, schedule, seen, d).value)
  {
  }

  lemma DescribesOneMore(data: Bytes, tableAt: nat, schedule: Schedule, d: Descriptor, r: Restored,
                         ds: seq<Descriptor>, rs: seq<Restored>)
    requires Describes(data, tableAt, schedule, d, r) && DescribeAll(data, tableAt, schedule, ds, rs)
    ensures DescribeAll(data, tableAt, schedule, [d] + ds, [r] + rs)
  {
    assert ([d] + ds)[1..] == ds && ([r] + rs)[1..] == rs;
  }

  lemma {:induction false} TableIsLong(table: Bytes, at: nat, ds: seq<Descriptor>)
    requires TableHolds(table, at, ds) && at <= |table|
    ensures at + 18 * |ds| <= |table|
    decreases |ds|
  {
    if ds != [] {
      TableIsLong(table, at + |ds[0].Written()|, ds[1..]);
    }
  }

  lemma PrefixReads(prefix: Bytes, a: nat, b: nat)
    requires prefix == Le32(a) + Le32(b) && a < U32_LIMIT && b < U32_LIMIT
    ensures ReadLe32(prefix, 0) == Some(a) && ReadLe32(prefix, 4) == Some(b)
  {
    assert prefix[0..4] == Le32(a) && prefix[4..8] == Le32(b);
    ReadBack32(prefix, 0, a);
    ReadBack32(prefix, 4, b);
  }

  /** Every layout parses to its streams. */
  lemma LayoutUnseals(data: Bytes, schedule: Schedule, l: Layout, restored: seq<Restored>)
    requires Lays(data, schedule, l, restored)
    ensures Unsealed(data, schedule) == Ok(restored)
  {
    PrefixReads(schedule.Keyed(data[..8], 0), l.tableAt, l.tableEnd - l.tableAt);
    assert TableBounds(data, schedule) == Ok((l.tableAt, l.tableEnd));
    var table := schedule.Keyed(data[l.tableAt..l.tableEnd], 0);
    CountReads(table, l.ds);
    TableDecides(data, schedule, l.tableAt, l.tableEnd, table, |l.ds|);
    AllAdmitted(data, table, l.tableAt, schedule, l.ds, restored);
  }

  lemma AllAdmitted(data: Bytes, table: Bytes, tableAt: nat, schedule: Schedule, ds: seq<Descriptor>,
                    restored: seq<Restored>)
    requires tableAt <= |data| && TableHolds(table, COUNT_LEN, ds) && Sound(restored, tableAt)
    requires DescribeAll(data, tableAt, schedule, ds, restored)
    ensures Admitted(data, table, tableAt, schedule, COUNT_LEN, |ds|, []) == Ok(restored)
  {
    DescribedIsAdmitted(data, table, tableAt, schedule, COUNT_LEN, ds, [], restored, restored);
  }

  lemma CountReads(table: Bytes, ds: seq<Descriptor>)
    requires |table| >= 4 && table[..4] == Le32(|ds|) && |ds| < U32_LIMIT && TableHolds(table, COUNT_LEN, ds)
    ensures DeclaredCount(table) == Ok(|ds|)
  {
    assert table[0..4] == table[..4];
    ReadBack32(table, 0, |ds|);
    TableIsLong(table, COUNT_LEN, ds);
  }

  /** And everything that parses is a layout of what it parses to. */
  lemma UnsealedIsLaidOut(data: Bytes, schedule: Schedule) returns (l: Layout)
    requires Unsealed(data, schedule).Ok?
    ensures Lays(data, schedule, l, Unsealed(data, schedule).value)
  {
    var bounds := TableBounds(data, schedule).value;
    var table := schedule.Keyed(data[bounds.0..bounds.1], 0);
    var count := DeclaredCount(table).value;
    var all := Unsealed(data, schedule).value;
    TableDecides(data, schedule, bounds.0, bounds.1, table, count);
    BoundsWriteBack(data, schedule);
    CountWritesBack(table);
    var ds := TableIsDescribed(data, table, bounds.0, schedule, count, all);
    l := Layout(bounds.0, bounds.1, ds);
  }

  /** Soundness leaves two descriptors at most, so the table is taken apart descriptor by descriptor. */
  lemma TableIsDescribed(data: Bytes, table: Bytes, tableAt: nat, schedule: Schedule, count: nat, all: seq<Restored>)
    returns (ds: seq<Descriptor>)
    requires tableAt <= |data| && Admitted(data, table, tableAt, schedule, COUNT_LEN, count, []) == Ok(all)
    ensures |ds| == count && TableHolds(table, COUNT_LEN, ds) && DescribeAll(data, tableAt, schedule, ds, all)
    ensures Sound(all, tableAt)
  {
    AdmittedIsSound(data, table, tableAt, schedule, COUNT_LEN, count, [], all);
    SoundIsSmall(all, tableAt);
    ds := [];
    if count > 0 {
      var parsed, first := AdmittedSplits(data, table, tableAt, schedule, COUNT_LEN, count, [], all);
      var ds1 := LastIsDescribed(data, table, tableAt, schedule, parsed.next, count - 1, first, all);
      OneMore(data, table, tableAt, schedule, COUNT_LEN, first, ds1, all[1..]);
      ds := [parsed.d] + ds1;
      assert [first] + all[1..] == all;
    }
  }

  lemma LastIsDescribed(data: Bytes, table: Bytes, tableAt: nat, schedule: Schedule, at: nat, count: nat,
                        first: Restored, all: seq<Restored>)
    returns (ds: seq<Descriptor>)
    requires tableAt <= |data| && |all| == count + 1 <= 2
    requires Admitted(data, table, tableAt, schedule, at, count, [] + [first]) == Ok(all)
    ensures |ds| == count && TableHolds(table, at, ds) && DescribeAll(data, tableAt, schedule, ds, all[1..])
    ensures all[0] == first
  {
    ds := [];
    if count > 0 {
      var parsed, last := AdmittedSplits(data, table, tableAt, schedule, at, count, [] + [first], all);
      OneMore(data, table, tableAt, schedule, at, last, [], []);
      ds := [parsed.d] + ds;
      assert all[1..] == [last] + [];
    }
  }

  lemma CountWritesBack(table: Bytes)
    requires DeclaredCount(table).Ok?
    ensures |table| >= 4 && table[..4] == Le32(DeclaredCount(table).value)
  {
    WriteBack32(table, 0);
    assert table[..4] == table[0..4];
  }

  lemma BoundsWriteBack(data: Bytes, schedule: Schedule)
    requires TableBounds(data, schedule).Ok?
    ensures var b := TableBounds(data, schedule).value;
      schedule.Keyed(data[..8], 0) == Le32(b.0) + Le32(b.1 - b.0)
  {
    var prefix := schedule.Keyed(data[..8], 0);
    WriteBack32(prefix, 0);
    WriteBack32(prefix, 4);
    assert prefix == prefix[0..4] + prefix[4..8];
  }

  // ----- the writer of section 2.3.5.4 -----

  datatype Item = Item(name: PropertySet, block: nat, reserved: Bytes, bytes: Bytes) {

    predicate Formed() {
      block < 0x1_0000 && |reserved| == 4
    }

    function At(offset: nat): Restored {
      Restored(name, offset, offset + |bytes|, bytes)
    }

    function DescriptorAt(offset: nat): Descriptor {
      Descriptor(offset, |bytes|, block, 1, reserved, Utf16(name.Name()))
    }
  }

  /** The encrypted streams one after the other. */
  function Contents(schedule: Schedule, items: seq<Item>): Bytes {
    if items == [] then [] else schedule.Keyed(items[0].bytes, items[0].block) + Contents(schedule, items[1..])
  }

  function DescriptorsFrom(items: seq<Item>, offset: nat): (ds: seq<Descriptor>)
    ensures |ds| == |items|
  {
    if items == [] then [] else [items[0].DescriptorAt(offset)] + DescriptorsFrom(items[1..], offset + |items[0].bytes|)
  }

  function PlacedFrom(items: seq<Item>, offset: nat): (rs: seq<Restored>)
    ensures |rs| == |items|
  {
    if items == [] then [] else [items[0].At(offset)] + PlacedFrom(items[1..], offset + |items[0].bytes|)
  }

  ghost predicate Writable(items: seq<Item>, schedule: Schedule) {
    && schedule.Takes(0) && (forall i :: 0 <= i < |items| ==> items[i].Formed() && schedule.Takes(items[i].block))
    && (forall i, j :: 0 <= i < j < |items| ==> items[i].name != items[j].name)
    && 8 + |Contents(schedule, items)| + 4 + 72 * |items| < U32_LIMIT
  }

  predicate EachFormed(ds: seq<Descriptor>) {
    forall i :: 0 <= i < |ds| ==> ds[i].Formed()
  }

  function WrittenAll(ds: seq<Descriptor>): Bytes
    requires EachFormed(ds)
  {
    if ds == [] then [] else ds[0].Written() + WrittenAll(ds[1..])
  }

  lemma ItemIsFormed(item: Item, offset: nat)
    requires item.Formed() && offset + |item.bytes| < U32_LIMIT
    ensures item.DescriptorAt(offset).Formed() && |item.DescriptorAt(offset).Written()| <= 72
  {
    NameReadsBack(item.name);
  }

  lemma FormedOneMore(d: Descriptor, rest: seq<Descriptor>)
    requires d.Formed() && EachFormed(rest)
    ensures EachFormed([d] + rest) && WrittenAll([d] + rest) == d.Written() + WrittenAll(rest)
  {
    assert ([d] + rest)[1..] == rest;
  }

  lemma {:induction false} AllFormed(schedule: Schedule, items: seq<Item>, offset: nat)
    requires forall i :: 0 <= i < |items| ==> items[i].Formed()
    requires offset + |Contents(schedule, items)| < U32_LIMIT
    ensures var ds := DescriptorsFrom(items, offset); EachFormed(ds) && |WrittenAll(ds)| <= 72 * |items|
  {
    if items != [] {
      var next := offset + |items[0].bytes|;
      AllFormed(schedule, items[1..], next);
      FirstIsFormed(items, offset, next, DescriptorsFrom(items[1..], next), 72 * (|items| - 1));
    }
  }

  lemma FirstIsFormed(items: seq<Item>, offset: nat, next: nat, rest: seq<Descriptor>, size: nat)
    requires items != [] && items[0].Formed() && next == offset + |items[0].bytes| < U32_LIMIT
    requires rest == DescriptorsFrom(items[1..], next) && EachFormed(rest) && |WrittenAll(rest)| <= size
    ensures var ds := DescriptorsFrom(items, offset); EachFormed(ds) && |WrittenAll(ds)| <= size + 72
  {
    ItemIsFormed(items[0], offset);
    FormedOneMore(items[0].DescriptorAt(offset), rest);
    FirstComesFirst(items, offset);
  }

  lemma {:induction false} WrittenHolds(table: Bytes, at: nat, ds: seq<Descriptor>)
    requires EachFormed(ds)
    requires at <= |table| && table[at..] == WrittenAll(ds)
    ensures TableHolds(table, at, ds)
    decreases |ds|
  {
    if ds != [] {
      var w := ds[0].Written();
      assert table[at..at + |w|] == table[at..][..|w|] == w;
      assert table[at + |w|..] == table[at..][|w|..] == WrittenAll(ds[1..]);
      WrittenHolds(table, at + |w|, ds[1..]);
    }
  }

  /** The writer's stream: prefix, contents, table, each under the block it is read with. */
  ghost function Sealed(schedule: Schedule, items: seq<Item>): Bytes
    requires Writable(items, schedule)
  {
    AllFormed(schedule, items, PREFIX_LEN);
    var contents := Contents(schedule, items);
    var table := Le32(|items|) + WrittenAll(DescriptorsFrom(items, PREFIX_LEN));
    schedule.Keyed(Le32(8 + |contents|) + Le32(|table|), 0) + contents + schedule.Keyed(table, 0)
  }

  /** Distinct from, and before, everything in a sound run. */
  ghost predicate Precedes(first: Restored, rest: seq<Restored>) {
    forall i :: 0 <= i < |rest| ==> first.end <= rest[i].start && rest[i].name != first.name
  }

  lemma SoundOneMore(first: Restored, rest: seq<Restored>, tableAt: nat)
    requires Sound(rest, tableAt) && Precedes(first, rest)
    requires PREFIX_LEN <= first.start <= first.end <= tableAt && |first.bytes| == first.end - first.start
    ensures Sound([first] + rest, tableAt)
  {
    var all := [first] + rest;
    forall i, j | 0 <= i < j < |all|
      ensures all[i].name != all[j].name && !all[i].Overlaps(all[j].start, all[j].end)
    {
      assert all[j] == rest[j - 1] && (i > 0 ==> all[i] == rest[i - 1]);
    }
  }

  lemma {:induction false} PlacedFollows(items: seq<Item>, offset: nat, i: nat)
    requires i < |items|
    ensures PlacedFrom(items, offset)[i].start >= offset && PlacedFrom(items, offset)[i].name == items[i].name
    decreases |items|
  {
    if i > 0 {
      PlacedFollows(items[1..], offset + |items[0].bytes|, i - 1);
    }
  }

  lemma FirstPrecedes(items: seq<Item>, offset: nat)
    requires items != [] && forall i :: 0 < i < |items| ==> items[i].name != items[0].name
    ensures Precedes(items[0].At(offset), PlacedFrom(items[1..], offset + |items[0].bytes|))
  {
    var rest := PlacedFrom(items[1..], offset + |items[0].bytes|);
    forall i | 0 <= i < |rest|
      ensures items[0].At(offset).end <= rest[i].start && rest[i].name != items[0].name
    {
      PlacedFollows(items[1..], offset + |items[0].bytes|, i);
      assert items[1..][i] == items[i + 1];
    }
  }

  lemma {:induction false} PlacedIsSound(items: seq<Item>, offset: nat, tableAt: nat, schedule: Schedule)
    requires forall i, j :: 0 <= i < j < |items| ==> items[i].name != items[j].name
    requires PREFIX_LEN <= offset && offset + |Contents(schedule, items)| == tableAt
    ensures Sound(PlacedFrom(items, offset), tableAt)
    decreases |items|
  {
    if items != [] {
      var next := offset + |items[0].bytes|;
      assert |Contents(schedule, items)| == |items[0].bytes| + |Contents(schedule, items[1..])|;
      PlacedIsSound(items[1..], next, tableAt, schedule);
      FirstIsSound(items, offset, next, tableAt);
    }
  }

  lemma FirstIsSound(items: seq<Item>, offset: nat, next: nat, tableAt: nat)
    requires items != [] && forall i :: 0 < i < |items| ==> items[i].name != items[0].name
    requires PREFIX_LEN <= offset && next == offset + |items[0].bytes| <= tableAt
    requires Sound(PlacedFrom(items[1..], next), tableAt)
    ensures Sound(PlacedFrom(items, offset), tableAt)
  {
    FirstPrecedes(items, offset);
    SoundOneMore(items[0].At(offset), PlacedFrom(items[1..], next), tableAt);
    FirstComesFirst(items, offset);
  }

  lemma ItemIsDescribed(data: Bytes, tableAt: nat, schedule: Schedule, item: Item, offset: nat)
    requires PREFIX_LEN <= offset && offset + |item.bytes| <= tableAt <= |data| && schedule.Takes(item.block)
    requires data[offset..offset + |item.bytes|] == schedule.Keyed(item.bytes, item.block)
    ensures Describes(data, tableAt, schedule, item.DescriptorAt(offset), item.At(offset))
  {
    schedule.KeyedTwice(item.bytes, item.block);
    NameReadsBack(item.name);
  }

  lemma FirstComesFirst(items: seq<Item>, offset: nat)
    requires items != []
    ensures var next := offset + |items[0].bytes|;
      && DescriptorsFrom(items, offset) == [items[0].DescriptorAt(offset)] + DescriptorsFrom(items[1..], next)
      && PlacedFrom(items, offset) == [items[0].At(offset)] + PlacedFrom(items[1..], next)
  {
  }

  /** What was placed is described, and its bytes are where the descriptor says. */
  lemma {:induction false} PlacedIsDescribed(data: Bytes, tableAt: nat, schedule: Schedule, items: seq<Item>,
                                             offset: nat)
    requires PREFIX_LEN <= offset && offset + |Contents(schedule, items)| == tableAt <= |data|
    requires forall i :: 0 <= i < |items| ==> schedule.Takes(items[i].block)
    requires data[offset..tableAt] == Contents(schedule, items)
    ensures
      var ds, rs := DescriptorsFrom(items, offset), PlacedFrom(items, offset);
      DescribeAll(data, tableAt, schedule, ds, rs)
    decreases |items|
  {
    if items != [] {
      var first := items[0];
      var next := offset + |first.bytes|;
      Split(data, offset, schedule.Keyed(first.bytes, first.block), Contents(schedule, items[1..]));
      PlacedIsDescribed(data, tableAt, schedule, items[1..], next);
      FirstIsDescribed(data, tableAt, schedule, items, offset, next);
    }
  }

  lemma FirstIsDescribed(data: Bytes, tableAt: nat, schedule: Schedule, items: seq<Item>, offset: nat, next: nat)
    requires items != [] && PREFIX_LEN <= offset && next == offset + |items[0].bytes| <= tableAt <= |data|
    requires schedule.Takes(items[0].block)
    requires data[offset..next] == schedule.Keyed(items[0].bytes, items[0].block)
    requires DescribeAll(data, tableAt, schedule, DescriptorsFrom(items[1..], next), PlacedFrom(items[1..], next))
    ensures DescribeAll(data, tableAt, schedule, DescriptorsFrom(items, offset), PlacedFrom(items, offset))
  {
    ItemIsDescribed(data, tableAt, schedule, items[0], offset);
    DescribesOneMore(data, tableAt, schedule, items[0].DescriptorAt(offset), items[0].At(offset),
                     DescriptorsFrom(items[1..], next), PlacedFrom(items[1..], next));
    FirstComesFirst(items, offset);
  }

  /**
   The round trip: whatever Office may put in the stream, under any schedule, comes back
   with its names, places and bytes.
   */
  lemma SealedUnseals(schedule: Schedule, items: seq<Item>)
    requires Writable(items, schedule)
    ensures Unsealed(Sealed(schedule, items), schedule) == Ok(PlacedFrom(items, PREFIX_LEN))
  {
    var l := SealedIsLaidOut(schedule, items);
    LayoutUnseals(Sealed(schedule, items), schedule, l, PlacedFrom(items, PREFIX_LEN));
  }

  lemma SealedParts(schedule: Schedule, items: seq<Item>, contents: Bytes, table: Bytes)
    requires Writable(items, schedule) && contents == Contents(schedule, items)
    requires
      (AllFormed(schedule, items, PREFIX_LEN); table == Le32(|items|) + WrittenAll(DescriptorsFrom(items, PREFIX_LEN)))
    ensures
      var data, n, m := Sealed(schedule, items), 8 + |contents|, |table|;
      && |data| == n + m && data[8..n] == contents
      && schedule.Keyed(data[..8], 0) == Le32(n) + Le32(m) && schedule.Keyed(data[n..n + m], 0) == table
  {
    var prefix := Le32(8 + |contents|) + Le32(|table|);
    ThreeParts(schedule.Keyed(prefix, 0), contents, schedule.Keyed(table, 0), Sealed(schedule, items));
    schedule.KeyedTwice(prefix, 0);
    schedule.KeyedTwice(table, 0);
  }

  lemma SealedIsLaidOut(schedule: Schedule, items: seq<Item>) returns (l: Layout)
    requires Writable(items, schedule)
    ensures Lays(Sealed(schedule, items), schedule, l, PlacedFrom(items, PREFIX_LEN))
  {
    AllFormed(schedule, items, PREFIX_LEN);
    var contents := Contents(schedule, items);
    var ds := DescriptorsFrom(items, PREFIX_LEN);
    var table := Le32(|items|) + WrittenAll(ds);
    SealedParts(schedule, items, contents, table);
    l := PartsAreLaidOut(Sealed(schedule, items), schedule, items, contents, table);
  }

  lemma PartsAreLaidOut(data: Bytes, schedule: Schedule, items: seq<Item>, contents: Bytes, table: Bytes)
    returns (l: Layout)
    requires Writable(items, schedule) && contents == Contents(schedule, items)
    requires
      (AllFormed(schedule, items, PREFIX_LEN); table == Le32(|items|) + WrittenAll(DescriptorsFrom(items, PREFIX_LEN)))
    requires
      var n, m := 8 + |contents|, |table|;
      && |data| == n + m && data[8..n] == contents
      && schedule.Keyed(data[..8], 0) == Le32(n) + Le32(m) && schedule.Keyed(data[n..n + m], 0) == table
    ensures Lays(data, schedule, l, PlacedFrom(items, PREFIX_LEN))
  {
    AllFormed(schedule, items, PREFIX_LEN);
    var n, ds := 8 + |contents|, DescriptorsFrom(items, PREFIX_LEN);
    TableStarts(table, Le32(|items|), WrittenAll(ds));
    WrittenHolds(table, 4, ds);
    PlacedIsDescribed(data, n, schedule, items, PREFIX_LEN);
    PlacedIsSound(items, PREFIX_LEN, n, schedule);
    l := PartsLay(data, schedule, n, |table|, table, ds, PlacedFrom(items, PREFIX_LEN));
  }

  lemma PartsLay(data: Bytes, schedule: Schedule, n: nat, m: nat, table: Bytes, ds: seq<Descriptor>,
                 restored: seq<Restored>)
    returns (l: Layout)
    requires schedule.Takes(0) && PREFIX_LEN <= n && n + m <= |data| && n < U32_LIMIT && m < U32_LIMIT
    requires |ds| < U32_LIMIT
    requires schedule.Keyed(data[..8], 0) == Le32(n) + Le32(m) && schedule.Keyed(data[n..n + m], 0) == table
    requires |table| >= 4 && table[..4] == Le32(|ds|) && TableHolds(table, COUNT_LEN, ds)
    requires DescribeAll(data, n, schedule, ds, restored) && Sound(restored, n)
    ensures Lays(data, schedule, l, restored)
  {
    l := Layout(n, n + m, ds);
    assert l.tableEnd - l.tableAt == m;
  }

  lemma TableStarts(table: Bytes, count: Bytes, rest: Bytes)
    requires table == count + rest && |count| == 4
    ensures table[..4] == count && table[4..] == rest
  {
  }

  lemma ThreeParts(a: Bytes, b: Bytes, c: Bytes, all: Bytes)
    requires all == a + b + c
    ensures all[..|a|] == a && all[|a|..|a| + |b|] == b && all[|a| + |b|..|a| + |b| + |c|] == c
  {
  }
}
