/** Workbooks on which a plausible property of the decrypt fails, for every choice of primitives. */
module LegacyExamples {
  import opened Errors
  import opened Octets
  import opened LegacyCiphers
  import opened Rc4Headers
  import opened Biff
  import opened Excel97
  import opened EncryptedSummary
  import opened SummaryLayout
  import opened Container
  import opened LegacyContainer
  import opened LegacyExcel

  /** A BOF record, a FILEPASS record with a body, and whatever follows. */
  function BookOf(body: Bytes, after: Bytes): (book: Bytes)
    ensures |book| == 8 + |body| + |after|
  {
    Le16(BOF) + Le16(0) + (Le16(FILEPASS) + Le16(|body|) + (body + after))
  }

  lemma BookLies(body: Bytes, after: Bytes)
    requires |body| < 0x1_0000
    ensures
      var book, end := BookOf(body, after), 8 + |body|;
      && ReadLe16(book, 0) == Some(BOF) && ReadLe16(book, 2) == Some(0)
      && ReadLe16(book, 4) == Some(FILEPASS) && ReadLe16(book, 6) == Some(|body|)
      && book[8..end] == body && book[end..] == after
  {
    var book := BookOf(body, after);
    var t2 := body + after;
    var t1 := Le16(FILEPASS) + Le16(|body|) + t2;
    assert book[0..] == book;
    SplitTail(book, 0, Le16(BOF) + Le16(0), t1);
    Split(book, 0, Le16(BOF), Le16(0));
    SplitTail(book, 4, Le16(FILEPASS) + Le16(|body|), t2);
    Split(book, 4, Le16(FILEPASS), Le16(|body|));
    SplitTail(book, 8, body, after);
    ReadBack16(book, 0, BOF);
    ReadBack16(book, 2, 0);
    ReadBack16(book, 4, FILEPASS);
    ReadBack16(book, 6, |body|);
  }

  lemma BookWalks(body: Bytes, after: Bytes)
    requires |body| < 0x1_0000
    ensures
      var book, end := BookOf(body, after), 8 + |body|;
      var rest := Walk(book, end);
      Walk(book, 0) == Walked([Record(BOF, 4, 4), Record(FILEPASS, 8, end)] + rest.records, rest.stop)
  {
    BookLies(body, after);
    var book, end := BookOf(body, after), 8 + |body|;
    var rest := Walk(book, end);
    assert RecordOf(book, 0) == Some(Record(BOF, 4, 4)) && RecordOf(book, 4) == Some(Record(FILEPASS, 8, end));
    assert Walk(book, 4) == Walked([Record(FILEPASS, 8, end)] + rest.records, rest.stop);
    assert [Record(BOF, 4, 4)] + ([Record(FILEPASS, 8, end)] + rest.records)
      == [Record(BOF, 4, 4), Record(FILEPASS, 8, end)] + rest.records;
  }

  /** Whatever follows cleanly, the first FILEPASS is the one a decrypt works on. */
  lemma BookScreens(body: Bytes, after: Bytes)
    requires |body| < 0x1_0000 && Walk(BookOf(body, after), 8 + |body|).stop.None?
    ensures Screen(BookOf(body, after)) == Ok(Record(FILEPASS, 8, 8 + |body|))
  {
    BookWalks(body, after);
    var records := Walk(BookOf(body, after), 0).records;
    assert records[0].id == BOF && records[1].id == FILEPASS;
    assert FirstFilepass(records) == FirstFilepass(records[1..]) && FirstStray(records) == FirstStray(records[1..]);
  }

  lemma PlanOf(f: Legacies, streams: map<StreamName, Bytes>, storages: set<StreamName>, password: Bytes,
               filepass: Record, scheme: Scheme)
    requires Workbook in streams && |streams[Workbook]| <= LEGACY_STREAM_READ_CAP
    requires OpenBook(f, streams[Workbook], password) == Ok((filepass, scheme)) && SummaryOf(streams, scheme).Ok?
    ensures Planned(f, streams, storages, password)
      == Ok(Plan(Rewritten(streams[Workbook], scheme, filepass), SummaryOf(streams, scheme).value))
  {
  }

  // ----- a FILEPASS left in the output -----

  /** A second FILEPASS record, with no body, behind the first. */
  const SECOND_FILEPASS: Bytes := [0x2F, 0, 0, 0]

  lemma SecondFilepassWalks(body: Bytes)
    requires |body| < 0x1_0000
    ensures
      var end := 8 + |body|;
      Walk(BookOf(body, SECOND_FILEPASS), end) == Walked([Record(FILEPASS, end + 4, end + 4)], None)
  {
    var book, end := BookOf(body, SECOND_FILEPASS), 8 + |body|;
    BookLies(body, SECOND_FILEPASS);
    assert forall i :: 0 <= i < 4 ==> book[end + i] == book[end..][i];
    assert book[end] == 0x2F && book[end + 1] == 0 && book[end + 2] == 0 && book[end + 3] == 0;
    assert RecordOf(book, end) == Some(Record(FILEPASS, end + 4, end + 4));
    assert Walk(book, end + 4) == Walked([], None);
  }

  /** The workbook of a password's obfuscation, with two FILEPASS records. */
  function TwiceObfuscated(o: Obfuscator): Bytes {
    BookOf(Le16(0) + (Le16(o.key) + Le16(o.verifier)), SECOND_FILEPASS)
  }

  lemma ObfuscatedOpens(f: Legacies, password: Bytes, o: Obfuscator)
    requires f.obfuscator(password) == Some(o)
    ensures OpenScheme(f, Le16(0) + (Le16(o.key) + Le16(o.verifier)), password) == Ok(XorObfuscation(o))
  {
    var body := Le16(0) + (Le16(o.key) + Le16(o.verifier));
    assert body[0..] == body;
    SplitTail(body, 0, Le16(0), Le16(o.key) + Le16(o.verifier));
    SplitTail(body, 2, Le16(o.key), Le16(o.verifier));
    assert body[4..6] == body[4..];
    ReadBack16(body, 0, 0);
    ReadBack16(body, 2, o.key);
    ReadBack16(body, 4, o.verifier);
  }

  lemma TwoFilepasses(a: Record, b: Record, c: Record)
    requires a.id != FILEPASS && b.id == FILEPASS && c.id == FILEPASS
    ensures Filepasses([a, b, c]) == 2
  {
    assert [a, b, c][1..] == [b, c] && [b, c][1..] == [c] && [c][1..] == [];
    assert Filepasses([c]) == 1 && Filepasses([b, c]) == 2;
  }

  /**
   For every password that can be obfuscated with: this workbook is decrypted, the scan
   of the output proves it plain, and the output still holds a FILEPASS record.
   */
  lemma FilepassSurvives(f: Legacies, password: Bytes, o: Obfuscator)
    requires f.obfuscator(password) == Some(o)
    ensures
      var streams := map[Workbook := TwiceObfuscated(o)];
      var plan := Planned(f, streams, {}, password);
      && plan.Ok? && plan.value.summary.None?
      && Scan(plan.value.plain) == ProvenAbsent
      && FirstFilepass(Walk(plan.value.plain, 0).records).Some?
      && Screen(plan.value.plain) == Err(BadParameters(Filepass, OutOfOrder(0)))
  {
    var book, filepass := TwiceObfuscated(o), Record(FILEPASS, 8, 14);
    TwiceObfuscatedOpens(f, password, o);
    PlanOf(f, map[Workbook := book], {}, password, filepass, XorObfuscation(o));
    OutputIsProvablyPlain(book, XorObfuscation(o), filepass);
    OutputHoldsNoFilepass(book, XorObfuscation(o), filepass);
  }

  /** The shortest such workbook: twelve bytes, whatever the scheme. */
  lemma EmptyFilepassSurvives(scheme: Scheme)
    requires scheme.Sized()
    ensures
      var book, filepass := BookOf([], SECOND_FILEPASS), Record(FILEPASS, 8, 8);
      && Screen(book) == Ok(filepass)
      && FirstFilepass(Walk(Rewritten(book, scheme, filepass), 0).records).Some?
  {
    var book, filepass := BookOf([], SECOND_FILEPASS), Record(FILEPASS, 8, 8);
    BookWalks([], SECOND_FILEPASS);
    SecondFilepassWalks([]);
    BookScreens([], SECOND_FILEPASS);
    TwoFilepasses(Record(BOF, 4, 4), filepass, Record(FILEPASS, 12, 12));
    var all := Walk(book, 0).records;
    assert all == [Record(BOF, 4, 4), filepass, Record(FILEPASS, 12, 12)];
    OutputHoldsNoFilepass(book, scheme, filepass);
  }

  lemma TwiceObfuscatedOpens(f: Legacies, password: Bytes, o: Obfuscator)
    requires f.obfuscator(password) == Some(o)
    ensures OpenBook(f, TwiceObfuscated(o), password) == Ok((Record(FILEPASS, 8, 14), XorObfuscation(o)))
    ensures Filepasses(Walk(TwiceObfuscated(o), 0).records) == 2
  {
    var body, filepass := Le16(0) + (Le16(o.key) + Le16(o.verifier)), Record(FILEPASS, 8, 14);
    BookWalks(body, SECOND_FILEPASS);
    SecondFilepassWalks(body);
    BookScreens(body, SECOND_FILEPASS);
    BookLies(body, SECOND_FILEPASS);
    ObfuscatedOpens(f, password, o);
    TwoFilepasses(Record(BOF, 4, 4), filepass, Record(FILEPASS, 18, 18));
    assert Walk(TwiceObfuscated(o), 0).records == [Record(BOF, 4, 4), filepass, Record(FILEPASS, 18, 18)];
  }

  // ----- a storage in the way of the properties -----

  const SALT: Bytes := Zeros(16)
  /** `fCryptoAPI` alone: the properties are encrypted. */
  const FLAGS: nat := 4

  function ScheduleOf(f: Legacies, password: Bytes): (s: Schedule)
    ensures s.Keyable()
  {
    CryptoApiSchedule(f, password, SALT, 128).value
  }

  /** A CryptoAPI workbook of one password, with nothing in it. */
  function LockedBook(f: Legacies, password: Bytes): Bytes {
    BookOf(FilepassBodyOf(f, password), [])
  }

  function FilepassBodyOf(f: Legacies, password: Bytes): (body: Bytes)
    ensures |body| == 106
  {
    Le16(1) + WrittenCryptoApi(Stored(f, password, 128, FLAGS, SALT, SALT), 128, Zeros(12))
  }

  lemma LockedBookOpens(f: Legacies, password: Bytes)
    ensures OpenScheme(f, FilepassBodyOf(f, password), password) == Ok(Rc4(ScheduleOf(f, password), false))
  {
    var h := Stored(f, password, 128, FLAGS, SALT, SALT);
    var body, structure := FilepassBodyOf(f, password), WrittenCryptoApi(h, 128, Zeros(12));
    assert body[0..] == body;
    SplitTail(body, 0, Le16(1), structure);
    ReadBack16(body, 0, 1);
    CryptoApiOpens(f, password, 128, FLAGS, SALT, SALT, Zeros(12), []);
    assert structure + [] == structure;
    StructureVersion(h);
  }

  lemma StructureVersion(h: CryptoApiHeader)
    ensures
      var structure := WrittenCryptoApi(h, 128, Zeros(12));
      ReadLe16(structure, 0) == Some(4) && ReadLe16(structure, 2) == Some(2)
  {
    var structure := WrittenCryptoApi(h, 128, Zeros(12));
    assert structure[0..2] == Le16(4) && structure[2..4] == Le16(2);
    ReadBack16(structure, 0, 4);
    ReadBack16(structure, 2, 2);
  }

  /** An encrypted summary that carries an empty `SummaryInformation`. */
  const ITEMS: seq<SummaryLayout.Item> := [SummaryLayout.Item(Summary, 0, Zeros(4), [])]

  lemma ItemsAreWritable(s: Schedule)
    requires s.Keyable()
    ensures Writable(ITEMS, s) && PlacedFrom(ITEMS, PREFIX_LEN) == [Restored(Summary, 8, 8, [])]
  {
    assert ITEMS[1..] == [] && SummaryLayout.Contents(s, ITEMS) == s.Keyed([], 0) + [];
    assert PlacedFrom(ITEMS, PREFIX_LEN) == [ITEMS[0].At(8)] + PlacedFrom(ITEMS[1..], 8);
  }

  ghost function LockedStreams(f: Legacies, password: Bytes): map<StreamName, Bytes> {
    ItemsAreWritable(ScheduleOf(f, password));
    map[Workbook := LockedBook(f, password), EncryptedSummaryStream := Sealed(ScheduleOf(f, password), ITEMS)]
  }

  lemma LockedBookIsOpened(f: Legacies, password: Bytes)
    ensures OpenBook(f, LockedBook(f, password), password)
      == Ok((Record(FILEPASS, 8, 114), Rc4(ScheduleOf(f, password), false)))
  {
    var body := FilepassBodyOf(f, password);
    LockedBookOpens(f, password);
    BookLies(body, []);
    BookScreens(body, []);
  }

  lemma LockedSummary(f: Legacies, password: Bytes)
    ensures SummaryOf(LockedStreams(f, password), Rc4(ScheduleOf(f, password), false))
      == Ok(Some([Restored(Summary, 8, 8, [])]))
  {
    var s := ScheduleOf(f, password);
    ItemsAreWritable(s);
    SealedUnseals(s, ITEMS);
    SealedIsShort(s);
  }

  lemma LockedIsPlanned(f: Legacies, password: Bytes, storages: set<StreamName>)
    ensures
      var book, scheme := LockedBook(f, password), Rc4(ScheduleOf(f, password), false);
      Planned(f, LockedStreams(f, password), storages, password)
        == Ok(Plan(Rewritten(book, scheme, Record(FILEPASS, 8, 114)), Some([Restored(Summary, 8, 8, [])])))
  {
    LockedBookIsOpened(f, password);
    LockedSummary(f, password);
    PlanOf(f, LockedStreams(f, password), storages, password, Record(FILEPASS, 8, 114),
           Rc4(ScheduleOf(f, password), false));
  }

  /** What a decrypt leaves of the container when it ends half way. */
  ghost predicate LosesTheProperties(streams: map<StreamName, Bytes>, storages: set<StreamName>, plan: Plan) {
    var after := After(streams, storages, plan);
    && after.0 == Some(Io(AlreadyExists))
    && EncryptedSummaryStream in streams && EncryptedSummaryStream !in after.1
    && Workbook in after.1 && after.1[Workbook] == plan.plain && Scan(plan.plain) == ProvenAbsent
  }

  /**
   For every password and every choice of primitives: a container whose
   `SummaryInformation` is a storage. On a medium that does not fail the decrypt of it ends
   in an error, with the workbook rewritten and the encrypted properties removed.
   */
  lemma StorageLosesTheProperties(f: Legacies, password: Bytes)
    ensures
      var streams, storages := LockedStreams(f, password), {SummaryInformation};
      var plan := Planned(f, streams, storages, password);
      plan.Ok? && plan.value.Blocked(storages) && LosesTheProperties(streams, storages, plan.value)
  {
    var streams, storages := LockedStreams(f, password), {SummaryInformation};
    LockedIsPlanned(f, password, storages);
    var plan := Planned(f, streams, storages, password).value;
    assert NameOf(plan.summary.value[0].name) in storages;
    FailsHalfwayExactly(f, streams, storages, password);
    DecryptChangesWhatItMust(f, streams, storages, password);
  }

  lemma SealedIsShort(s: Schedule)
    requires Writable(ITEMS, s)
    ensures |Sealed(s, ITEMS)| <= LEGACY_STREAM_READ_CAP
  {
    AllFormed(s, ITEMS, PREFIX_LEN);
    assert ITEMS[1..] == [] && SummaryLayout.Contents(s, ITEMS[1..]) == [];
    assert |SummaryLayout.Contents(s, ITEMS)| == 0;
  }
}
