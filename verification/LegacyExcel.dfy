/** The whole decrypt of a workbook inside its container: `excel97.rs`. */
module LegacyExcel {
  import opened Errors
  import opened Octets
  import opened LegacyCiphers
  import opened Rc4Headers
  import opened Biff
  import opened Excel97
  import opened EncryptedSummary
  import opened Container
  import opened LegacyContainer

  // ----- the scheme of a FILEPASS body -----

  /** The scheme a FILEPASS body names, once its password check has passed. No bytes reach a fault of the program. */
  function OpenScheme(f: Legacies, filepass: Bytes, password: Bytes): (r: Result<Scheme>)
    ensures r.Ok? ==> r.value.Sized() && r.value.Keyable()
    ensures r.Ok? ==> (r.value.XorObfuscation? <==> ReadLe16(filepass, 0) == Some(0))
    ensures r.Err? ==> !r.error.Internal()
  {
    match ReadLe16(filepass, 0)
    case None => Err(BadParameters(Filepass, Truncated(|filepass|, 2)))
    case Some(kind) =>
      if kind == 0 then OpenXor(f, filepass, password)
      else if kind == 1 then OpenRc4(f, filepass[2..], password)
      else Err(BadParameters(FilepassEncryptionType, NotInSet(kind)))
  }

  /** Both stored words have to be the password's. */
  function OpenXor(f: Legacies, filepass: Bytes, password: Bytes): (r: Result<Scheme>)
    requires |filepass| >= 2
    ensures r.Ok? <==>
      && |filepass| >= 6 && f.obfuscator(password).Some?
      && ReadLe16(filepass, 2) == Some(f.obfuscator(password).value.key)
      && ReadLe16(filepass, 4) == Some(f.obfuscator(password).value.verifier)
    ensures r.Ok? ==> r.value == XorObfuscation(f.obfuscator(password).value) && r.value.Sized()
    ensures r.Err? ==>
      r.error == if |filepass| >= 6 then WrongPassword else BadParameters(Filepass, Truncated(|filepass| - 2, 4))
  {
    var key, verifier := ReadLe16(filepass, 2), ReadLe16(filepass, 4);
    if key.None? || verifier.None? then Err(BadParameters(Filepass, Truncated(|filepass| - 2, 4)))
    else
      match f.obfuscator(password)
      case None => Err(WrongPassword)
      case Some(o) =>
        var _ :- o.Verify(key.value, verifier.value);
        Ok(XorObfuscation(o))
  }

  /** The first two words choose the family, and any other pair is refused as such. */
  function OpenRc4(f: Legacies, structure: Bytes, password: Bytes): (r: Result<Scheme>)
    ensures r.Ok? ==> r.value.Rc4? && r.value.Sized() && r.value.Keyable()
    ensures r.Ok? && ReadLe16(structure, 0) == Some(1) ==>
      OpenOffice97(f, structure, password) == Ok(r.value.schedule) && r.value.propertiesClear
    ensures r.Ok? && ReadLe16(structure, 0) != Some(1) ==>
      OpenCryptoApi(f, structure, password) == Ok((r.value.schedule, r.value.propertiesClear))
    ensures r.Err? ==> !r.error.Internal()
  {
    var major, minor := ReadLe16(structure, 0), ReadLe16(structure, 2);
    if major.None? || minor.None? then Err(BadParameters(EncryptionVersionInfo, Truncated(|structure|, 4)))
    else if major.value == 1 && minor.value == 1 then
      var schedule :- OpenOffice97(f, structure, password);
      Ok(Rc4(schedule, true))
    else if 2 <= major.value <= 4 && minor.value == 2 then
      var found :- OpenCryptoApi(f, structure, password);
      Ok(Rc4(found.0, found.1))
    else
      Err(UnsupportedEncryptionVersion(major.value, minor.value))
  }

  // ----- what a decrypt makes of a container -----

  function NameOf(p: PropertySet): StreamName {
    match p
    case Summary => SummaryInformation
    case DocumentSummary => DocumentSummaryInformation
  }

  function OpenBook(f: Legacies, book: Bytes, password: Bytes): (r: Result<(Record, Scheme)>)
    ensures r.Ok? ==> Screen(book) == Ok(r.value.0) && r.value.1.Sized() && r.value.1.Keyable()
    ensures r.Err? ==> !r.error.Internal()
  {
    var filepass :- Screen(book);
    var body := if filepass.start <= filepass.end <= |book| then book[filepass.start..filepass.end] else [];
    var scheme :- OpenScheme(f, body, password);
    Ok((filepass, scheme))
  }

  /** What the encrypted summary restores, when the header says there is one. */
  function SummaryOf(streams: map<StreamName, Bytes>, scheme: Scheme): (r: Result<Option<seq<Restored>>>)
    ensures r.Err? && scheme.Keyable() ==> !r.error.Internal()
    ensures r.Ok? && r.value.Some? ==> EncryptedSummaryStream in streams
  {
    if scheme.Rc4? && !scheme.propertiesClear then
      var data :- Contents(streams, EncryptedSummaryStream);
      var restored :- Unsealed(data, scheme.schedule);
      Ok(Some(restored))
    else
      Ok(None)
  }

  /** What is to be written, settled before anything is. */
  datatype Plan = Plan(plain: Bytes, summary: Option<seq<Restored>>) {

    /** A stream to be restored has the name of a storage. */
    predicate Blocked(storages: set<StreamName>) {
      summary.Some? && exists i :: 0 <= i < |summary.value| && NameOf(summary.value[i].name) in storages
    }
  }

  function Planned(f: Legacies, streams: map<StreamName, Bytes>, storages: set<StreamName>, password: Bytes)
    : (r: Result<Plan>)
    ensures r.Ok? ==> Workbook in streams && |r.value.plain| == |streams[Workbook]|
    ensures r.Ok? && r.value.summary.Some? ==> EncryptedSummaryStream in streams
    ensures r.Err? ==> !r.error.Internal()
  {
    if Workbook !in streams && Workbook !in storages then
      if Book in streams || Book in storages then Err(UnsupportedAlgorithm("Book stream"))
      else Err(MissingStream("Workbook"))
    else
      var book :- Contents(streams, Workbook);
      var found :- OpenBook(f, book, password);
      var summary :- SummaryOf(streams, found.1);
      Ok(Plan(Rewritten(book, found.1, found.0), summary))
  }

  /** The restored streams one after the other, up to one that a storage is in the way of. */
  function Restoring(streams: map<StreamName, Bytes>, storages: set<StreamName>, restored: seq<Restored>)
    : (Option<Error>, map<StreamName, Bytes>)
    decreases |restored|
  {
    if restored == [] then (None, streams)
    else
      var name := NameOf(restored[0].name);
      if name in storages then (Some(Io(AlreadyExists)), streams)
      else Restoring(streams[name := restored[0].bytes], storages, restored[1..])
  }

  /** What the writes of a plan leave on a medium that does not fail, and the error they end with. */
  function After(streams: map<StreamName, Bytes>, storages: set<StreamName>, plan: Plan)
    : (Option<Error>, map<StreamName, Bytes>)
  {
    var rewritten := streams[Workbook := plan.plain];
    if plan.summary.None? then (None, rewritten)
    else Restoring(rewritten - {EncryptedSummaryStream}, storages, plan.summary.value)
  }

  // ----- when a failing decrypt leaves the container as it was -----

  /** The streams a decrypt writes or removes. */
  const TOUCHED: set<StreamName> := {Workbook, EncryptedSummaryStream, SummaryInformation, DocumentSummaryInformation}

  lemma {:induction false} RestoringStops(streams: map<StreamName, Bytes>, storages: set<StreamName>,
                                          restored: seq<Restored>)
    ensures
      var after := Restoring(streams, storages, restored);
      && (after.0.Some? <==> exists i :: 0 <= i < |restored| && NameOf(restored[i].name) in storages)
      && (after.0.Some? ==> after.0 == Some(Io(AlreadyExists)))
      && SameExcept(streams, after.1, {SummaryInformation, DocumentSummaryInformation})
    decreases |restored|
  {
    if restored != [] {
      var name := NameOf(restored[0].name);
      assert name in {SummaryInformation, DocumentSummaryInformation};
      if name !in storages {
        RestoringStops(streams[name := restored[0].bytes], storages, restored[1..]);
        assert forall i :: 1 <= i < |restored| ==> restored[i] == restored[1..][i - 1];
      }
    }
  }

  /**
   On a medium that does not fail, a decrypt that ends in an error has changed the
   container exactly when it got as far as a plan, and the plan restores a stream whose
   name is a storage: the workbook is rewritten and the encrypted summary gone by then.
   */
  lemma FailsHalfwayExactly(f: Legacies, streams: map<StreamName, Bytes>, storages: set<StreamName>, password: Bytes)
    requires Planned(f, streams, storages, password).Ok?
    ensures
      var plan := Planned(f, streams, storages, password).value;
      var after := After(streams, storages, plan);
      && (after.0.Some? <==> plan.Blocked(storages))
      && (after.0.Some? ==> after.0 == Some(Io(AlreadyExists)) && after.1 != streams)
      && (after.0.Some? ==> EncryptedSummaryStream in streams && EncryptedSummaryStream !in after.1)
      && Workbook in after.1 && after.1[Workbook] == plan.plain
      && SameExcept(streams, after.1, TOUCHED)
  {
    var plan := Planned(f, streams, storages, password).value;
    if plan.summary.Some? {
      RestoringStops(streams[Workbook := plan.plain] - {EncryptedSummaryStream}, storages, plan.summary.value);
    }
  }

  /** So it is enough that neither property-set name is a storage. */
  lemma UntouchedUnlessStorage(f: Legacies, streams: map<StreamName, Bytes>, storages: set<StreamName>, password: Bytes)
    requires SummaryInformation !in storages && DocumentSummaryInformation !in storages
    ensures var r := Planned(f, streams, storages, password); r.Ok? ==> After(streams, storages, r.value).0.None?
  {
    if Planned(f, streams, storages, password).Ok? {
      FailsHalfwayExactly(f, streams, storages, password);
    }
  }

  // ----- what a decrypt that succeeds changes -----

  /**
   What a decrypt changes: the detector found the workbook encrypted and proves the output
   plain; the workbook keeps its length, and outside it and the summary nothing changes.
   */
  lemma DecryptChangesWhatItMust(f: Legacies, streams: map<StreamName, Bytes>, storages: set<StreamName>,
                                 password: Bytes)
    requires Planned(f, streams, storages, password).Ok?
    ensures
      var m := After(streams, storages, Planned(f, streams, storages, password).value).1;
      && Workbook in streams && Workbook in m && |m[Workbook]| == |streams[Workbook]|
      && Scan(streams[Workbook]).Found? && Scan(m[Workbook]) == ProvenAbsent
      && SameExcept(streams, m, TOUCHED)
  {
    var book := Contents(streams, Workbook).value;
    var found := OpenBook(f, book, password).value;
    OutputIsProvablyPlain(book, found.1, found.0);
    DetectorAgrees(book);
    FailsHalfwayExactly(f, streams, storages, password);
  }

  /** A workbook the detector proves plain is never decrypted, whatever the password. */
  lemma ProvenPlainIsRefused(f: Legacies, streams: map<StreamName, Bytes>, storages: set<StreamName>, password: Bytes)
    requires Workbook in streams && Scan(streams[Workbook]) == ProvenAbsent
    ensures Planned(f, streams, storages, password).Err?
  {
    DetectorAgrees(streams[Workbook]);
  }

  // ----- the decrypt as the program makes it -----

  lemma FilepassBody(book: Bytes)
    ensures var r := Screen(book); r.Ok? ==> 4 <= r.value.start <= r.value.end <= |book|
  {
    if Screen(book).Ok? {
      HolderOfRecordBounds(book, Screen(book).value);
    }
  }

  method WriteRestored(container: Legacy, restored: seq<Restored>) returns (r: Result<()>)
    requires container.Valid() && EncryptedSummaryStream in container.cfb.streams
    modifies container.cfb
    ensures
      var after := Restoring(old(container.cfb.streams) - {EncryptedSummaryStream}, container.storages, restored);
      && (r.Ok? ==> after == (None, container.cfb.streams))
      && (r.Err? && r.error != Io(Failed) ==> after == (Some(r.error), container.cfb.streams))
      && (old(container.cfb.operations).None? ==>
        after == (if r.Ok? then None else Some(r.error), container.cfb.streams))
    ensures r.Err? ==> r.error.Io?
    ensures SameExcept(old(container.cfb.streams), container.cfb.streams, TOUCHED - {Workbook})
  {
    ghost var target := Restoring(container.cfb.streams - {EncryptedSummaryStream}, container.storages, restored);
    ghost var before, steady := container.cfb.streams, container.cfb.operations.None?;
    var removed :- container.Remove(EncryptedSummaryStream);
    for i := 0 to |restored|
      invariant container.Valid() && Restoring(container.cfb.streams, container.storages, restored[i..]) == target
      invariant steady ==> container.cfb.operations.None?
      invariant SameExcept(before, container.cfb.streams, TOUCHED - {Workbook})
    {
      ghost var rest := restored[i..];
      assert rest[0] == restored[i] && rest[1..] == restored[i + 1..];
      var name := NameOf(restored[i].name);
      assert name in TOUCHED - {Workbook};
      var written :- container.Replace(name, restored[i].bytes);
    }
    return Ok(());
  }

  /** The summary read and decrypted, nothing written. */
  method ReadSummary(container: Legacy, scheme: Scheme) returns (r: Result<Option<seq<Restored>>>)
    modifies container.cfb`operations
    ensures r.Ok? ==> r == SummaryOf(container.cfb.streams, scheme)
    ensures r.Err? ==> r.error == Io(Failed) || r == SummaryOf(container.cfb.streams, scheme)
    ensures old(container.cfb.operations).None? ==>
      container.cfb.operations.None? && r == SummaryOf(container.cfb.streams, scheme)
  {
    if !scheme.Rc4? || scheme.propertiesClear {
      return Ok(None);
    }
    var data :- container.Read(EncryptedSummaryStream);
    var restored, turns := DecryptStream(data, scheme.schedule);
    if restored.Err? {
      return Err(restored.error);
    }
    return Ok(Some(restored.value));
  }

  /** The workbook read, walked and matched with a password, nothing written. */
  method OpenWorkbook(f: Legacies, container: Legacy, password: Bytes) returns (r: Result<(Bytes, Record, Scheme)>)
    requires container.Exists(Workbook)
    modifies container.cfb`operations
    ensures r.Ok? ==>
      && Contents(container.cfb.streams, Workbook) == Ok(r.value.0)
      && OpenBook(f, r.value.0, password) == Ok((r.value.1, r.value.2))
    ensures r.Err? ==>
      r.error == Io(Failed) || Planned(f, container.cfb.streams, container.storages, password) == Err(r.error)
    ensures old(container.cfb.operations).None? ==>
      && container.cfb.operations.None?
      && (r.Err? ==> Planned(f, container.cfb.streams, container.storages, password) == Err(r.error))
  {
    var book :- container.Read(Workbook);
    var filepass :- ScreenRecords(book);
    FilepassBody(book);
    var scheme :- OpenScheme(f, book[filepass.start..filepass.end], password);
    return Ok((book, filepass, scheme));
  }

  /** Everything before the first write. */
  method MakePlan(f: Legacies, container: Legacy, password: Bytes) returns (r: Result<Plan>)
    modifies container.cfb`operations
    ensures r.Ok? ==> r == Planned(f, container.cfb.streams, container.storages, password)
    ensures r.Err? ==> r.error == Io(Failed) || r == Planned(f, container.cfb.streams, container.storages, password)
    ensures old(container.cfb.operations).None? ==>
      container.cfb.operations.None? && r == Planned(f, container.cfb.streams, container.storages, password)
  {
    var name := container.WorkbookStreamName();
    if name.None? {
      return Err(MissingStream("Workbook"));
    }
    if name.value == Book {
      return Err(UnsupportedAlgorithm("Book stream"));
    }
    var opening :- OpenWorkbook(f, container, password);
    var (book, filepass, scheme) := opening;
    var plain := Rewrite(book, scheme, filepass);
    assert plain.Ok?;  // the read cap is 2^20 blocks, and every key is one RC4 takes
    var summary :- ReadSummary(container, scheme);
    return Ok(Plan(plain.value, summary));
  }

  /** The writes of a plan, the workbook first. */
  method WriteBack(container: Legacy, plan: Plan) returns (r: Result<()>)
    requires container.Valid()
    requires Workbook in container.cfb.streams && |container.cfb.streams[Workbook]| == |plan.plain|
    requires plan.summary.Some? ==> EncryptedSummaryStream in container.cfb.streams
    modifies container.cfb
    ensures
      var after := After(old(container.cfb.streams), container.storages, plan);
      && (r.Ok? ==> after == (None, container.cfb.streams))
      && (r.Err? && r.error != Io(Failed) ==> after == (Some(r.error), container.cfb.streams))
      && (old(container.cfb.operations).None? ==>
        after == (if r.Ok? then None else Some(r.error), container.cfb.streams))
    ensures r.Err? ==> r.error.Io?
    ensures SameExcept(old(container.cfb.streams), container.cfb.streams, TOUCHED)
  {
    var overwritten :- container.Overwrite(Workbook, plan.plain);
    if plan.summary.Some? {
      r := WriteRestored(container, plan.summary.value);
      return;
    }
    return Ok(());
  }

  /**
   The decrypt in place. Whatever the medium does, a container that gets no plan is left as
   it was, and one that does changes in the streams a decrypt writes and nowhere else; an
   error is never a fault of the program. On a medium that does not fail, the run is the
   plan's writes.
   */
  method Decrypt(f: Legacies, container: Legacy, password: Bytes) returns (r: Result<()>)
    requires container.Valid()
    modifies container.cfb
    ensures Planned(f, old(container.cfb.streams), container.storages, password).Err? ==>
      r.Err? && container.cfb.streams == old(container.cfb.streams)
    ensures SameExcept(old(container.cfb.streams), container.cfb.streams, TOUCHED)
    ensures r.Err? ==> !r.error.Internal()
    ensures r.Ok? ==>
      var plan := Planned(f, old(container.cfb.streams), container.storages, password);
      plan.Ok? && After(old(container.cfb.streams), container.storages, plan.value) == (None, container.cfb.streams)
    ensures old(container.cfb.operations).None? ==>
      match Planned(f, old(container.cfb.streams), container.storages, password)
      case Err(e) => r == Err(e)
      case Ok(plan) =>
        After(old(container.cfb.streams), container.storages, plan)
          == (if r.Ok? then None else Some(r.error), container.cfb.streams)
  {
    var plan :- MakePlan(f, container, password);
    r := WriteBack(container, plan);
  }
}
