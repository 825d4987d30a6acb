/**
 When a workbook's container is decrypted, and what it holds afterwards, stream by stream:
 `excel97.rs` and `encrypted_summary.rs` from one end to the other.
 */
module LegacyStandard {
  import opened Errors
  import opened Octets
  import opened LegacyCiphers
  import opened Rc4Headers
  import opened Biff
  import opened Excel97
  import opened EncryptedSummary
  import opened Container
  import opened LegacyContainer
  import opened LegacyExcel

  /** A stream of at most a gibibyte. */
  predicate Readable(streams: map<StreamName, Bytes>, name: StreamName) {
    name in streams && |streams[name]| <= 0x4000_0000
  }

  /** The properties are encrypted: only under RC4, and only when the header says so. */
  predicate Encloses(scheme: Scheme) {
    scheme.Rc4? && !scheme.propertiesClear
  }

  /**
   A decrypt gets as far as writing exactly when the workbook can be read, walks cleanly to
   one FILEPASS, opens with the password and, where its properties are enclosed, encloses
   them soundly.
   */
  lemma PlannedExactly(f: Legacies, streams: map<StreamName, Bytes>, storages: set<StreamName>, password: Bytes,
                       filepass: Record, scheme: Scheme)
    requires Workbook in streams && Screen(streams[Workbook]) == Ok(filepass)
    requires filepass.start <= filepass.end <= |streams[Workbook]|
    requires OpenScheme(f, streams[Workbook][filepass.start..filepass.end], password) == Ok(scheme)
    ensures
      var plan := Planned(f, streams, storages, password);
      && (plan.Ok? <==>
        && |streams[Workbook]| <= 0x4000_0000
        && (Encloses(scheme) ==>
          Readable(streams, EncryptedSummaryStream) && Unsealed(streams[EncryptedSummaryStream], scheme.schedule).Ok?))
      && (plan.Ok? ==>
        && plan.value.plain == Rewritten(streams[Workbook], scheme, filepass)
        && (plan.value.summary.Some? <==> Encloses(scheme))
        && (Encloses(scheme) ==>
          plan.value.summary == Some(Unsealed(streams[EncryptedSummaryStream], scheme.schedule).value)))
  {
  }

  /** And no other container is decrypted: each is refused as what it is. */
  lemma RefusedOtherwise(f: Legacies, streams: map<StreamName, Bytes>, storages: set<StreamName>, password: Bytes)
    ensures Workbook !in streams && Workbook !in storages ==>
      Planned(f, streams, storages, password) == Err(
        if Book in streams || Book in storages then UnsupportedAlgorithm("Book stream") else MissingStream("Workbook"))
    ensures Workbook !in streams && Workbook in storages ==>
      var r := Planned(f, streams, storages, password); r.Err? && r.error.MissingStream?
    ensures Workbook in streams && |streams[Workbook]| > 0x4000_0000 ==>
      Planned(f, streams, storages, password) == Err(StreamTooLarge(0x4000_0000))
    ensures Readable(streams, Workbook) && Screen(streams[Workbook]).Err? ==>
      Planned(f, streams, storages, password) == Err(Screen(streams[Workbook]).error)
    ensures Readable(streams, Workbook) && Screen(streams[Workbook]).Ok? ==>
      var filepass := Screen(streams[Workbook]).value;
      && filepass.start <= filepass.end <= |streams[Workbook]|
      && var scheme := OpenScheme(f, streams[Workbook][filepass.start..filepass.end], password);
      && (scheme.Err? ==> Planned(f, streams, storages, password) == Err(scheme.error))
  {
    if Workbook in streams {
      FilepassBody(streams[Workbook]);
    }
  }

  predicate NamedApart(restored: seq<Restored>) {
    forall i, j :: 0 <= i < j < |restored| ==> restored[i].name != restored[j].name
  }

  /** Each property set under its own name. */
  predicate Holds(m: map<StreamName, Bytes>, restored: seq<Restored>) {
    && (forall i :: 0 <= i < |restored| && restored[i].name == Summary ==>
      SummaryInformation in m && m[SummaryInformation] == restored[i].bytes)
    && (forall i :: 0 <= i < |restored| && restored[i].name == DocumentSummary ==>
      DocumentSummaryInformation in m && m[DocumentSummaryInformation] == restored[i].bytes)
  }

  /** So it is after the restoring, and only what was restored has changed. */
  lemma {:induction false} RestoredStand(streams: map<StreamName, Bytes>, storages: set<StreamName>,
                                         restored: seq<Restored>)
    requires Restoring(streams, storages, restored).0.None? && NamedApart(restored)
    ensures
      var m := Restoring(streams, storages, restored).1;
      && Holds(m, restored)
      && ((forall i :: 0 <= i < |restored| ==> restored[i].name != Summary) ==>
        SameExcept(streams, m, {DocumentSummaryInformation}))
      && ((forall i :: 0 <= i < |restored| ==> restored[i].name != DocumentSummary) ==>
        SameExcept(streams, m, {SummaryInformation}))
    decreases |restored|
  {
    if restored != [] {
      var first, rest := restored[0], restored[1..];
      var next := streams[NameOf(first.name) := first.bytes];
      assert forall i :: 1 <= i < |restored| ==> restored[i] == rest[i - 1];
      assert NamedApart(rest);
      RestoredStand(next, storages, rest);
    }
  }

  /**
   What stands in the container after a decrypt that succeeds: the workbook rewritten, and
   with enclosed properties each property set under its own name and the enclosure gone.
   */
  lemma DecryptLeaves(f: Legacies, streams: map<StreamName, Bytes>, storages: set<StreamName>, password: Bytes,
                      filepass: Record, scheme: Scheme, m: map<StreamName, Bytes>)
    requires Workbook in streams && Screen(streams[Workbook]) == Ok(filepass)
    requires filepass.start <= filepass.end <= |streams[Workbook]|
    requires OpenScheme(f, streams[Workbook][filepass.start..filepass.end], password) == Ok(scheme)
    requires Planned(f, streams, storages, password).Ok?
    requires After(streams, storages, Planned(f, streams, storages, password).value) == (None, m)
    ensures Workbook in m && m[Workbook] == Rewritten(streams[Workbook], scheme, filepass)
    ensures !Encloses(scheme) ==> SameExcept(streams, m, {Workbook})
    ensures Encloses(scheme) ==>
      && EncryptedSummaryStream in streams && EncryptedSummaryStream !in m
      && Unsealed(streams[EncryptedSummaryStream], scheme.schedule).Ok?
      && Holds(m, Unsealed(streams[EncryptedSummaryStream], scheme.schedule).value)
  {
    PlannedExactly(f, streams, storages, password, filepass, scheme);
    if Encloses(scheme) {
      UnsealedIsSound(streams[EncryptedSummaryStream], scheme.schedule);
    }
    AfterLeaves(streams, storages, Planned(f, streams, storages, password).value, m);
  }

  lemma AfterLeaves(streams: map<StreamName, Bytes>, storages: set<StreamName>, plan: Plan, m: map<StreamName, Bytes>)
    requires After(streams, storages, plan) == (None, m)
    requires plan.summary.Some? ==> NamedApart(plan.summary.value)
    ensures Workbook in m && m[Workbook] == plan.plain
    ensures plan.summary.None? ==> SameExcept(streams, m, {Workbook})
    ensures plan.summary.Some? ==> EncryptedSummaryStream !in m && Holds(m, plan.summary.value)
  {
    if plan.summary.Some? {
      var rewritten := streams[Workbook := plan.plain] - {EncryptedSummaryStream};
      RestoredStand(rewritten, storages, plan.summary.value);
      RestoringStops(rewritten, storages, plan.summary.value);
    }
  }
}
