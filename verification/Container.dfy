/** The compound file a package is written into, as streams by name: `dataspaces.rs`. */
module Container {
  import opened Errors
  import opened Octets

  datatype StreamName =
    | InfoStream
    | PackageStream
    | Workbook
    | Book
    | EncryptedSummaryStream
    | SummaryInformation
    | DocumentSummaryInformation
    | OtherStream(path: string)

  /** What a write from the front leaves of an entry. */
  function Over(bytes: Bytes, before: Bytes): (after: Bytes)
    ensures |after| == if |bytes| >= |before| then |bytes| else |before|
    ensures bytes <= after && forall i :: |bytes| <= i < |before| ==> after[i] == before[i]
  {
    bytes + before[Min(|bytes|, |before|)..]
  }

  /** The same streams, but for those of some names. */
  ghost predicate SameExcept(a: map<StreamName, Bytes>, b: map<StreamName, Bytes>, names: set<StreamName>) {
    forall n: StreamName :: n !in names ==> (n in a <==> n in b) && (n in a && n in b ==> a[n] == b[n])
  }

  /** A failed write of one entry: the others are as they were, and of that one a part may be written. */
  ghost predicate Torn(a: map<StreamName, Bytes>, b: map<StreamName, Bytes>, name: StreamName, bytes: Bytes,
                       before: Bytes) {
    SameExcept(a, b, {name}) && name in b && exists n: nat :: n <= |bytes| && b[name] == Over(bytes[..n], before)
  }

  class Container {
    var streams: map<StreamName, Bytes>
    /** How many more stream operations the medium takes; `None` is all of them. */
    var operations: Option<nat>

    constructor (operations: Option<nat>)
      ensures streams == map[] && this.operations == operations
    {
      streams, this.operations := map[], operations;
    }

    /** The medium takes one more operation, or fails for good. */
    method Operate() returns (ok: bool)
      modifies this`operations
      ensures old(operations).None? ==> ok && operations.None?
    {
      ok := operations != Some(0);
      if operations.Some? && ok {
        operations := Some(operations.value - 1);
      }
    }

    /** A write that failed: some of it may be there. */
    method Tear(name: StreamName, bytes: Bytes, before: Bytes)
      modifies this`streams
      ensures Torn(old(streams), streams, name, bytes, before)
    {
      var n: nat :| n <= |bytes|;
      streams := streams[name := Over(bytes[..n], before)];
    }

    /** `create_new_stream` and a whole write: an existing entry is refused. */
    method CreateNew(name: StreamName, bytes: Bytes) returns (r: Result<()>)
      modifies this
      ensures r.Ok? ==> name !in old(streams) && streams == old(streams)[name := bytes]
      ensures r.Err? ==>
        r.error == Io(Failed) && (streams == old(streams) || Torn(old(streams), streams, name, bytes, []))
      ensures old(operations).None? ==>
        operations.None? && (r.Ok? <==> name !in old(streams)) && (r.Err? ==> streams == old(streams))
    {
      if name in streams {
        return Err(Io(Failed));
      }
      var ok := Operate();
      if !ok {
        Tear(name, bytes, []);
        return Err(Io(Failed));
      }
      streams := streams[name := bytes];
      return Ok(());
    }

    /** A write from the front of an existing stream: what it does not reach stays. */
    method WriteOver(name: StreamName, bytes: Bytes) returns (r: Result<()>)
      modifies this
      ensures r.Ok? ==> name in old(streams) && streams == old(streams)[name := Over(bytes, old(streams)[name])]
      ensures r.Err? ==> r.error == Io(Failed)
      ensures r.Err? && streams != old(streams) ==>
        name in old(streams) && Torn(old(streams), streams, name, bytes, old(streams)[name])
      ensures old(operations).None? ==>
        operations.None? && (r.Ok? <==> name in old(streams)) && (r.Err? ==> streams == old(streams))
    {
      if name !in streams {
        return Err(Io(Failed));
      }
      var ok := Operate();
      if !ok {
        Tear(name, bytes, streams[name]);
        return Err(Io(Failed));
      }
      streams := streams[name := Over(bytes, streams[name])];
      return Ok(());
    }

    /**
     The end of `write_container`: the finished document goes over its placeholder, and
     only at the placeholder's length.
     */
    method PatchInfo(info: Bytes, placeholder: Bytes) returns (r: Result<()>)
      requires InfoStream in streams && streams[InfoStream] == placeholder
      modifies this
      ensures r.Ok? ==> |info| == |placeholder| && streams == old(streams)[InfoStream := info]
      ensures r.Err? ==>
        r.error == Io(Failed) || (r.error == InvariantViolated(PlaceholderLength) && |info| != |placeholder|)
      ensures old(operations).None? ==> (r.Ok? <==> |info| == |placeholder|)
    {
      if |info| != |placeholder| {
        return Err(InvariantViolated(PlaceholderLength));
      }
      if info == placeholder {
        assert streams == streams[InfoStream := info];
        return Ok(());
      }
      assert Over(info, placeholder) == info;
      r := WriteOver(InfoStream, info);
    }
  }
}
