/** The container a binary document is decrypted inside: `legacy_container.rs`. */
module LegacyContainer {
  import opened Errors
  import opened Octets
  import opened Container

  const LEGACY_STREAM_READ_CAP: nat := 0x4000_0000

  /** Streams, and the names that are storages, which nothing here makes or removes. */
  class Legacy {
    const cfb: Container
    const storages: set<StreamName>

    constructor (cfb: Container, storages: set<StreamName>)
      ensures this.cfb == cfb && this.storages == storages
    {
      this.cfb, this.storages := cfb, storages;
    }

    /** No name is both. */
    ghost predicate Valid()
      reads cfb
    {
      forall name :: name in storages ==> name !in cfb.streams
    }

    /** A stream or a storage of that name. */
    predicate Exists(name: StreamName)
      reads cfb
    {
      name in cfb.streams || name in storages
    }

    /** `/Workbook` if there is one, and otherwise `/Book` if there is one. */
    function WorkbookStreamName(): Option<StreamName>
      reads cfb
    {
      if Exists(Workbook) then Some(Workbook) else if Exists(Book) then Some(Book) else None
    }

    /** The whole stream, if there is one and it is within the cap. */
    method Read(name: StreamName) returns (r: Result<Bytes>)
      modifies cfb`operations
      ensures r.Ok? ==> Contents(cfb.streams, name) == r
      ensures r.Err? ==> r.error == Io(Failed) || Contents(cfb.streams, name) == r
      ensures old(cfb.operations).None? ==> cfb.operations.None? && r == Contents(cfb.streams, name)
    {
      if name !in cfb.streams {
        return Err(MissingStream("no such stream"));
      }
      var ok := cfb.Operate();
      if !ok {
        return Err(Io(Failed));
      }
      if |cfb.streams[name]| > LEGACY_STREAM_READ_CAP {
        return Err(StreamTooLarge(LEGACY_STREAM_READ_CAP));
      }
      return Ok(cfb.streams[name]);
    }

    /** Replace a stream's bytes in place, at its own length only. */
    method Overwrite(name: StreamName, bytes: Bytes) returns (r: Result<()>)
      modifies cfb
      ensures r.Ok? ==> cfb.streams == old(cfb.streams)[name := bytes]
      ensures r.Err? && r.error != Io(Failed) ==> cfb.streams == old(cfb.streams)
      ensures SameExcept(old(cfb.streams), cfb.streams, {name})
      ensures name in old(cfb.streams) && |old(cfb.streams)[name]| == |bytes| ==> (r.Err? ==> r.error == Io(Failed))
      ensures old(cfb.operations).None? ==>
        && cfb.operations.None?
        && (name in old(cfb.streams) && |old(cfb.streams)[name]| == |bytes| ==> r.Ok?)
    {
      if name !in cfb.streams {
        return Err(MissingStream("no such stream"));
      }
      if |cfb.streams[name]| != |bytes| {
        return Err(InvariantViolated(RewriteLength));
      }
      assert Over(bytes, cfb.streams[name]) == bytes;
      r := cfb.WriteOver(name, bytes);
    }

    /**
     The whole of a stream, in place when the length is the same and anew otherwise. A
     storage of that name is in the way of a new stream.
     */
    method Replace(name: StreamName, bytes: Bytes) returns (r: Result<()>)
      requires Valid()
      modifies cfb
      ensures r.Ok? ==> name !in storages && cfb.streams == old(cfb.streams)[name := bytes]
      ensures r.Err? ==> r.error == Io(Failed) || (r.error == Io(AlreadyExists) && name in storages)
      ensures SameExcept(old(cfb.streams), cfb.streams, {name})
      ensures name in storages ==> cfb.streams == old(cfb.streams)
      ensures old(cfb.operations).None? ==>
        cfb.operations.None? && (r.Ok? <==> name !in storages) && (r.Err? ==> r.error == Io(AlreadyExists))
    {
      if name in cfb.streams && |cfb.streams[name]| == |bytes| {
        r := Overwrite(name, bytes);
        return;
      }
      if name in storages {
        return Err(Io(AlreadyExists));
      }
      ghost var before := cfb.streams;
      cfb.streams := cfb.streams - {name};
      r := cfb.CreateNew(name, bytes);
      assert (before - {name})[name := bytes] == before[name := bytes];
    }

    method Remove(name: StreamName) returns (r: Result<()>)
      modifies cfb
      ensures r.Ok? ==> cfb.streams == old(cfb.streams) - {name}
      ensures r.Err? ==> cfb.streams == old(cfb.streams)
      ensures name in old(cfb.streams) && r.Err? ==> r.error == Io(Failed)
      ensures old(cfb.operations).None? ==> cfb.operations.None? && (name in old(cfb.streams) ==> r.Ok?)
    {
      if name !in cfb.streams {
        return Err(MissingStream("no such stream"));
      }
      var ok := cfb.Operate();
      if !ok {
        return Err(Io(Failed));
      }
      cfb.streams := cfb.streams - {name};
      return Ok(());
    }
  }

  /** What reading a stream gives when the medium does not fail. */
  function Contents(streams: map<StreamName, Bytes>, name: StreamName): Result<Bytes> {
    if name !in streams then Err(MissingStream("no such stream"))
    else if |streams[name]| > LEGACY_STREAM_READ_CAP then Err(StreamTooLarge(LEGACY_STREAM_READ_CAP))
    else Ok(streams[name])
  }
}
