/**
 The whole route to a presentation's encryption header, read off the bytes of the stream:
 sections 2.3.3 to 2.3.7 of [MS-PPT].
 */
module PresentationRoute {
  import opened Errors
  import opened Octets
  import opened PersistDirectory
  import opened PresentationHeader

  /** A number below 2^32 stands at an offset, the low byte first. */
  predicate NumberAt(src: Bytes, at: nat, n: nat) {
    at + 4 <= |src| && n < 0x1_0000_0000 && src[at..at + 4] == Counter(n)
  }

  lemma NumberIsRead(src: Bytes, at: nat, n: nat)
    ensures NumberAt(src, at, n) <==> ReadLe32(src, at) == Some(n)
  {
    FourBytes(n);
    if NumberAt(src, at, n) {
      ReadBack32(src, at, n);
    }
    if ReadLe32(src, at) == Some(n) {
      WriteBack32(src, at);
    }
  }

  /** A record's version and instance, its type and its length. */
  predicate HeaderLies(src: Bytes, at: nat, ver: nat, kind: nat, len: nat) {
    && at + 8 <= |src| && ver < 0x1_0000 && kind < 0x1_0000
    && src[at..at + 4] == [ver % 256, ver / 256, kind % 256, kind / 256] && NumberAt(src, at + 4, len)
  }

  lemma HeaderIsRead(src: Bytes, at: nat, ver: nat, kind: nat, len: nat)
    ensures HeaderLies(src, at, ver, kind, len) <==> HeaderAt(src, at) == Some(RecordHeader(ver, kind, len))
  {
    if at + 8 <= |src| {
      var b := src[at..at + 8];
      assert src[at..at + 4] == [b[0], b[1], b[2], b[3]];
      NumberIsRead(src, at + 4, len);
      assert ReadLe32(b, 4) == ReadLe32(src, at + 4);
    }
  }

  // ----- the edit atom -----

  /** The fields of section 2.3.3, at their offsets behind the record header. */
  predicate AtomAt(src: Bytes, at: nat, a: UserEditAtom) {
    && a.recLen in {0x1C, 0x20} && HeaderLies(src, at, 0, 0x0FF5, a.recLen) && at + 8 + a.recLen <= |src|
    && NumberAt(src, at + 16, a.offsetLastEdit) && NumberAt(src, at + 20, a.offsetPersistDirectory)
    && (a.sessionRef.Some? <==> a.recLen == 0x20)
    && (a.sessionRef.Some? ==> NumberAt(src, at + 36, a.sessionRef.value))
  }

  /** An atom is read exactly where one lies, field by field. */
  lemma AtomIsRead(src: Bytes, at: nat, a: UserEditAtom)
    ensures UserEditAtomAt(src, at) == Some(a) <==> AtomAt(src, at, a)
  {
    HeaderIsRead(src, at, 0, 0x0FF5, a.recLen);
    NumberIsRead(src, at + 16, a.offsetLastEdit);
    NumberIsRead(src, at + 20, a.offsetPersistDirectory);
    if a.sessionRef.Some? {
      NumberIsRead(src, at + 36, a.sessionRef.value);
    }
    if at + 8 + a.recLen <= |src| {
      InBody(src, at, a.recLen);
    }
  }

  lemma InBody(src: Bytes, at: nat, len: nat)
    requires at + 8 + len <= |src|
    ensures len >= 0x1C ==>
      var body := src[at + 8..at + 8 + len];
      && ReadLe32(body, 8) == ReadLe32(src, at + 16) && ReadLe32(body, 12) == ReadLe32(src, at + 20)
      && (len >= 0x20 ==> ReadLe32(body, 0x1C) == ReadLe32(src, at + 36))
  {
  }

  /** A written atom is read back, wherever it lies and whatever its other fields hold. */
  lemma WrittenAtomIsRead(before: Bytes, a: UserEditAtom, eight: Bytes, twelve: Bytes, after: Bytes)
    requires |eight| == 8 && |twelve| == 12
    requires a.recLen == (if a.sessionRef.Some? then 0x20 else 0x1C)
    requires a.offsetLastEdit < U32_LIMIT && a.offsetPersistDirectory < U32_LIMIT
    requires a.sessionRef.Some? ==> a.sessionRef.value < U32_LIMIT
    ensures UserEditAtomAt(before + WrittenAtom(a, eight, twelve) + after, |before|) == Some(a)
  {
    var src, at := before + WrittenAtom(a, eight, twelve) + after, |before|;
    var w := WrittenAtom(a, eight, twelve);
    forall i | 0 <= i < |w|
      ensures src[at + i] == w[i]
    {
    }
    assert src[at..at + 4] == w[..4] && src[at + 4..at + 8] == w[4..8];
    assert src[at + 16..at + 20] == w[16..20] && src[at + 20..at + 24] == w[20..24];
    assert a.sessionRef.Some? ==> src[at + 36..at + 40] == w[36..40];
    AtomIsRead(src, at, a);
  }

  function WrittenAtom(a: UserEditAtom, eight: Bytes, twelve: Bytes): (w: Bytes)
    requires |eight| == 8 && |twelve| == 12
    ensures |w| == if a.sessionRef.Some? then 40 else 36
    ensures w[..4] == [0, 0, 0xF5, 0x0F] && w[4..8] == Counter(a.recLen)
    ensures w[16..20] == Counter(a.offsetLastEdit) && w[20..24] == Counter(a.offsetPersistDirectory)
    ensures a.sessionRef.Some? ==> w[36..40] == Counter(a.sessionRef.value)
  {
    [0, 0, 0xF5, 0x0F] + Counter(a.recLen) + eight + Counter(a.offsetLastEdit) + Counter(a.offsetPersistDirectory)
    + twelve + if a.sessionRef.Some? then Counter(a.sessionRef.value) else []
  }

  // ----- the session container -----

  /** Low nibble 15, type 0x2F14, and the structure behind the header: section 2.3.7. */
  predicate ContainerAt(src: Bytes, at: nat, ver: nat, data: Bytes) {
    && ver % 16 == 15 && HeaderLies(src, at, ver, 0x2F14, |data|) && |data| <= 1096
    && at + 8 + |data| <= |src| && src[at + 8..at + 8 + |data|] == data
  }

  lemma ContainerIsRead(src: Bytes, at: nat, data: Bytes)
    ensures CryptSessionContainerAt(src, at) == Some(data) <==> exists ver :: ContainerAt(src, at, ver, data)
  {
    if CryptSessionContainerAt(src, at) == Some(data) {
      var rh := HeaderAt(src, at).value;
      HeaderIsRead(src, at, rh.verInstance, 0x2F14, |data|);
      assert ContainerAt(src, at, rh.verInstance, data);
    }
    forall ver | ContainerAt(src, at, ver, data)
      ensures CryptSessionContainerAt(src, at) == Some(data)
    {
      HeaderIsRead(src, at, ver, 0x2F14, |data|);
    }
  }

  // ----- the persist directory -----

  /** Type 0x1772, eight mebibytes at most, and the entries behind the header: section 2.3.4. */
  predicate DirectoryAt(src: Bytes, at: nat, body: Bytes) {
    && HeaderLies(src, at, 0, 0x1772, |body|) && |body| <= 0x80_0000
    && at + 8 + |body| <= |src| && src[at + 8..at + 8 + |body|] == body
  }

  lemma BodyIsRead(src: Bytes, at: nat, body: Bytes)
    ensures BodyAt(src, at) == Some(body) <==> DirectoryAt(src, at, body)
  {
    HeaderIsRead(src, at, 0, 0x1772, |body|);
    if at + 8 <= |src| {
      var b := src[at..at + 8];
      assert ReadLe16(b, 0) == ReadLe16(src, at) && ReadLe16(b, 2) == ReadLe16(src, at + 2);
      assert ReadLe32(b, 4) == ReadLe32(src, at + 4);
    }
  }

  /** An entry: twenty bits of identifier, twelve of count, and an offset for each. */
  lemma {:induction false} EntryByBytes(offsets: seq<nat>, i: nat)
    requires i < |offsets|
    ensures Words(offsets)[4 * i..4 * i + 4] == Counter(offsets[i])
    decreases |offsets|
  {
    var n := |offsets| - 1;
    var head, tail := Words(offsets[..n]), Le32(offsets[n]);
    FourBytes(offsets[n]);
    if i < n {
      EntryByBytes(offsets[..n], i);
      assert (head + tail)[4 * i..4 * i + 4] == head[4 * i..4 * i + 4];
    } else {
      assert (head + tail)[4 * n..4 * n + 4] == tail;
    }
  }

  lemma WordByBytes(e: Entry)
    ensures e.Written()[..4] == Counter(e.firstId + 0x10_0000 * |e.offsets|) && e.Written()[4..] == Words(e.offsets)
  {
    FourBytes(e.firstId + 0x10_0000 * |e.offsets|);
  }

  // ----- the route -----

  /** The bytes that lead from an atom to a header: the directory it names, and the container that names. */
  ghost predicate Leads(src: Bytes, at: nat, atom: UserEditAtom, es: seq<Entry>, offset: nat, data: Bytes) {
    && AtomAt(src, at, atom) && atom.sessionRef.Some?
    && AllFormed(es) && Objects(es) <= 0x10_0000 && DirectoryAt(src, atom.offsetPersistDirectory, WrittenAll(es))
    && LastOffset(es, atom.sessionRef.value) == Some(offset)
    && exists ver :: ContainerAt(src, offset, ver, data)
  }

  /** From an offset of a stream on its own. */
  function Route(src: Bytes, at: nat): Option<Bytes> {
    match UserEditAtomAt(src, at)
    case None => None
    case Some(atom) => EncryptionHeader(src, atom)
  }

  lemma RouteIsTheBytes(src: Bytes, at: nat, atom: UserEditAtom, es: seq<Entry>, offset: nat, data: Bytes)
    requires Leads(src, at, atom, es, offset, data)
    ensures Route(src, at) == Some(data)
  {
    AtomIsRead(src, at, atom);
    BodyIsRead(src, atom.offsetPersistDirectory, WrittenAll(es));
    ContainerIsRead(src, offset, data);
    HeaderIsWhereTheLastEntryPoints(src, atom, atom.sessionRef.value, es);
  }

  /** A header is found from an offset exactly when the bytes lead from there to it. */
  lemma HeaderExactlyWhereTheBytesLead(src: Bytes, at: nat, data: Bytes)
    ensures Route(src, at) == Some(data) <==> exists atom, es, offset :: Leads(src, at, atom, es, offset, data)
  {
    if Route(src, at) == Some(data) {
      var atom := UserEditAtomAt(src, at).value;
      var es, offset := BytesLead(src, at, atom, data);
    }
    forall atom, es, offset | Leads(src, at, atom, es, offset, data)
      ensures Route(src, at) == Some(data)
    {
      RouteIsTheBytes(src, at, atom, es, offset, data);
    }
  }

  lemma BytesLead(src: Bytes, at: nat, atom: UserEditAtom, data: Bytes) returns (es: seq<Entry>, offset: nat)
    requires UserEditAtomAt(src, at) == Some(atom) && EncryptionHeader(src, atom) == Some(data)
    ensures Leads(src, at, atom, es, offset, data)
  {
    AtomIsRead(src, at, atom);
    var dir, id := atom.offsetPersistDirectory, atom.sessionRef.value;
    DirectoryInvertsTheWriter(src, dir, []);
    es := EntriesFrom(BodyAt(src, dir).value, 0, 0).value;
    BodyIsRead(src, dir, WrittenAll(es));
    HeaderIsWhereTheLastEntryPoints(src, atom, id, es);
    offset := LastOffset(es, id).value;
    ContainerIsRead(src, offset, data);
  }
}
