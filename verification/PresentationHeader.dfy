/**
 The route from a presentation's edit atom to its encryption header, by offsets the file
 chooses: `user_edit_atom`, `crypt_session_container` and `presentation_encryption_header`
 in `binary_office.rs`.
 */
module PresentationHeader {
  import opened Errors
  import opened Octets
  import opened PersistDirectory

  const RT_USER_EDIT_ATOM: nat := 0x0FF5
  const RT_CRYPT_SESSION10_CONTAINER: nat := 0x2F14
  const USER_EDIT_ATOM_LEN_PLAIN: nat := 0x1C
  const USER_EDIT_ATOM_LEN_ENCRYPTED: nat := 0x20
  const ENCRYPTION_HEADER_STRUCTURE_MAX: nat := 12 + 1024 + 60

  /** `read_at`: exactly `len` bytes at a position, or nothing. */
  function ReadAt(src: Bytes, at: nat, len: nat): (r: Option<Bytes>)
    ensures r.Some? ==> |r.value| == len
  {
    if at + len > |src| then None else Some(src[at..at + len])
  }

  datatype RecordHeader = RecordHeader(verInstance: nat, recType: nat, recLen: nat)

  function HeaderAt(src: Bytes, at: nat): Option<RecordHeader> {
    match ReadAt(src, at, 8)
    case None => None
    case Some(b) => Some(RecordHeader(ReadLe16(b, 0).value, ReadLe16(b, 2).value, ReadLe32(b, 4).value))
  }

  datatype UserEditAtom = UserEditAtom(recLen: nat, offsetLastEdit: nat, offsetPersistDirectory: nat,
                                       sessionRef: Option<nat>)

  /** An atom with a session reference is exactly one of the longer length, which marks encryption. */
  function UserEditAtomAt(src: Bytes, at: nat): (r: Option<UserEditAtom>)
    ensures r.Some? ==> r.value.recLen == USER_EDIT_ATOM_LEN_PLAIN || r.value.recLen == USER_EDIT_ATOM_LEN_ENCRYPTED
    ensures r.Some? ==> (r.value.sessionRef.Some? <==> r.value.recLen == USER_EDIT_ATOM_LEN_ENCRYPTED)
  {
    match HeaderAt(src, at)
    case None => None
    case Some(rh) =>
      if rh.verInstance != 0 || rh.recType != RT_USER_EDIT_ATOM then None
      else if rh.recLen != USER_EDIT_ATOM_LEN_PLAIN && rh.recLen != USER_EDIT_ATOM_LEN_ENCRYPTED then None
      else
        match ReadAt(src, at + 8, rh.recLen)
        case None => None
        case Some(body) =>
          Some(UserEditAtom(rh.recLen, ReadLe32(body, 8).value, ReadLe32(body, 12).value,
                            if rh.recLen == USER_EDIT_ATOM_LEN_ENCRYPTED then ReadLe32(body, 0x1C) else None))
  }

  function CryptSessionContainerAt(src: Bytes, at: nat): (r: Option<Bytes>)
    ensures r.Some? ==> |r.value| <= ENCRYPTION_HEADER_STRUCTURE_MAX
  {
    match HeaderAt(src, at)
    case None => None
    case Some(rh) =>
      if rh.verInstance % 16 != 0xF || rh.recType != RT_CRYPT_SESSION10_CONTAINER then None
      else if rh.recLen > ENCRYPTION_HEADER_STRUCTURE_MAX then None
      else ReadAt(src, at + 8, rh.recLen)
  }

  function EncryptionHeader(src: Bytes, atom: UserEditAtom): Option<Bytes> {
    match atom.sessionRef
    case None => None
    case Some(id) =>
      match Directory(src, atom.offsetPersistDirectory)
      case None => None
      case Some(directory) => if id in directory then CryptSessionContainerAt(src, directory[id]) else None
  }

  /**
   The route, read off the bytes of the directory: whatever entries the atom's body writes
   out, the header is the container that the last of them to name the session points at.
   */
  lemma HeaderIsWhereTheLastEntryPoints(src: Bytes, atom: UserEditAtom, id: nat, es: seq<Entry>)
    requires atom.sessionRef == Some(id) && AllFormed(es) && Objects(es) <= PPT_PERSIST_OBJECTS_MAX
    requires BodyAt(src, atom.offsetPersistDirectory) == Some(WrittenAll(es))
    ensures EncryptionHeader(src, atom) ==
      match LastOffset(es, id)
      case None => None
      case Some(offset) => CryptSessionContainerAt(src, offset)
  {
    DirectoryInvertsTheWriter(src, atom.offsetPersistDirectory, es);
    LaterWins(map[], es, id);
  }

  /** Bytes past the ones read change nothing of what was found, at any step of the route. */
  lemma TruncationNeverMisleads(part: Bytes, whole: Bytes, at: nat, atom: UserEditAtom)
    requires part <= whole
    ensures UserEditAtomAt(part, at).Some? ==> UserEditAtomAt(whole, at) == UserEditAtomAt(part, at)
    ensures EncryptionHeader(part, atom).Some? ==> EncryptionHeader(whole, atom) == EncryptionHeader(part, atom)
  {
    HeaderInPrefix(part, whole, at);
    SliceInPrefix(part, whole, at + 8, 0x1C);
    SliceInPrefix(part, whole, at + 8, 0x20);
    if EncryptionHeader(part, atom).Some? {
      BodyInPrefix(part, whole, atom.offsetPersistDirectory);
      ContainerInPrefix(part, whole, Directory(part, atom.offsetPersistDirectory).value[atom.sessionRef.value]);
    }
  }

  lemma SliceInPrefix(part: Bytes, whole: Bytes, at: nat, len: nat)
    requires part <= whole
    ensures ReadAt(part, at, len).Some? ==> ReadAt(whole, at, len) == ReadAt(part, at, len)
  {
    if ReadAt(part, at, len).Some? {
      assert part[at..at + len] == whole[at..at + len];
    }
  }

  lemma HeaderInPrefix(part: Bytes, whole: Bytes, at: nat)
    requires part <= whole
    ensures HeaderAt(part, at).Some? ==> HeaderAt(whole, at) == HeaderAt(part, at)
  {
    SliceInPrefix(part, whole, at, 8);
  }

  lemma BodyInPrefix(part: Bytes, whole: Bytes, at: nat)
    requires part <= whole
    ensures BodyAt(part, at).Some? ==> BodyAt(whole, at) == BodyAt(part, at)
  {
    if BodyAt(part, at).Some? {
      var len := ReadLe32(part, at + 4).value;
      assert part[at + 8..at + 8 + len] == whole[at + 8..at + 8 + len];
    }
  }

  lemma ContainerInPrefix(part: Bytes, whole: Bytes, at: nat)
    requires part <= whole
    ensures CryptSessionContainerAt(part, at).Some? ==>
      CryptSessionContainerAt(whole, at) == CryptSessionContainerAt(part, at)
  {
    if CryptSessionContainerAt(part, at).Some? {
      HeaderInPrefix(part, whole, at);
      SliceInPrefix(part, whole, at + 8, HeaderAt(part, at).value.recLen);
    }
  }
}
