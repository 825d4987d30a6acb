/** Decryption of an agile package: `agile.rs`. */
module Agile {
  import opened Errors
  import opened Octets
  import opened Crypto
  import opened BlockKeys
  import opened EncryptParams
  import opened EncryptionInfo
  import opened AgileParser
  import opened Streams
  import opened Segments
  import opened Integrity

  // ----- password, session key, policy -----

  function PasswordBlobIv(a: AgileParams): (iv: Bytes)
    ensures |iv| == AES_BLOCK
  {
    FitIv(a.innerSalt, AES_BLOCK)
  }

  /** A password-encryptor blob under the key its block key derives: section 2.3.4.13 of [MS-OFFCRYPTO]. */
  function BlobPlain(p: Crypto, a: AgileParams, hFinal: Bytes, blockKey: Bytes, blob: Bytes): Bytes {
    p.decrypt(Take(p.digest(a.passwordHash, hFinal + blockKey), a.keyBits / 8), FitIv(a.innerSalt, 16), blob)
  }

  /** The stored hash is that of the stored input without its padding, in blobs of the lengths they should have. */
  predicate VerifierAgrees(p: Crypto, a: AgileParams, hFinal: Bytes) {
    var input, value := a.encryptedVerifierHashInput, a.encryptedVerifierHashValue;
    && |input| == RoundUp(|a.innerSalt|) && |value| == RoundUp(a.passwordHash.DigestLen())
    && Take(BlobPlain(p, a, hFinal, BLOCK_VERIFIER_HASH, value), a.passwordHash.DigestLen())
      == p.digest(a.passwordHash, Take(BlobPlain(p, a, hFinal, BLOCK_VERIFIER_INPUT, input), |a.innerSalt|))
  }

  function VerifyPassword(p: Crypto, a: AgileParams, hFinal: Bytes): (r: Result<()>)
    ensures a.Screened() && r.Err? ==> !r.error.Internal()
    ensures r.Ok? ==> a.passwordHash.CanCarryKeyBits(a.keyBits)
    ensures a.Screened() ==> (r.Ok? <==> VerifierAgrees(p, a, hFinal))
  {
    var hash := a.passwordHash;
    var inputLen := RoundUp(a.passwordSaltSize);
    var valueLen := RoundUp(hash.DigestLen());
    if |a.encryptedVerifierHashInput| != inputLen then
      Err(BadParameters(EncryptedVerifierHashInput, Disagrees(|a.encryptedVerifierHashInput|, inputLen)))
    else if |a.encryptedVerifierHashValue| != valueLen then
      Err(BadParameters(EncryptedVerifierHashValue, Disagrees(|a.encryptedVerifierHashValue|, valueLen)))
    else
      var inputKey :- DeriveBlockKey(p, hash, hFinal, BLOCK_VERIFIER_INPUT, a.keyBits);
      var input :- AesCbcDecrypt(p, a.encryptedVerifierHashInput, inputKey, PasswordBlobIv(a));
      var valueKey := DeriveBlockKey(p, hash, hFinal, BLOCK_VERIFIER_HASH, a.keyBits).value;
      var value := AesCbcDecrypt(p, a.encryptedVerifierHashValue, valueKey, PasswordBlobIv(a)).value;
      if p.digest(hash, input[..a.passwordSaltSize]) != value[..hash.DigestLen()] then Err(WrongPassword)
      else Ok(())
  }

  /**
   Over screened parameters a password passes or it is the wrong one, except that a blob of
   the wrong length is refused as such; and it passes exactly when the verifier agrees.
   */
  lemma PasswordIsChecked(p: Crypto, a: AgileParams, hFinal: Bytes)
    requires a.Screened()
    ensures
      var input, value := a.encryptedVerifierHashInput, a.encryptedVerifierHashValue;
      var sized := |input| == RoundUp(|a.innerSalt|) && |value| == RoundUp(a.passwordHash.DigestLen());
      && (VerifyPassword(p, a, hFinal).Ok? <==> VerifierAgrees(p, a, hFinal))
      && (VerifyPassword(p, a, hFinal) == Err(WrongPassword) <==> sized && !VerifierAgrees(p, a, hFinal))
  {
  }

  function RecoverSessionKey(p: Crypto, a: AgileParams, password: Bytes): (r: Result<Bytes>)
    ensures a.Screened() && r.Err? ==> !r.error.Internal()
    ensures a.Screened() && r.Ok? ==> |r.value| == a.keyDataKeyBits / 8 && AesKey(r.value)
  {
    var hFinal := SpinHash(p, a.passwordHash, password, a.innerSalt, a.spinCount);
    var _ :- VerifyPassword(p, a, hFinal);
    var key := DeriveBlockKey(p, a.passwordHash, hFinal, BLOCK_KEY_VALUE, a.keyBits).value;
    var wrapped :- AesCbcDecrypt(p, a.encryptedKeyValue, key, PasswordBlobIv(a));
    Ok(if |wrapped| <= a.keyDataKeyBits / 8 then wrapped else wrapped[..a.keyDataKeyBits / 8])
  }

  function CheckIntegrity(p: Crypto, a: AgileParams, sessionKey: Bytes, policy: IntegrityPolicy)
    : (r: Result<(IntegrityOutcome, Option<IntegrityCheck>)>)
    ensures r == Err(IntegrityElementMissing) <==>
      a.dataIntegrity.None? && (policy == Required || policy == RequireWhereDefined)
    ensures r.Ok? ==> (r.value.0 == Verified <==> r.value.1.Some?)
    ensures r.Ok? ==> (r.value.0 == Verified <==> a.dataIntegrity.Some? && policy != Skip)
    ensures r.Ok? ==> (r.value.0 == NotDeclared <==> a.dataIntegrity.None?)
    ensures r.Ok? && r.value.1.Some? ==> r.value.1.value.hash == a.keyDataHash
    ensures r.Err? && AesKey(sessionKey) ==> !r.error.Internal()
  {
    match a.dataIntegrity
    case None =>
      if policy == Required || policy == RequireWhereDefined then Err(IntegrityElementMissing)
      else Ok((NotDeclared, None))
    case Some(di) =>
      if policy == Skip then Ok((Skipped, None))
      else
        var hashSize :- Require(a.keyDataHashSize, KeyDataHashSize);
        var material := IntegrityMaterial(a.outerSalt, AES_BLOCK, hashSize, a.keyDataHash, di.encryptedHmacKey,
                                          di.encryptedHmacValue);
        var check :- NewCheck(p, sessionKey, material);
        Ok((Verified, Some(check)))
  }

  // ----- what a decrypt answers, as a function of the stream -----

  /** The stream's prefix against its length and the key against `<keyData>`: the declared size. */
  function ScreenPackage(key: Bytes, a: AgileParams, package: Bytes): (r: Result<nat>)
    ensures r.Ok? ==>
      |package| >= 8 && r.value == FromLe64(package[..8]) <= |package| - 8 && |key| == a.keyDataKeyBits / 8
    ensures |key| == a.keyDataKeyBits / 8 && r.Err? ==> !r.error.Internal()
  {
    if |package| < 8 then Err(MissingStream("EncryptedPackage too short"))
    else if |key| != a.keyDataKeyBits / 8 then
      Err(BadParameters(SessionKey, Disagrees(|key|, a.keyDataKeyBits / 8)))
    else
      var declared := FromLe64(package[..8]);
      if declared > |package| - 8 then
        Err(BadParameters(EncryptedPackageSize, OutOfRange(declared, 0, |package| - 8)))
      else
        Ok(declared)
  }

  function DecryptPackage(p: Crypto, key: Bytes, a: AgileParams, package: Bytes): (r: Result<Bytes>)
    requires AesKey(key)
    ensures r.Ok? ==> |package| >= 8 && |r.value| == FromLe64(package[..8])
    ensures |key| == a.keyDataKeyBits / 8 && Cut(package).Count() <= U32_LIMIT ==>
      (r.Ok? <==> |package| >= 8 && FromLe64(package[..8]) <= |package| - 8)
    ensures |key| == a.keyDataKeyBits / 8 && Cut(package).Count() <= U32_LIMIT && r.Err? ==> !r.error.Internal()
  {
    var declared :- ScreenPackage(key, a, package);
    var body := package[8..];
    CutCoversContent(body);
    BodyNeedsNoMore(package);
    if Cut(body).Count() > U32_LIMIT then Err(InvariantViolated(CounterOverflow))
    else Ok(Take(DecryptPieces(p, a.keyDataHash, a.outerSalt, key, Cut(body)), declared))
  }

  datatype Opened = Opened(params: AgileParams, key: Bytes, outcome: IntegrityOutcome, check: Option<IntegrityCheck>)

  /** Everything settled before the package is touched. */
  function Open(p: Crypto, events: seq<XmlEvent>, password: Bytes, policy: IntegrityPolicy): (r: Result<Opened>)
    ensures r.Ok? ==>
      && r.value.params.Screened() && AesKey(r.value.key)
      && |r.value.key| == r.value.params.keyDataKeyBits / 8
      && (r.value.check.Some? ==> r.value.check.value.hash == r.value.params.keyDataHash)
    ensures r.Err? ==> !r.error.Internal()
  {
    ParseScreens(p, events);
    var a :- Parse(p, events);
    var key :- RecoverSessionKey(p, a, password);
    var decided :- CheckIntegrity(p, a, key, policy);
    Ok(Opened(a, key, decided.0, decided.1))
  }

  lemma ParseScreens(p: Crypto, events: seq<XmlEvent>)
    ensures var r := Parse(p, events);
      (r.Ok? ==> r.value.Screened()) && (r.Err? ==> !r.error.Internal())
  {
    RunFaults(p, INITIAL, events);
  }

  lemma {:induction false} RunFaults(p: Crypto, st: ParseState, events: seq<XmlEvent>)
    ensures var r := Run(p, st, events); r.Err? ==> !r.error.Internal()
    decreases |events|
  {
    if events != [] {
      var event := events[0];
      if event.Start? || event.Empty? {
        var opening := OpenElement(st, event.element, event.attrs);
        if opening.Ok? {
          AttrFaults(p, opening.value.0, event.element, event.attrs, 0);
        }
      }
      var next := Step(p, st, event);
      if next.Ok? {
        RunFaults(p, next.value, events[1..]);
      }
    }
  }

  lemma {:induction false} AttrFaults(p: Crypto, st: ParseState, element: Element, attrs: seq<Attr>, k: nat)
    requires k <= |attrs|
    ensures var r := AttrsFrom(p, st, element, attrs, k); r.Err? ==> !r.error.Internal()
    decreases |attrs| - k
  {
    if k < |attrs| {
      var next := AttrStep(p, st, element, attrs[k]);
      if next.Ok? {
        AttrFaults(p, next.value, element, attrs, k + 1);
      }
    }
  }

  /** The tag first, over the whole stream; then the package. */
  function DecryptOpened(p: Crypto, o: Opened, package: Bytes): (r: Result<Bytes>)
    requires AesKey(o.key)
    ensures |o.key| == o.params.keyDataKeyBits / 8 && Cut(package).Count() <= U32_LIMIT && r.Err? ==>
      !r.error.Internal()
  {
    if o.check.Some? && !o.check.value.Accepts(p, package) then Err(IntegrityCheckFailed)
    else DecryptPackage(p, o.key, o.params, package)
  }

  function Decrypt(p: Crypto, events: seq<XmlEvent>, package: Bytes, password: Bytes, policy: IntegrityPolicy)
    : Result<(Bytes, IntegrityOutcome)>
  {
    var o :- Open(p, events, password, policy);
    var plain :- DecryptOpened(p, o, package);
    Ok((plain, o.outcome))
  }

  /**
   No document, password, policy or package of at most 2^32 segments makes a decrypt
   report a fault of its own.
   */
  lemma NoInternalFault(p: Crypto, events: seq<XmlEvent>, package: Bytes, password: Bytes, policy: IntegrityPolicy)
    requires Cut(package).Count() <= U32_LIMIT
    ensures var r := Decrypt(p, events, package, password, policy); r.Err? ==> !r.error.Internal()
  {
  }

  // ----- what a decrypt takes from a reader, as a function of it -----

  /** To the reader's end or a failure, a segment's length at a time. */
  function WholeRead(s: ReaderState): (d: Delivery)
    decreases |s.turns|, |s.Rest()|
  {
    var d := Delivered(s, SEGMENT);
    if d.failed || d.bytes == [] then d else WholeRead(d.after).Behind(d.bytes)
  }

  /** The declared size is eight bytes. */
  const HEAD_LEN: nat := 8

  /** The prefix, how much may follow it, and the reader behind it. */
  datatype Head = Head(size: Bytes, dataLen: nat, after: ReaderState)

  /** The stream measured, its prefix read, and both screened. */
  function HeadRead(key: Bytes, a: AgileParams, s: ReaderState): (r: Result<Head>)
    ensures r.Ok? ==>
      && |r.value.size| == 8 && FromLe64(r.value.size) <= r.value.dataLen && |key| == a.keyDataKeyBits / 8
    ensures |key| == a.keyDataKeyBits / 8 && r.Err? ==> !r.error.Internal()
  {
    if |s.content| < 8 then Err(MissingStream("EncryptedPackage too short"))
    else
      var d := Delivered(s.Start(), HEAD_LEN);
      if d.failed then Err(Io(Failed))
      else if |d.bytes| < 8 then Err(MissingStream("EncryptedPackage too short"))
      else if |key| != a.keyDataKeyBits / 8 then
        Err(BadParameters(SessionKey, Disagrees(|key|, a.keyDataKeyBits / 8)))
      else
        var declared, dataLen := FromLe64(d.bytes), |s.content| - 8;
        if declared > dataLen then
          Err(BadParameters(EncryptedPackageSize, OutOfRange(declared, 0, dataLen)))
        else
          Ok(Head(d.bytes, dataLen, d.after))
  }

  /** What a decrypt takes: the first pass if there is a tag, the prefix, and the pieces of the second. */
  datatype Taken = Taken(first: Bytes, size: Bytes, pieces: Pieces) {

    /** What the second pass read. */
    function Second(): Bytes {
      size + pieces.Joined()
    }
  }

  /** The second pass behind its prefix, or the error that ends it. */
  function BodyTaken(p: Crypto, o: Opened, head: Head, first: Bytes): (r: Result<Taken>)
    ensures r.Ok? ==>
      && r.value.first == first && r.value.size == head.size && Division(r.value.pieces)
      && (o.check.Some? ==> o.check.value.Accepts(p, r.value.Second()))
    ensures r.Err? && r.error.Internal() ==> r.error == InvariantViolated(CounterOverflow)
  {
    var all := SectionsOf(head.after, head.dataLen, Nothing);
    SectionsGrow(head.after, head.dataLen, Nothing, all);
    var taken := Taken(first, head.size, all.pieces);
    if all.pieces.Count() > U32_LIMIT then Err(InvariantViolated(CounterOverflow))
    else if all.failed then Err(Io(Failed))
    else if o.check.Some? && !o.check.value.Accepts(p, taken.Second()) then Err(IntegrityCheckFailed)
    else Ok(taken)
  }

  /** The second pass. */
  function SecondTaken(p: Crypto, o: Opened, s: ReaderState, first: Bytes): (r: Result<Taken>)
    ensures r.Ok? ==>
      && r.value.first == first && |r.value.size| == 8 && Division(r.value.pieces)
      && (o.check.Some? ==> o.check.value.Accepts(p, r.value.Second()))
    ensures |o.key| == o.params.keyDataKeyBits / 8 && r.Err? && r.error.Internal() ==>
      r.error == InvariantViolated(CounterOverflow)
  {
    var head :- HeadRead(o.key, o.params, s);
    BodyTaken(p, o, head, first)
  }

  /** The first pass, and where it leaves the reader. */
  function FirstTaken(p: Crypto, o: Opened, s: ReaderState): (r: Result<(Bytes, ReaderState)>)
    ensures r.Ok? && o.check.Some? ==> o.check.value.Accepts(p, r.value.0)
    ensures r.Err? ==> r.error == Io(Failed) || r.error == IntegrityCheckFailed
  {
    if o.check.None? then Ok(([], s))
    else
      var one := WholeRead(s.Start());
      if one.failed then Err(Io(Failed))
      else if !o.check.value.Accepts(p, one.bytes) then Err(IntegrityCheckFailed)
      else Ok((one.bytes, one.after))
  }

  /** Both passes. */
  function PackageTaken(p: Crypto, o: Opened, s: ReaderState): (r: Result<Taken>)
    ensures r.Ok? ==>
      && |r.value.size| == 8 && Division(r.value.pieces)
      && (o.check.Some? ==> o.check.value.Accepts(p, r.value.first) && o.check.value.Accepts(p, r.value.Second()))
    ensures |o.key| == o.params.keyDataKeyBits / 8 && r.Err? && r.error.Internal() ==>
      r.error == InvariantViolated(CounterOverflow)
  {
    var one :- FirstTaken(p, o, s);
    SecondTaken(p, o, one.1, one.0)
  }

  /** An error that comes before anything is decrypted. */
  predicate EndsEarly(p: Crypto, o: Opened, s: ReaderState) {
    var one := FirstTaken(p, o, s);
    one.Err? || HeadRead(o.key, o.params, one.value.1).Err?
  }

  // ----- a steady reader is taken to its content -----

  lemma {:induction false} SteadyWhole(s: ReaderState)
    requires s.Steady()
    ensures
      var d := WholeRead(s);
      !d.failed && d.bytes == s.Rest() && d.after.content == s.content && d.after.Steady()
    decreases |s.turns|, |s.Rest()|
  {
    var d := Delivered(s, SEGMENT);
    UnchangingDelivers(s, SEGMENT, Delivered(s, SEGMENT));
    if d.bytes == [] {
      assert d.bytes + d.after.Rest() == [];
    } else {
      SteadyWhole(d.after);
    }
  }

  /** The prefix of a content has been read, and the rest of it will be. */
  ghost predicate HeadOf(head: Head, content: Bytes) {
    && |content| >= 8 && head.size == content[..8] && head.dataLen == |content| - 8
    && head.after.Steady() && head.after.Rest() == content[8..]
  }

  lemma SteadyHead(key: Bytes, a: AgileParams, s: ReaderState)
    requires s.Steady()
    ensures
      var r, screened := HeadRead(key, a, s), ScreenPackage(key, a, s.content);
      if screened.Err? then r == Err(screened.error) else r.Ok? && HeadOf(r.value, s.content)
  {
    if |s.content| >= 8 {
      SteadyPrefix(s.Start(), Delivered(s.Start(), HEAD_LEN));
    }
  }

  lemma SteadyPrefix(s: ReaderState, d: Delivery)
    requires s.Steady() && s.pos == 0 && |s.content| >= 8 && d == Delivered(s, HEAD_LEN)
    ensures !d.failed && d.bytes == s.content[..8] && d.after.Steady() && d.after.Rest() == s.content[8..]
  {
    UnchangingDelivers(s, HEAD_LEN, Delivered(s, HEAD_LEN));
    assert |d.bytes| == 8;
    Ends(d.bytes, d.after.Rest());
  }

  /** Nothing but an error before anything is decrypted, or the package as the specification has it. */
  lemma SteadyTaken(p: Crypto, o: Opened, s: ReaderState)
    requires AesKey(o.key) && s.Steady() && Cut(s.content).Count() <= U32_LIMIT
    ensures
      var r := PackageTaken(p, o, s);
      match DecryptOpened(p, o, s.content)
      case Err(e) => r == Err(e) && EndsEarly(p, o, s)
      case Ok(plain) =>
        r.Ok? && plain == ReleasedBytes(p, o.key, o.params, r.value.pieces, FromLe64(r.value.size))
  {
    SteadyWhole(s.Start());
    var one := FirstTaken(p, o, s);
    if one.Ok? {
      SteadyHead(o.key, o.params, one.value.1);
      var head := HeadRead(o.key, o.params, one.value.1);
      if head.Ok? {
        SteadySecond(p, o, one.value.1, one.value.0);
      }
    }
  }

  lemma BodyDecrypts(p: Crypto, a: AgileParams, key: Bytes, stream: Bytes, body: Bytes, declared: nat)
    requires AesKey(key) && ScreenPackage(key, a, stream) == Ok(declared) && stream[8..] == body
    requires Cut(body).Count() <= U32_LIMIT
    ensures DecryptPackage(p, key, a, stream) ==
      Ok(Take(DecryptPieces(p, a.keyDataHash, a.outerSalt, key, Cut(body)), declared))
  {
  }

  lemma SteadySecond(p: Crypto, o: Opened, s: ReaderState, first: Bytes)
    requires AesKey(o.key) && s.Steady() && Cut(s.content).Count() <= U32_LIMIT
    requires ScreenPackage(o.key, o.params, s.content).Ok?
    requires o.check.Some? ==> o.check.value.Accepts(p, s.content)
    ensures
      var r := SecondTaken(p, o, s, first);
      && r.Ok? && DecryptPackage(p, o.key, o.params, s.content)
        == Ok(ReleasedBytes(p, o.key, o.params, r.value.pieces, FromLe64(r.value.size)))
  {
    SteadyHead(o.key, o.params, s);
    BodyNeedsNoMore(s.content);
    BodyDecrypts(p, o.params, o.key, s.content, s.content[8..], FromLe64(s.content[..8]));
    SteadyBody(p, o, HeadRead(o.key, o.params, s).value, first, s.content);
  }

  lemma SteadyBody(p: Crypto, o: Opened, head: Head, first: Bytes, content: Bytes)
    requires HeadOf(head, content) && Cut(content[8..]).Count() <= U32_LIMIT
    requires o.check.Some? ==> o.check.value.Accepts(p, content)
    ensures BodyTaken(p, o, head, first) == Ok(Taken(first, content[..8], Cut(content[8..])))
  {
    var body := content[8..];
    SteadyIsCut(head.after, head.dataLen);
    assert Take(body, head.dataLen) == body;
    CutCoversContent(body);
    assert content[..8] + body == content;
  }

  // ----- the streaming decrypt -----

  /** Pass 1: the whole stream into the HMAC, nothing out. */
  method HmacPass(p: Crypto, check: IntegrityCheck, package: ByteStream) returns (r: Result<()>, ghost read: Bytes)
    requires package.journal.Valid()
    modifies package, package.journal`consumed, package.journal`ends
    ensures
      var d := WholeRead(old(package.State()).Start());
      && read == d.bytes && package.State() == d.after
      && r == (if d.failed then Err(Io(Failed))
               else if check.Accepts(p, d.bytes) then Ok(()) else Err(IntegrityCheckFailed))
    ensures package.journal.Valid() && package.journal.consumed == old(package.journal.consumed) + read
    ensures r.Ok? ==> |package.journal.consumed| in package.journal.ends
  {
    package.SeekStart();
    var mac := new HmacState(check.hash, check.hmacKey);
    var chunk := new Byte[SEGMENT];
    ghost var consumed, d := package.journal.consumed, WholeRead(package.State());
    read := [];
    WholeBegins(package.State());
    while true
      invariant mac.hash == check.hash && mac.key == check.hmacKey && mac.fed == read
      invariant package.journal.Valid() && package.journal.consumed == consumed + read
      invariant WholeReading(d, read, package.State())
      decreases |package.turns|, |package.State().Rest()|
    {
      ghost var s, ends := package.State(), package.journal.ends;
      var n := ReadFull(package, chunk, SEGMENT);
      ghost var got := Delivered(s, SEGMENT);
      WholeGoesOn(d, read, s, got);
      Regroup(consumed, read, got.bytes);
      if n.Err? {
        return Err(n.error), d.bytes;
      }
      if n.value == 0 {
        break;
      }
      var piece := chunk[..n.value];
      assert piece == got.bytes;
      mac.Update(piece);
      read := read + piece;
    }
    r := Integrity.Finish(p, check, mac);
  }

  /** What is still to be read, behind what has been, makes up the whole. */
  ghost predicate WholeReading(d: Delivery, read: Bytes, s: ReaderState) {
    d == WholeRead(s).Behind(read)
  }

  lemma WholeBegins(s: ReaderState)
    ensures WholeReading(WholeRead(s), [], s)
  {
    assert [] + WholeRead(s).bytes == WholeRead(s).bytes;
  }

  lemma WholeGoesOn(d: Delivery, read: Bytes, s: ReaderState, got: Delivery)
    requires WholeReading(d, read, s) && got == Delivered(s, SEGMENT)
    ensures got.failed || got.bytes == [] ==> d == got.Behind(read)
    ensures got.bytes == [] ==> read + got.bytes == read
    ensures !got.failed && got.bytes != [] ==> WholeReading(d, read + got.bytes, got.after)
  {
    Regroup(read, got.bytes, WholeRead(got.after).bytes);
  }

  /** One filled slot: fed to the HMAC as stored, decrypted in place, and out up to `remaining`. */
  method ReleaseSegment(p: Crypto, a: AgileParams, key: Bytes, slot: array<Byte>, f: Filled, ghost index: nat,
                        verify: bool, mac: HmacState, sink: Sink, remaining: nat)
    returns (r: Result<nat>)
    requires AesKey(key) && f.len <= slot.Length && f.paddedLen == RoundUp(f.len) <= slot.Length
    requires slot[..f.paddedLen] == Pad(slot[..f.len]) && f.iv == SegmentIv(p, a.keyDataHash, a.outerSalt, index)
    modifies slot, mac, sink`contents, sink`room, sink.journal`written, sink.journal`firstOut
    ensures mac.fed == old(mac.fed) + if verify then old(slot[..f.len]) else []
    ensures r.Err? ==> r.error == Io(Failed)
    ensures old(sink.room.None?) ==> r.Ok? && sink.room.None?
    ensures r.Ok? ==> r.value == Min(remaining, f.len)
    ensures
      var plain := Take(DecryptPiece(p, a.keyDataHash, a.outerSalt, key, old(slot[..f.len]), index), remaining);
      r.Ok? ==> sink.contents == old(sink.contents) + plain && sink.journal.written == old(sink.journal.written) + plain
    ensures sink.journal.firstOut == old(sink.journal.firstOut)
      || (old(sink.journal.firstOut).None? && sink.journal.firstOut == Some(|sink.journal.consumed|))
  {
    ghost var piece := slot[..f.len];
    if verify {
      mac.Update(slot[..f.len]);
    }
    assert p.CipherLaws() && AesReady(key, f.iv, Pad(piece));
    var done := AesCbcDecryptInPlace(p, slot, f.paddedLen, key, f.iv);
    assert done.Ok?;  // the seam refuses nothing that gets this far
    var keep := Min(remaining, f.len);
    assert slot[..keep] == slot[..f.paddedLen][..keep];
    var _ :- sink.WriteAll(slot[..keep]);
    return Ok(keep);
  }

  /** Nothing went out since `before`, or the first of it after `consumed` bytes came in. */
  predicate OutAfter(firstOut: Option<nat>, before: Option<nat>, consumed: nat) {
    firstOut == before || (before.None? && firstOut.Some? && firstOut.value >= consumed)
  }

  /** Pass 2, up to the first segment: measure the stream, read its prefix, screen both. */
  method ReadPrefix(key: Bytes, a: AgileParams, package: ByteStream)
    returns (r: Result<nat>, prefix: Bytes, dataLen: nat)
    requires package.journal.Valid()
    modifies package, package.journal`consumed, package.journal`ends
    ensures package.journal.Valid() && package.journal.Since(old(package.journal.consumed), old(package.journal.ends))
    ensures
      var head := HeadRead(key, a, old(package.State()));
      && (head.Err? ==> r == Err(head.error))
      && (head.Ok? ==>
        && head.value == Head(prefix, dataLen, package.State()) && r == Ok(FromLe64(prefix))
        && package.journal.consumed == old(package.journal.consumed) + prefix)
  {
    prefix, dataLen := [], 0;
    ghost var content, d := package.content, Delivered(package.State().Start(), HEAD_LEN);
    var streamLen := package.SeekEnd();
    package.SeekStart();
    if streamLen < 8 {
      return Err(MissingStream("EncryptedPackage too short")), prefix, dataLen;
    }
    var got := Prefix(package, d);
    if got.Err? {
      return Err(got.error), prefix, dataLen;
    }
    if |got.value| < 8 {
      return Err(MissingStream("EncryptedPackage too short")), prefix, dataLen;
    }
    prefix := got.value;
    if |key| != a.keyDataKeyBits / 8 {
      return Err(BadParameters(SessionKey, Disagrees(|key|, a.keyDataKeyBits / 8))), prefix, dataLen;
    }
    var declared := FromLe64(prefix);
    dataLen := streamLen - 8;
    if declared > dataLen {
      return Err(BadParameters(EncryptedPackageSize, OutOfRange(declared, 0, dataLen))), prefix, dataLen;
    }
    return Ok(declared), prefix, dataLen;
  }

  method Prefix(package: ByteStream, ghost d: Delivery) returns (r: Result<Bytes>)
    requires package.journal.Valid() && d == Delivered(package.State(), HEAD_LEN)
    modifies package, package.journal`consumed, package.journal`ends
    ensures package.journal.Valid() && package.journal.Since(old(package.journal.consumed), old(package.journal.ends))
    ensures r == (if d.failed then Err(Io(Failed)) else Ok(d.bytes)) && package.State() == d.after
    ensures package.journal.consumed == old(package.journal.consumed) + d.bytes
  {
    var head := new Byte[HEAD_LEN];
    var got := ReadFull(package, head, HEAD_LEN);
    if got.Err? {
      return Err(got.error);
    }
    assert head[..got.value] == d.bytes;
    return Ok(head[..got.value]);
  }

  /**
   Pass 2: decrypt the stream into `sink`, feeding every stored byte to the HMAC again.
   `taken` is what it reads, whatever the reader does.
   */
  method DecryptPackageTo(p: Crypto, ghost o: Opened, key: Bytes, a: AgileParams, package: ByteStream, sink: Sink,
                          check: Option<IntegrityCheck>, ghost first: Bytes)
    returns (r: Result<()>, ghost taken: Taken)
    requires AesKey(key) && package.journal == sink.journal && package.journal.Valid()
    requires key == o.key && a == o.params && check == o.check
    requires check.Some? ==> check.value.hash == a.keyDataHash
    modifies package, sink, package.journal
    ensures taken.first == first && package.journal.Since(old(package.journal.consumed), old(package.journal.ends))
    ensures OutAfter(package.journal.firstOut, old(package.journal.firstOut), |old(package.journal.consumed)|)
    ensures r.Ok? ==>
      && SecondTaken(p, o, old(package.State()), first) == Ok(taken)
      && package.journal.consumed == old(package.journal.consumed) + taken.Second()
      && sink.contents == old(sink.contents) + ReleasedBytes(p, key, a, taken.pieces, FromLe64(taken.size))
      && |key| == a.keyDataKeyBits / 8 && taken.pieces.Count() <= U32_LIMIT
      && CutUnlessEnded(package.journal, taken.pieces)
    ensures r.Err? && r != Err(Io(Failed)) ==> SecondTaken(p, o, old(package.State()), first) == Err(r.error)
    ensures r.Err? && old(sink.room).None? ==> SecondTaken(p, o, old(package.State()), first) == Err(r.error)
    ensures HeadRead(key, a, old(package.State())).Err? ==> r.Err? && sink.contents == old(sink.contents)
  {
    ghost var consumed := package.journal.consumed;
    taken := Taken(first, [], Nothing);
    var screened, size, dataLen := ReadPrefix(key, a, package);
    if screened.Err? {
      return Err(screened.error), taken;
    }
    assert consumed <= package.journal.consumed;
    var mac := new HmacState(a.keyDataHash, if check.Some? then check.value.hmacKey else []);
    if check.Some? {
      mac.Update(size);
      assert mac.fed == size;
    }
    ghost var from := Origin(Stands(sink, mac), check.Some?, screened.value, dataLen,
                             SectionsOf(package.State(), dataLen, Nothing), sink.room.None?);
    SoFarBegins(p, key, a, from);
    ghost var pieces;
    r, pieces := ReleaseBody(p, key, a, package, sink, check.Some?, mac, screened.value, dataLen, from);
    taken := Taken(first, size, pieces);
    if r.Err? {
      return;
    }
    Regroup(consumed, size, pieces.Joined());
    CutIsUnlessEnded(package.journal, |from.at.consumed|, pieces, dataLen);
    if check.Some? {
      r := Integrity.Finish(p, check.value, mac);
    }
  }

  /**
   What one turn comes to, with what the reader gave it: a failure, the end, a counter that
   has run out, or the stored bytes to the HMAC and the decrypted ones, up to `remaining`,
   to the writer.
   */
  ghost predicate Turned(p: Crypto, key: Bytes, hash: HashAlgorithm, salt: Bytes, index: nat, d: Delivery, cap: nat,
                         verify: bool, remaining: nat, a: Standing, b: Standing, open: bool, r: Result<Option<nat>>)
    requires AesKey(key)
  {
    && b.consumed == a.consumed + d.bytes && EndsAt(a.ends, b.ends, |b.consumed|, d.Ended(cap))
    && OutAfter(b.firstOut, a.firstOut, |a.consumed|)
    && (d.failed ==> r == Err(Io(Failed)))
    && (!d.failed && d.bytes == [] ==> r == Ok(None) && b.out == a.out && b.fed == a.fed)
    && (!d.failed && d.bytes != [] && index == U32_LIMIT ==> r == Err(InvariantViolated(CounterOverflow)))
    && (!d.failed && d.bytes != [] && index < U32_LIMIT ==>
      if r.Err? then r.error == Io(Failed) && !open
      else
        && r == Ok(Some(|d.bytes|)) && b.fed == a.fed + (if verify then d.bytes else [])
        && b.out == a.out + Take(DecryptPiece(p, hash, salt, key, d.bytes, index), remaining))
  }

  /** One turn of the segment loop: the next segment filled, hashed, decrypted, released. */
  method ReleaseNext(p: Crypto, key: Bytes, a: AgileParams, package: ByteStream, sink: Sink, segmenter: Segmenter,
                     slot: array<Byte>, verify: bool, mac: HmacState, remaining: nat, limit: nat)
    returns (r: Result<Option<nat>>, ghost d: Delivery)
    requires AesKey(key) && package.journal == sink.journal && slot.Length == SEGMENT && segmenter.Valid()
    requires segmenter.hash == a.keyDataHash && segmenter.salt == a.outerSalt && segmenter.blockSize == AES_BLOCK
    modifies package, sink, package.journal, segmenter, slot, mac
    ensures d == Delivered(old(package.State()), Min(SEGMENT, limit)) && package.State() == d.after
    ensures segmenter.Valid()
    ensures r.Ok? ==> segmenter.Used() == old(segmenter.Used()) + if r.value.Some? then 1 else 0
    ensures Turned(p, key, a.keyDataHash, a.outerSalt, old(segmenter.Used()), d, Min(SEGMENT, limit), verify, remaining,
                   old(Stands(sink, mac)), Stands(sink, mac), old(sink.room).None?, r)
    ensures old(sink.room).None? ==> sink.room.None?
  {
    d := Delivered(package.State(), Min(SEGMENT, limit));
    ghost var index := segmenter.Used();
    var next := segmenter.Fill(p, package, limit, slot);
    if next.Err? {
      return Err(next.error), d;
    }
    if next.value.None? {
      return Ok(None), d;
    }
    var f := next.value.value;
    var kept := ReleaseSegment(p, a, key, slot, f, index, verify, mac, sink, remaining);
    if kept.Err? {
      return Err(kept.error), d;
    }
    return Ok(Some(f.len)), d;
  }

  /** The decryption of the pieces up to the declared size, or to where they stop. */
  ghost function ReleasedBytes(p: Crypto, key: Bytes, a: AgileParams, pieces: Pieces, declared: nat): (out: Bytes)
    requires AesKey(key)
    ensures |out| == Min(declared, |pieces.Joined()|)
  {
    Take(DecryptPieces(p, a.keyDataHash, a.outerSalt, key, pieces), declared)
  }

  /** The segment loop, from where everything stands to the reader's end. */
  method ReleaseBody(p: Crypto, key: Bytes, a: AgileParams, package: ByteStream, sink: Sink, verify: bool,
                     mac: HmacState, declared: nat, dataLen: nat, ghost from: Origin)
    returns (r: Result<()>, ghost pieces: Pieces)
    requires AesKey(key) && package.journal == sink.journal
    requires SoFar(p, key, a, from, Nothing, Stands(sink, mac)) && (from.open ==> sink.room.None?)
    requires from.verify == verify && from.declared == declared && from.len == dataLen
    requires Reading(package.State(), dataLen, Nothing, from.all)
    modifies package, sink, package.journal, mac
    ensures r.Ok? ==>
      && SoFar(p, key, a, from, pieces, Stands(sink, mac)) && pieces.Count() <= U32_LIMIT
      && from.all == Sections(pieces, false, package.State())
    ensures r.Err? ==> Stops(from.all, r.error, from.open)
    ensures from.at.consumed <= package.journal.consumed && from.at.ends <= package.journal.ends
    ensures OutAfter(package.journal.firstOut, from.at.firstOut, |from.at.consumed|)
  {
    var segmenter := new Segmenter(a.keyDataHash, a.outerSalt, AES_BLOCK);
    var slot := new Byte[SEGMENT];
    assert Releasing(p, key, a, sink, segmenter, mac, from, Nothing);
    r, pieces := ReleaseLoop(p, key, a, package, sink, segmenter, slot, verify, mac, from, declared, dataLen);
  }

  method ReleaseLoop(p: Crypto, key: Bytes, a: AgileParams, package: ByteStream, sink: Sink, segmenter: Segmenter,
                     slot: array<Byte>, verify: bool, mac: HmacState, ghost from: Origin, declared: nat, dataLen: nat)
    returns (r: Result<()>, ghost pieces: Pieces)
    requires AesKey(key) && package.journal == sink.journal && slot.Length == SEGMENT && from.verify == verify
    requires Releasing(p, key, a, sink, segmenter, mac, from, Nothing)
    requires Reading(package.State(), dataLen, Nothing, from.all) && from.declared == declared && from.len == dataLen
    modifies package, sink, package.journal, segmenter, slot, mac
    ensures r.Ok? ==>
      && SoFar(p, key, a, from, pieces, Stands(sink, mac)) && pieces.Count() <= U32_LIMIT
      && from.all == Sections(pieces, false, package.State())
    ensures r.Err? ==> Stops(from.all, r.error, from.open)
    ensures from.at.consumed <= package.journal.consumed && from.at.ends <= package.journal.ends
    ensures OutAfter(package.journal.firstOut, from.at.firstOut, |from.at.consumed|)
  {
    pieces := Nothing;
    var remaining, left := declared, dataLen;
    while true
      invariant Releasing(p, key, a, sink, segmenter, mac, from, pieces)
      invariant Reading(package.State(), left, pieces, from.all) && Budget(from, pieces, remaining, left)
      decreases left
    {
      ghost var more;
      var next;
      next, more, remaining, left := ReleaseTurn(p, key, a, package, sink, segmenter, slot, verify, mac, from, pieces,
                                                 remaining, left);
      if next.Err? {
        return Err(next.error), pieces;
      }
      if next.value.None? {
        break;
      }
      pieces := more;
    }
    return Ok(()), pieces;
  }

  /** What is still to be released and what may still be read. */
  ghost predicate Budget(from: Origin, pieces: Pieces, remaining: nat, left: nat) {
    var taken := |pieces.Joined()|;
    remaining == from.declared - Min(from.declared, taken) && left + taken == from.len
  }

  /** Where everything stood when the loop began, and what it is to do. */
  datatype Origin = Origin(at: Standing, verify: bool, declared: nat, len: nat, all: Sections, open: bool)

  /** Everything since the start is the pieces and their decryption, and nothing went out before. */
  ghost predicate SoFar(p: Crypto, key: Bytes, a: AgileParams, from: Origin, pieces: Pieces, now: Standing)
    requires AesKey(key)
  {
    var stored := pieces.Joined();
    && now.consumed == from.at.consumed + stored
    && now.fed == from.at.fed + (if from.verify then stored else [])
    && now.out == from.at.out + ReleasedBytes(p, key, a, pieces, from.declared)
    && OutAfter(now.firstOut, from.at.firstOut, |from.at.consumed|)
    && from.at.ends <= now.ends
    && CutByEnds(now.ends, |from.at.consumed|, |now.consumed|, pieces, from.len)
  }

  lemma SoFarBegins(p: Crypto, key: Bytes, a: AgileParams, from: Origin)
    requires AesKey(key) && forall e :: e in from.at.ends ==> e <= |from.at.consumed|
    ensures SoFar(p, key, a, from, Nothing, from.at)
  {
    var at := from.at;
    assert at.out + [] == at.out && at.fed + [] == at.fed && at.consumed + [] == at.consumed;
  }

  lemma TurnGoesOn(p: Crypto, key: Bytes, a: AgileParams, from: Origin, pieces: Pieces, left: nat, remaining: nat,
                   d: Delivery, was: Standing, now: Standing, open: bool, r: Result<Option<nat>>)
    requires AesKey(key) && SoFar(p, key, a, from, pieces, was) && r.Ok? && r.value.Some?
    requires Budget(from, pieces, remaining, left) && |d.bytes| <= Min(SEGMENT, left) && pieces.Count() <= U32_LIMIT
    requires Turned(p, key, a.keyDataHash, a.outerSalt, pieces.Count(), d, Min(SEGMENT, left), from.verify, remaining,
                    was, now, open, r)
    ensures SoFar(p, key, a, from, Then(pieces, d.bytes), now)
    ensures !d.failed && 0 < |d.bytes| == r.value.value
  {
    var stored, released := pieces.Joined(), ReleasedBytes(p, key, a, pieces, from.declared);
    ProgressGoesOn(p, key, a, pieces, d.bytes, stored, released, from.declared, remaining);
    Regroup(from.at.consumed, stored, d.bytes);
    if from.verify {
      Regroup(from.at.fed, stored, d.bytes);
    }
    Regroup(from.at.out, released,
            Take(DecryptPiece(p, a.keyDataHash, a.outerSalt, key, d.bytes, pieces.Count()), remaining));
    CutGoesOn(was.ends, now.ends, |from.at.consumed|, |was.consumed|, pieces, from.len, d.bytes, |now.consumed|,
              d.Ended(Min(SEGMENT, left)));
  }

  lemma TurnEnds(p: Crypto, key: Bytes, a: AgileParams, from: Origin, pieces: Pieces, left: nat, remaining: nat,
                 d: Delivery, was: Standing, now: Standing, open: bool, r: Result<Option<nat>>)
    requires AesKey(key) && SoFar(p, key, a, from, pieces, was) && r == Ok(None) && pieces.Count() <= U32_LIMIT
    requires Turned(p, key, a.keyDataHash, a.outerSalt, pieces.Count(), d, Min(SEGMENT, left), from.verify, remaining,
                    was, now, open, r)
    ensures SoFar(p, key, a, from, pieces, now) && !d.failed && d.bytes == []
  {
    assert was.consumed + d.bytes == was.consumed;
    EndAfterPieces(was.ends, now.ends, |from.at.consumed|, |was.consumed|, pieces, from.len,
                   d.Ended(Min(SEGMENT, left)));
  }

  lemma Grown(a: Bytes, b: Bytes, c: Bytes, now: Bytes)
    requires now == a + b + c
    ensures a <= now
  {
  }

  /** However a turn ends in an error, the journal has only grown and nothing went out too early. */
  lemma TurnStops(p: Crypto, key: Bytes, a: AgileParams, from: Origin, pieces: Pieces, s: ReaderState, left: nat,
                  remaining: nat, d: Delivery, was: Standing, now: Standing, open: bool, r: Result<Option<nat>>)
    requires AesKey(key) && SoFar(p, key, a, from, pieces, was) && r.Err? && (from.open ==> open)
    requires |pieces.Joined()| == from.len - left && pieces.Count() <= U32_LIMIT
    requires Reading(s, left, pieces, from.all) && d == Delivered(s, Min(SEGMENT, left))
    requires Turned(p, key, a.keyDataHash, a.outerSalt, pieces.Count(), d, Min(SEGMENT, left), from.verify, remaining,
                    was, now, open, r)
    ensures Stops(from.all, r.error, from.open) && from.at.consumed <= now.consumed && from.at.ends <= now.ends
    ensures OutAfter(now.firstOut, from.at.firstOut, |from.at.consumed|)
  {
    Grown(from.at.consumed, pieces.Joined(), d.bytes, now.consumed);
    if !d.failed && d.bytes != [] {
      var rest := left - |d.bytes|;
      var more := ReadOneMore(s, left, pieces, from.all, d, rest);
      SectionsGrow(d.after, rest, more, from.all);
    } else {
      ReadingGoesOn(s, left, pieces, from.all, d);
    }
  }

  /** The loop between two segments. */
  ghost predicate Releasing(p: Crypto, key: Bytes, a: AgileParams, sink: Sink, segmenter: Segmenter, mac: HmacState,
                            from: Origin, pieces: Pieces)
    requires AesKey(key)
    reads sink, sink.journal, segmenter, mac
  {
    && segmenter.Valid() && segmenter.Used() == pieces.Count() && |pieces.Joined()| <= from.len
    && segmenter.hash == a.keyDataHash && segmenter.salt == a.outerSalt && segmenter.blockSize == AES_BLOCK
    && SoFar(p, key, a, from, pieces, Stands(sink, mac)) && (from.open ==> sink.room.None?)
  }

  /** One turn of the loop, keeping that. */
  method ReleaseTurn(p: Crypto, key: Bytes, a: AgileParams, package: ByteStream, sink: Sink, segmenter: Segmenter,
                     slot: array<Byte>, verify: bool, mac: HmacState, ghost from: Origin, ghost pieces: Pieces,
                     remaining: nat, left: nat)
    returns (r: Result<Option<nat>>, ghost more: Pieces, toRelease: nat, rest: nat)
    requires AesKey(key) && package.journal == sink.journal && slot.Length == SEGMENT && from.verify == verify
    requires Releasing(p, key, a, sink, segmenter, mac, from, pieces)
    requires Reading(package.State(), left, pieces, from.all)
    requires Budget(from, pieces, remaining, left)
    modifies package, sink, package.journal, segmenter, slot, mac
    ensures r.Ok? ==> Releasing(p, key, a, sink, segmenter, mac, from, more)
    ensures r.Ok? && r.value.Some? ==>
      rest < left && Reading(package.State(), rest, more, from.all) && Budget(from, more, toRelease, rest)
    ensures r.Ok? && r.value.None? ==> more == pieces && from.all == Sections(pieces, false, package.State())
    ensures r.Err? ==> Stops(from.all, r.error, from.open)
    ensures from.at.consumed <= package.journal.consumed && from.at.ends <= package.journal.ends
    ensures OutAfter(package.journal.firstOut, from.at.firstOut, |from.at.consumed|)
  {
    ghost var s, was, open := package.State(), Stands(sink, mac), sink.room.None?;
    ghost var d;
    r, d := ReleaseNext(p, key, a, package, sink, segmenter, slot, verify, mac, remaining, left);
    ghost var now := Stands(sink, mac);
    more, toRelease, rest := pieces, remaining, left;
    if r.Err? {
      TurnStops(p, key, a, from, pieces, s, left, remaining, d, was, now, open, r);
    } else if r.value.None? {
      TurnEnds(p, key, a, from, pieces, left, remaining, d, was, now, open, r);
      ReadingGoesOn(s, left, pieces, from.all, d);
    } else {
      TurnGoesOn(p, key, a, from, pieces, left, remaining, d, was, now, open, r);
      toRelease, rest := remaining - Min(remaining, r.value.value), left - r.value.value;
      more := ReadOneMore(s, left, pieces, from.all, d, rest);
    }
  }

  /** What has been read and released is the pieces so far and their decryption. */
  ghost predicate Progress(p: Crypto, key: Bytes, a: AgileParams, pieces: Pieces, stored: Bytes, released: Bytes,
                           declared: nat)
    requires AesKey(key)
  {
    stored == pieces.Joined() && released == ReleasedBytes(p, key, a, pieces, declared)
  }

  lemma ProgressGoesOn(p: Crypto, key: Bytes, a: AgileParams, pieces: Pieces, piece: Bytes, stored: Bytes,
                       released: Bytes, declared: nat, remaining: nat)
    requires AesKey(key) && Progress(p, key, a, pieces, stored, released, declared)
    requires remaining == declared - Min(declared, |stored|)
    ensures
      var more := Take(DecryptPiece(p, a.keyDataHash, a.outerSalt, key, piece, pieces.Count()), remaining);
      Progress(p, key, a, Then(pieces, piece), stored + piece, released + more, declared)
  {
    var plain := DecryptPiece(p, a.keyDataHash, a.outerSalt, key, piece, pieces.Count());
    TakeMore(DecryptPieces(p, a.keyDataHash, a.outerSalt, key, pieces), plain, declared);
  }

  /** Steps 1 to 5: parse, check the password, recover the key, apply the policy. */
  method OpenPackage(p: Crypto, events: seq<XmlEvent>, password: Bytes, policy: IntegrityPolicy)
    returns (r: Result<Opened>)
    ensures r == Open(p, events, password, policy)
  {
    ParseScreens(p, events);
    var params :- ParseEncryptionInfo(p, events);
    var key :- RecoverSessionKey(p, params, password);
    var decided :- CheckIntegrity(p, params, key, policy);
    return Ok(Opened(params, key, decided.0, decided.1));
  }

  /** Both passes over a package whose key and tag are settled. */
  method ReleaseOpened(p: Crypto, o: Opened, package: ByteStream, sink: Sink)
    returns (r: Result<()>, ghost taken: Taken)
    requires AesKey(o.key) && (o.check.Some? ==> o.check.value.hash == o.params.keyDataHash)
    requires package.journal == sink.journal && package.journal.firstOut.None? && package.journal.consumed == []
    requires package.journal.Valid()
    modifies package, sink, package.journal
    ensures o.check.Some? && package.journal.firstOut.Some? ==>
      VerifiedFirst(p, o.check.value, taken.first, package.journal)
    ensures r.Ok? ==>
      && PackageTaken(p, o, old(package.State())) == Ok(taken)
      && package.journal.consumed == taken.first + taken.Second()
      && sink.contents
        == old(sink.contents) + ReleasedBytes(p, o.key, o.params, taken.pieces, FromLe64(taken.size))
      && CutUnlessEnded(package.journal, taken.pieces)
    ensures r.Ok? && IsCut(taken.pieces) && FromLe64(taken.size) <= |taken.pieces.Joined()| ==>
      DecryptOpened(p, o, taken.Second())
        == Ok(ReleasedBytes(p, o.key, o.params, taken.pieces, FromLe64(taken.size)))
    ensures r.Err? && r != Err(Io(Failed)) ==> PackageTaken(p, o, old(package.State())) == Err(r.error)
    ensures r.Err? && old(sink.room).None? ==> PackageTaken(p, o, old(package.State())) == Err(r.error)
    ensures EndsEarly(p, o, old(package.State())) ==> r.Err? && sink.contents == old(sink.contents)
  {
    ghost var s, first := package.State(), [];
    taken := Taken(first, [], Nothing);
    if o.check.Some? {
      r, first := HmacPass(p, o.check.value, package);
      taken := Taken(first, [], Nothing);
      if r.Err? {
        assert FirstTaken(p, o, s) == Err(r.error);
        return;
      }
    }
    assert FirstTaken(p, o, s) == Ok((first, package.State())) && package.journal.consumed == first;
    r, taken := DecryptPackageTo(p, o, o.key, o.params, package, sink, o.check, first);
    if r.Ok? && IsCut(taken.pieces) && FromLe64(taken.size) <= |taken.pieces.Joined()| {
      CutIsThePackage(p, o.key, o.params, taken.size, taken.pieces);
    }
  }

  /**
   When the first byte went out, a whole pass had been read, its end seen, and its HMAC
   was the declared tag.
   */
  ghost predicate VerifiedFirst(p: Crypto, check: IntegrityCheck, first: Bytes, journal: Journal)
    reads journal
  {
    && first <= journal.consumed && |first| in journal.ends
    && journal.firstOut.Some? && |first| <= journal.firstOut.value
    && check.Accepts(p, first)
  }

  /**
   The streaming decrypt, and what holds after every run of it, however the reader and the
   writer behave. `taken` is what the two passes read.
   */
  method DecryptTo(p: Crypto, events: seq<XmlEvent>, package: ByteStream, sink: Sink, password: Bytes,
                   policy: IntegrityPolicy)
    returns (r: Result<IntegrityOutcome>, ghost o: Result<Opened>, ghost taken: Taken)
    requires package.journal == sink.journal && package.journal.firstOut.None? && package.journal.consumed == []
    requires package.journal.Valid()
    modifies package, sink, package.journal
    ensures o == Open(p, events, password, policy)
    // No byte goes out before a whole first pass whose HMAC is the declared tag.
    ensures package.journal.firstOut.Some? ==> o.Ok?
    ensures package.journal.firstOut.Some? && o.value.check.Some? ==>
      VerifiedFirst(p, o.value.check.value, taken.first, package.journal)
    // Success is about the bytes pass 2 read: what was released is their decryption, and
    // when there is a tag it is theirs too.
    ensures r.Ok? ==>
      && o.Ok? && r.value == o.value.outcome && PackageTaken(p, o.value, old(package.State())) == Ok(taken)
      && package.journal.consumed == taken.first + taken.Second()
      && sink.contents
        == old(sink.contents) + ReleasedBytes(p, o.value.key, o.value.params, taken.pieces, FromLe64(taken.size))
      && (o.value.check.Some? ==> o.value.check.value.Accepts(p, taken.Second()))
    // And those bytes are decrypted as a package is when the pieces they came in are a cut,
    // which they are exactly when the reader reported no end inside one of them.
    ensures r.Ok? && IsCut(taken.pieces) && FromLe64(taken.size) <= |taken.pieces.Joined()| ==>
      DecryptOpened(p, o.value, taken.Second())
        == Ok(ReleasedBytes(p, o.value.key, o.value.params, taken.pieces, FromLe64(taken.size)))
    ensures r.Ok? ==> CutUnlessEnded(package.journal, taken.pieces)
    // No run reaches a fault of the program's own but for the segment counter.
    ensures r.Err? && r.error.Internal() ==> r.error == InvariantViolated(CounterOverflow)
    // Into a writer with room, how a run ends is decided before the call; and an error of
    // the first pass or the prefix leaves the writer as it was.
    ensures o.Err? ==> r == Err(o.error) && sink.contents == old(sink.contents)
    ensures o.Ok? && r.Err? && old(sink.room).None? ==> PackageTaken(p, o.value, old(package.State())) == Err(r.error)
    ensures o.Ok? && EndsEarly(p, o.value, old(package.State())) ==> r.Err? && sink.contents == old(sink.contents)
    // A reader that delivers its content, a writer with room, at most 2^32 segments: the
    // run is the function, and an error leaves the writer as it was.
    ensures old(package.Steady() && sink.room.None? && Cut(package.content).Count() <= U32_LIMIT) ==>
      match Decrypt(p, events, old(package.content), password, policy)
      case Err(e) => r == Err(e) && sink.contents == old(sink.contents)
      case Ok(answer) => r == Ok(answer.1) && sink.contents == old(sink.contents) + answer.0
  {
    ghost var s := package.State();
    taken := Taken([], [], Nothing);
    var opening := OpenPackage(p, events, password, policy);
    o := opening;
    if opening.Err? {
      return Err(opening.error), o, taken;
    }
    var done;
    done, taken := ReleaseOpened(p, opening.value, package, sink);
    r := if done.Err? then Err(done.error) else Ok(opening.value.outcome);
    if s.Steady() && Cut(s.content).Count() <= U32_LIMIT {
      SteadyTaken(p, opening.value, s);
    }
  }

  /** Pieces that are a cut are what the specification decrypts. */
  lemma CutIsThePackage(p: Crypto, key: Bytes, a: AgileParams, prefix: Bytes, pieces: Pieces)
    requires AesKey(key) && |key| == a.keyDataKeyBits / 8 && |prefix| == 8
    requires IsCut(pieces) && pieces.Count() <= U32_LIMIT && FromLe64(prefix) <= |pieces.Joined()|
    ensures DecryptPackage(p, key, a, prefix + pieces.Joined()) ==
      Ok(ReleasedBytes(p, key, a, pieces, FromLe64(prefix)))
  {
    OnlyOneCut(pieces);
    Ends(prefix, pieces.Joined());
  }
}
