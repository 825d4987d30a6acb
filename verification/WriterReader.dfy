/** The writer and the reader of `\EncryptionInfo` accept the same tuples. */
module WriterReader {
  import opened Errors
  import opened Octets
  import opened Crypto
  import opened EncryptParams
  import opened EncryptionInfo
  import opened AgileParser
  import KeyEncryptors

  /** What the event loop holds after an element with the eight shared attributes. */
  function SharedAttrs(q: Params, saltSize: nat, keyBits: nat, salt: Bytes): CipherAttrs {
    CipherAttrs(Some(salt), Some(saltSize), Some(AES_BLOCK), Some(q.hash.DigestLen()), Some(keyBits),
                Some(q.hash.Name()), Some("AES"), Some("ChainingModeCBC"))
  }

  function Collected(q: Params, b: Blobs): ParseState {
    ParseState(
      SharedAttrs(q, q.keyDataSaltSize, q.keyDataKeyBits, b.keyDataSalt),
      PasswordAttrs(SharedAttrs(q, q.passwordSaltSize, q.passwordKeyBits, b.passwordSalt),
                    Some(q.spinCount), Some(b.verifierInput), Some(b.verifierValue), Some(b.keyValue)),
      IntegrityAttrs(Some(b.hmacKey), Some(b.hmacValue)),
      true, Unstated, true, false)
  }

  /** Every field of the tuple and every blob, on the element it belongs to. */
  function Described(q: Params, b: Blobs): AgileParams {
    AgileParams(
      b.keyDataSalt, b.passwordSalt, q.spinCount, q.passwordKeyBits,
      b.keyValue, b.verifierInput, b.verifierValue,
      Some(Integrity(b.hmacKey, b.hmacValue)),
      q.hash, q.keyDataKeyBits, Some(q.hash.DigestLen()), q.hash, q.passwordSaltSize)
  }

  lemma Base64ReadsBack(p: Crypto, x: Bytes)
    ensures B64Attr(p, p.base64(x)) == Ok(x)
  {
    assert p.TextLaws();
  }

  lemma NumberReadsBack(n: nat)
    requires n < U32_LIMIT
    ensures U32Attr(Decimal(n)) == Ok(n)
  {
    DecimalReadsBack(n);
  }

  /** The eight shared attributes, one after the other, into one element's record. */
  function CipherSteps(p: Crypto, c: CipherAttrs, part: seq<Attr>): Result<CipherAttrs>
    requires |part| == 8
  {
    var c4 :- FirstSteps(p, c, part);
    LastSteps(p, c4, part)
  }

  lemma CipherAttributesRead(p: Crypto, q: Params, saltSize: nat, keyBits: nat, salt: Bytes, c: CipherAttrs)
    requires saltSize < U32_LIMIT && keyBits < U32_LIMIT
    ensures CipherSteps(p, c, CipherAttributes(p, q, saltSize, keyBits, salt)) ==
      Ok(SharedAttrs(q, saltSize, keyBits, salt))
  {
    var part := CipherAttributes(p, q, saltSize, keyBits, salt);
    var c4 := c.(saltSize := Some(saltSize), blockSize := Some(AES_BLOCK), keyBits := Some(keyBits),
                 hashSize := Some(q.hash.DigestLen()));
    NumbersRead(p, c, part, saltSize, AES_BLOCK, keyBits, q.hash.DigestLen());
    assert CipherSteps(p, c, part) == LastSteps(p, c4, part);
    Base64ReadsBack(p, salt);
  }

  function FirstSteps(p: Crypto, c: CipherAttrs, part: seq<Attr>): Result<CipherAttrs>
    requires |part| == 8
  {
    var c1 :- CipherAttr(p, c, part[0]);
    var c2 :- CipherAttr(p, c1, part[1]);
    var c3 :- CipherAttr(p, c2, part[2]);
    CipherAttr(p, c3, part[3])
  }

  function LastSteps(p: Crypto, c: CipherAttrs, part: seq<Attr>): Result<CipherAttrs>
    requires |part| == 8
  {
    var c5 :- CipherAttr(p, c, part[4]);
    var c6 :- CipherAttr(p, c5, part[5]);
    var c7 :- CipherAttr(p, c6, part[6]);
    CipherAttr(p, c7, part[7])
  }

  lemma NumbersRead(p: Crypto, c: CipherAttrs, part: seq<Attr>, saltSize: nat, blockSize: nat, keyBits: nat,
                    hashSize: nat)
    requires |part| == 8 && saltSize < U32_LIMIT && blockSize < U32_LIMIT && keyBits < U32_LIMIT && hashSize < U32_LIMIT
    requires part[0] == Attr(SaltSizeKey, Decimal(saltSize)) && part[1] == Attr(BlockSize, Decimal(blockSize))
    requires part[2] == Attr(KeyBitsKey, Decimal(keyBits)) && part[3] == Attr(HashSize, Decimal(hashSize))
    ensures FirstSteps(p, c, part) ==
      Ok(c.(saltSize := Some(saltSize), blockSize := Some(blockSize), keyBits := Some(keyBits),
            hashSize := Some(hashSize)))
  {
    var c1 := c.(saltSize := Some(saltSize));
    var c2 := c1.(blockSize := Some(blockSize));
    var c3 := c2.(keyBits := Some(keyBits));
    NumberStep(p, c, part[0], saltSize);
    NumberStep(p, c1, part[1], blockSize);
    NumberStep(p, c2, part[2], keyBits);
    NumberStep(p, c3, part[3], hashSize);
  }

  lemma NumberStep(p: Crypto, c: CipherAttrs, a: Attr, n: nat)
    requires n < U32_LIMIT && a.value == Decimal(n) && a.key in {SaltSizeKey, BlockSize, KeyBitsKey, HashSize}
    ensures CipherAttr(p, c, a) == Ok(
      match a.key
      case SaltSizeKey => c.(saltSize := Some(n))
      case BlockSize => c.(blockSize := Some(n))
      case KeyBitsKey => c.(keyBits := Some(n))
      case _ => c.(hashSize := Some(n)))
  {
    NumberReadsBack(n);
  }

  /** A run of attributes that only the shared record takes, read within either element. */
  lemma {:induction false} SharedRun(p: Crypto, st: ParseState, element: Element, attrs: seq<Attr>, k: nat, n: nat)
    requires element == KeyData || element == EncryptedKey
    requires k + n <= |attrs|
    requires forall i :: k <= i < k + n ==> SharedKey(attrs[i].key)
    requires CipherRun(p, Record(st, element), attrs, k, n).Ok?
    ensures AttrsFrom(p, st, element, attrs, k) ==
      AttrsFrom(p, WithRecord(st, element, CipherRun(p, Record(st, element), attrs, k, n).value), element, attrs, k + n)
    decreases n
  {
    if n > 0 {
      var c := CipherAttr(p, Record(st, element), attrs[k]);
      var next := WithRecord(st, element, c.value);
      assert AttrStep(p, st, element, attrs[k]) == Ok(next);
      SharedRun(p, next, element, attrs, k + 1, n - 1);
    }
  }

  predicate SharedKey(key: AttrKey) {
    key in {SaltSizeKey, BlockSize, KeyBitsKey, HashSize, CipherAlgorithm, CipherChaining, HashName, SaltValue}
  }

  function Record(st: ParseState, element: Element): CipherAttrs {
    if element == KeyData then st.keyData else st.password.shared
  }

  function WithRecord(st: ParseState, element: Element, c: CipherAttrs): ParseState {
    if element == KeyData then st.(keyData := c) else st.(password := st.password.(shared := c))
  }

  function CipherRun(p: Crypto, c: CipherAttrs, attrs: seq<Attr>, k: nat, n: nat): Result<CipherAttrs>
    requires k + n <= |attrs|
    decreases n
  {
    if n == 0 then Ok(c)
    else
      var c' :- CipherAttr(p, c, attrs[k]);
      CipherRun(p, c', attrs, k + 1, n - 1)
  }

  lemma EightSteps(p: Crypto, c: CipherAttrs, attrs: seq<Attr>, k: nat)
    requires k + 8 <= |attrs| && CipherSteps(p, c, attrs[k..k + 8]).Ok?
    ensures CipherRun(p, c, attrs, k, 8) == CipherSteps(p, c, attrs[k..k + 8])
  {
    var part := attrs[k..k + 8];
    assert forall i :: 0 <= i < 8 ==> part[i] == attrs[k + i];
    var c1 := CipherAttr(p, c, part[0]).value;
    var c2 := CipherAttr(p, c1, part[1]).value;
    var c3 := CipherAttr(p, c2, part[2]).value;
    var c4 := CipherAttr(p, c3, part[3]).value;
    var c5 := CipherAttr(p, c4, part[4]).value;
    var c6 := CipherAttr(p, c5, part[5]).value;
    var c7 := CipherAttr(p, c6, part[6]).value;
    var c8 := CipherAttr(p, c7, part[7]).value;
    assert CipherRun(p, c7, attrs, k + 7, 1) == Ok(c8);
    assert CipherRun(p, c6, attrs, k + 6, 2) == Ok(c8);
    assert CipherRun(p, c5, attrs, k + 5, 3) == Ok(c8);
    assert CipherRun(p, c4, attrs, k + 4, 4) == Ok(c8);
    assert CipherRun(p, c3, attrs, k + 3, 5) == Ok(c8);
    assert CipherRun(p, c2, attrs, k + 2, 6) == Ok(c8);
    assert CipherRun(p, c1, attrs, k + 1, 7) == Ok(c8);
  }

  lemma KeyDataReads(p: Crypto, q: Params, b: Blobs, st: ParseState)
    requires q.U32()
    ensures
      var attrs := CipherAttributes(p, q, q.keyDataSaltSize, q.keyDataKeyBits, b.keyDataSalt);
      AttrsFrom(p, st, KeyData, attrs, 0) ==
        Ok(st.(keyData := SharedAttrs(q, q.keyDataSaltSize, q.keyDataKeyBits, b.keyDataSalt)))
  {
    var attrs := CipherAttributes(p, q, q.keyDataSaltSize, q.keyDataKeyBits, b.keyDataSalt);
    assert attrs[0..8] == attrs;
    CipherAttributesRead(p, q, q.keyDataSaltSize, q.keyDataKeyBits, b.keyDataSalt, st.keyData);
    EightSteps(p, st.keyData, attrs, 0);
    SharedRun(p, st, KeyData, attrs, 0, 8);
  }

  lemma PasswordReads(p: Crypto, q: Params, b: Blobs, st: ParseState)
    requires q.U32()
    ensures AttrsFrom(p, st, EncryptedKey, PasswordAttributes(p, q, b), 0) ==
      Ok(st.(password := Collected(q, b).password))
  {
    var attrs := PasswordAttributes(p, q, b);
    var part := CipherAttributes(p, q, q.passwordSaltSize, q.passwordKeyBits, b.passwordSalt);
    NumberReadsBack(q.spinCount);
    var st1 := st.(password := st.password.(spinCount := Some(q.spinCount)));
    assert AttrStep(p, st, EncryptedKey, attrs[0]) == Ok(st1);
    assert attrs[1..9] == part;
    assert forall i :: 1 <= i < 9 ==> attrs[i] == part[i - 1];
    CipherAttributesRead(p, q, q.passwordSaltSize, q.passwordKeyBits, b.passwordSalt, st1.password.shared);
    EightSteps(p, st1.password.shared, attrs, 1);
    SharedRun(p, st1, EncryptedKey, attrs, 1, 8);
    var st2 := WithRecord(st1, EncryptedKey, SharedAttrs(q, q.passwordSaltSize, q.passwordKeyBits, b.passwordSalt));
    PasswordBlobsRead(p, b, st2, attrs);
  }

  lemma PasswordBlobsRead(p: Crypto, b: Blobs, st: ParseState, attrs: seq<Attr>)
    requires |attrs| == 12
    requires attrs[9] == Attr(VerifierHashInput, p.base64(b.verifierInput))
    requires attrs[10] == Attr(VerifierHashValue, p.base64(b.verifierValue))
    requires attrs[11] == Attr(KeyValue, p.base64(b.keyValue))
    ensures AttrsFrom(p, st, EncryptedKey, attrs, 9) ==
      Ok(st.(password := st.password.(
        verifierInput := Some(b.verifierInput), verifierValue := Some(b.verifierValue), keyValue := Some(b.keyValue))))
  {
    Base64ReadsBack(p, b.verifierInput);
    Base64ReadsBack(p, b.verifierValue);
    Base64ReadsBack(p, b.keyValue);
    var st1 := st.(password := st.password.(verifierInput := Some(b.verifierInput)));
    var st2 := st1.(password := st1.password.(verifierValue := Some(b.verifierValue)));
    assert AttrsFrom(p, st, EncryptedKey, attrs, 9) == AttrsFrom(p, st1, EncryptedKey, attrs, 10);
    assert AttrsFrom(p, st1, EncryptedKey, attrs, 10) == AttrsFrom(p, st2, EncryptedKey, attrs, 11);
    var st3 := st2.(password := st2.password.(keyValue := Some(b.keyValue)));
    assert AttrStep(p, st2, EncryptedKey, attrs[11]) == Ok(st3);
    assert AttrsFrom(p, st3, EncryptedKey, attrs, 12) == Ok(st3);
  }

  lemma IntegrityReads(p: Crypto, b: Blobs, st: ParseState)
    ensures AttrsFrom(p, st, DataIntegrity, IntegrityAttributes(p, b), 0) ==
      Ok(st.(integrity := IntegrityAttrs(Some(b.hmacKey), Some(b.hmacValue))))
  {
    Base64ReadsBack(p, b.hmacKey);
    Base64ReadsBack(p, b.hmacValue);
    var attrs := IntegrityAttributes(p, b);
    var st1 := st.(integrity := st.integrity.(hmacKey := Some(b.hmacKey)));
    assert AttrStep(p, st, DataIntegrity, attrs[0]) == Ok(st1);
    assert AttrsFrom(p, st, DataIntegrity, attrs, 0) == AttrsFrom(p, st1, DataIntegrity, attrs, 1);
    var st2 := st1.(integrity := st1.integrity.(hmacValue := Some(b.hmacValue)));
    assert AttrStep(p, st1, DataIntegrity, attrs[1]) == Ok(st2);
    assert AttrsFrom(p, st2, DataIntegrity, attrs, 2) == Ok(st2);
  }

  lemma OtherStep(p: Crypto, st: ParseState, name: string, attrs: seq<Attr>)
    ensures Step(p, st, Start(OtherElement(name), attrs)) == Ok(st)
  {
    KeyEncryptors.OtherAttrsChangeNothing(p, st, OtherElement(name), attrs, 0);
  }

  lemma WrapperStep(p: Crypto, st: ParseState)
    ensures Step(p, st, Start(KeyEncryptor, [Attr(Uri, URI_PASSWORD)])) == Ok(st.(current := Password))
  {
    var attrs := [Attr(Uri, URI_PASSWORD)];
    assert AttrsFrom(p, st.(current := Unstated), KeyEncryptor, attrs, 0)
      == AttrsFrom(p, st.(current := Password), KeyEncryptor, attrs, 1);
  }

  /** The state once `<keyData>` and `<dataIntegrity>` are read, inside the wrapper. */
  function BeforeKey(q: Params, b: Blobs): ParseState {
    Collected(q, b).(password := NO_PASSWORD, sawPassword := false, current := Password)
  }

  lemma UpToTheKey(p: Crypto, q: Params, b: Blobs, d: seq<XmlEvent>)
    requires q.U32() && d == Document(p, q, b)
    ensures Run(p, INITIAL, d) == Run(p, BeforeKey(q, b), d[5..])
  {
    var s2 := INITIAL.(keyData := Collected(q, b).keyData);
    var s3 := s2.(sawIntegrity := true, integrity := Collected(q, b).integrity);
    OtherStep(p, INITIAL, "encryption", ROOT_ATTRIBUTES);
    KeyDataReads(p, q, b, INITIAL);
    IntegrityReads(p, b, s2.(sawIntegrity := true));
    OtherStep(p, s3, "keyEncryptors", []);
    WrapperStep(p, s3);
    assert d[0..] == d;
    RunStep(p, INITIAL, d, 0, INITIAL);
    RunStep(p, INITIAL, d, 1, s2);
    RunStep(p, s2, d, 2, s3);
    RunStep(p, s3, d, 3, s3);
    RunStep(p, s3, d, 4, BeforeKey(q, b));
  }

  lemma FromTheKey(p: Crypto, q: Params, b: Blobs, d: seq<XmlEvent>)
    requires q.U32() && d == Document(p, q, b)
    ensures Run(p, BeforeKey(q, b), d[5..]) == Ok(Collected(q, b))
  {
    var st := BeforeKey(q, b);
    var done := Collected(q, b);
    PasswordReads(p, q, b, st.(sawPassword := true));
    assert d[9..] == [];
    RunStep(p, st, d, 5, done.(current := Password));
    RunStep(p, done.(current := Password), d, 6, done);
    RunStep(p, done, d, 7, done);
    RunStep(p, done, d, 8, done);
  }

  lemma RunStep(p: Crypto, st: ParseState, events: seq<XmlEvent>, k: nat, next: ParseState)
    requires k < |events| && Step(p, st, events[k]) == Ok(next)
    ensures Run(p, st, events[k..]) == Run(p, next, events[k + 1..])
  {
    assert events[k..][0] == events[k] && events[k..][1..] == events[k + 1..];
  }

  lemma HashNameReadsBack(hash: HashAlgorithm)
    ensures ParseHash(hash.Name()) == Some(hash)
  {
  }

  lemma SharedAttrsScreen(q: Params, saltSize: nat, keyBits: nat, salt: Bytes)
    requires |salt| == saltSize
    ensures var r := ScreenKeyData(SharedAttrs(q, saltSize, keyBits, salt));
      if AllowedKeyBits(keyBits) && SALT_SIZE_MIN <= saltSize <= SALT_SIZE_MAX
      then r == Ok(KeyDataScreen(q.hash, keyBits, salt)) else r.Err?
    ensures var r := ScreenPassword(SharedAttrs(q, saltSize, keyBits, salt));
      if SALT_SIZE_MIN <= saltSize <= SALT_SIZE_MAX then r == Ok(PasswordScreen(q.hash, salt, saltSize)) else r.Err?
  {
    HashNameReadsBack(q.hash);
    var c := SharedAttrs(q, saltSize, keyBits, salt);
    assert ResolveHash(c.hashName, KeyDataHashAlgorithm) == Ok(q.hash);
    assert ResolveHash(c.hashName, EncryptedKeyHashAlgorithm) == Ok(q.hash);
  }

  lemma CollectedFinishes(q: Params, b: Blobs)
    requires b.Sized(q)
    ensures if q.Writable() then Finish(Collected(q, b)) == Ok(Described(q, b)) else Finish(Collected(q, b)).Err?
  {
    SharedAttrsScreen(q, q.keyDataSaltSize, q.keyDataKeyBits, b.keyDataSalt);
    SharedAttrsScreen(q, q.passwordSaltSize, q.passwordKeyBits, b.passwordSalt);
  }

  /**
   The writer's judgement of a tuple is the reader's: over blobs of the lengths the tuple
   fixes, the document is accepted exactly when the tuple is writable, and then every
   field comes back on its own element.
   */
  lemma WriterAndReaderAgree(p: Crypto, q: Params, b: Blobs)
    requires q.U32() && b.Sized(q)
    ensures Parse(p, Document(p, q, b)).Ok? <==> q.Validate().Ok?
    ensures q.Writable() ==> Parse(p, Document(p, q, b)) == Ok(Described(q, b))
  {
    var d := Document(p, q, b);
    UpToTheKey(p, q, b, d);
    FromTheKey(p, q, b, d);
    CollectedFinishes(q, b);
  }

  // ----- the same key outside a wrapper -----

  /** What comes before and after the place of the wrapper, when the key stands without one. */
  function BareKeyBefore(p: Crypto, q: Params, b: Blobs): seq<XmlEvent> {
    Document(p, q, b)[..4]
  }

  function BareKeyAfter(p: Crypto, q: Params, b: Blobs): seq<XmlEvent> {
    [Empty(EncryptedKey, PasswordAttributes(p, q, b)), End(OtherElement("keyEncryptors")),
     End(OtherElement("encryption"))]
  }

  lemma BareKeyBeforeReads(p: Crypto, q: Params, b: Blobs, before: seq<XmlEvent>)
    requires q.U32() && before == BareKeyBefore(p, q, b)
    ensures Run(p, INITIAL, before) == Ok(BeforeKey(q, b).(current := Unstated))
  {
    var s2 := INITIAL.(keyData := Collected(q, b).keyData);
    var s3 := BeforeKey(q, b).(current := Unstated);
    BareKeyDataReads(p, q, b, before, s2);
    IntegrityReads(p, b, s2.(sawIntegrity := true));
    OtherStep(p, s3, "keyEncryptors", []);
    assert before[2] == Empty(DataIntegrity, IntegrityAttributes(p, b));
    assert before[3] == Start(OtherElement("keyEncryptors"), []) && before[4..] == [];
    RunStep(p, s2, before, 2, s3);
    RunStep(p, s3, before, 3, s3);
  }

  lemma BareKeyDataReads(p: Crypto, q: Params, b: Blobs, before: seq<XmlEvent>, s2: ParseState)
    requires q.U32() && before == BareKeyBefore(p, q, b) && s2 == INITIAL.(keyData := Collected(q, b).keyData)
    ensures Run(p, INITIAL, before) == Run(p, s2, before[2..])
  {
    OtherStep(p, INITIAL, "encryption", ROOT_ATTRIBUTES);
    KeyDataReads(p, q, b, INITIAL);
    assert before[0] == Start(OtherElement("encryption"), ROOT_ATTRIBUTES) && before[0..] == before;
    RunStep(p, INITIAL, before, 0, INITIAL);
    RunStep(p, INITIAL, before, 1, s2);
  }

  lemma BareKeyAfterReads(p: Crypto, q: Params, b: Blobs, st: ParseState, after: seq<XmlEvent>)
    requires q.U32() && st == BeforeKey(q, b).(current := Unstated) && after == BareKeyAfter(p, q, b)
    ensures Run(p, st, after) == Ok(Collected(q, b))
  {
    var done := Collected(q, b);
    PasswordReads(p, q, b, st.(sawPassword := true));
    NoCertificateAttr(p, q, b);
    assert after[0..] == after && after[3..] == [];
    RunStep(p, st, after, 0, done);
    RunStep(p, done, after, 1, done);
    RunStep(p, done, after, 2, done);
  }

  lemma BareKeyReads(p: Crypto, q: Params, b: Blobs)
    requires q.Writable() && b.Sized(q)
    ensures Run(p, INITIAL, BareKeyBefore(p, q, b)) == Ok(BeforeKey(q, b).(current := Unstated))
    ensures Parse(p, BareKeyBefore(p, q, b) + BareKeyAfter(p, q, b)) == Ok(Described(q, b))
  {
    var before, after := BareKeyBefore(p, q, b), BareKeyAfter(p, q, b);
    BareKeyBeforeReads(p, q, b, before);
    BareKeyAfterReads(p, q, b, BeforeKey(q, b).(current := Unstated), after);
    KeyEncryptors.RunAppend(p, INITIAL, before, after);
    CollectedFinishes(q, b);
  }

  lemma NoCertificateAttr(p: Crypto, q: Params, b: Blobs)
    ensures !HasCertificateAttr(PasswordAttributes(p, q, b))
  {
    var attrs := PasswordAttributes(p, q, b);
    var part := CipherAttributes(p, q, q.passwordSaltSize, q.passwordKeyBits, b.passwordSalt);
    assert forall i :: 1 <= i < 9 ==> attrs[i] == part[i - 1];
  }

  /**
   The failure on accepted documents, one for every writable tuple: the password key
   stands outside any wrapper, and a self-closing certificate wrapper put before it turns
   an accepted document into a certificate-only one.
   */
  lemma SelfClosingWrapperLosesADocument(p: Crypto, q: Params, b: Blobs)
    requires q.Writable() && b.Sized(q)
    ensures
      var before, after := BareKeyBefore(p, q, b), BareKeyAfter(p, q, b);
      var wrapper := Empty(KeyEncryptor, [Attr(Uri, URI_CERTIFICATE)]);
      && Parse(p, before + after) == Ok(Described(q, b))
      && Parse(p, before + [wrapper] + after) == Err(XmlParse(OnlyCertificateEncryptors))
  {
    var before, after := BareKeyBefore(p, q, b), BareKeyAfter(p, q, b);
    var attrs := [Attr(Uri, URI_CERTIFICATE)];
    BareKeyReads(p, q, b);
    NoCertificateAttr(p, q, b);
    assert KeyEncryptors.LastUriAt(attrs, 0) && KeyEncryptors.NamesCertificate(attrs);
    assert KeyEncryptors.UnmarkedKey(after[0]) && KeyEncryptors.Exposed(after);
    KeyEncryptors.SelfClosingWrapperDisplacesThePassword(p, before, attrs, after);
  }
}
