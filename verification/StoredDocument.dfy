/** The stored document: what the scanner finds in every stream the writer makes. */
module StoredDocument {
  import opened Errors
  import opened Octets
  import opened Crypto
  import opened EncryptParams
  import opened EncryptionInfo
  import opened DocumentText

  // ----- the writer's document, in its own text -----

  function NamesOf(attrs: seq<Attr>): Pairs {
    if attrs == [] then [] else [(KeyText(attrs[0].key), attrs[0].value)] + NamesOf(attrs[1..])
  }

  lemma {:induction false} AttrsByPairs(attrs: seq<Attr>)
    ensures AttrsText(attrs) == PairsText(NamesOf(attrs))
    decreases |attrs|
  {
    if attrs != [] {
      AttrsByPairs(attrs[1..]);
      assert NamesOf(attrs)[1..] == NamesOf(attrs[1..]);
      assert AttrText(KeyText(attrs[0].key), attrs[0].value) + AttrsText(attrs[1..]) == AttrsText(attrs);
    }
  }

  predicate Tagged(event: XmlEvent) {
    event.Start? || event.Empty? || event.End?
  }

  function TagOf(event: XmlEvent): Tag
    requires Tagged(event)
  {
    match event
    case Start(element, attrs) => Open(ElementText(element), NamesOf(attrs))
    case Empty(element, attrs) => Closed(ElementText(element), NamesOf(attrs))
    case End(element) => Close(ElementText(element))
  }

  lemma TextOfTag(event: XmlEvent)
    requires Tagged(event)
    ensures EventText(event) == TagText(TagOf(event))
  {
    if !event.End? {
      AttrsByPairs(event.attrs);
    }
  }

  lemma {:induction false} TextOfTags(events: seq<XmlEvent>, tags: seq<Tag>)
    requires |events| == |tags| && forall k :: 0 <= k < |events| ==> Tagged(events[k]) && TagOf(events[k]) == tags[k]
    ensures EventsText(events) == TagsText(tags)
    decreases |events|
  {
    if events != [] {
      assert Tagged(events[0]) && TagOf(events[0]) == tags[0];
      TextOfTag(events[0]);
      TextOfTags(events[1..], tags[1..]);
    }
  }

  /** The eight attributes of either element. */
  function SharedPairs(p: Crypto, q: Params, saltSize: nat, keyBits: nat, salt: Bytes): Pairs {
    [ ("saltSize", Decimal(saltSize)), ("blockSize", "16"), ("keyBits", Decimal(keyBits)),
      ("hashSize", Decimal(q.hash.DigestLen())), ("cipherAlgorithm", "AES"), ("cipherChaining", "ChainingModeCBC"),
      ("hashAlgorithm", q.hash.Name()), ("saltValue", p.base64(salt)) ]
  }

  function RootPairs(): Pairs {
    [ ("xmlns", "http://schemas.microsoft.com/" + "office/2006/" + "encryption"),
      ("xmlns:p", "http://schemas.microsoft.com/" + "office/2006/" + "keyEncryptor/password"),
      ("xmlns:c", "http://schemas.microsoft.com/" + "office/2006/" + "keyEncryptor/certificate") ]
  }

  function IntegrityPairs(p: Crypto, b: Blobs): Pairs {
    [("encryptedHmacKey", p.base64(b.hmacKey)), ("encryptedHmacValue", p.base64(b.hmacValue))]
  }

  function WrapperPairs(): Pairs {
    [("uri", "http://schemas.microsoft.com/" + "office/2006/" + "keyEncryptor/password")]
  }

  function KeyPairs(p: Crypto, b: Blobs): Pairs {
    [ ("encryptedVerifierHashInput", p.base64(b.verifierInput)),
      ("encryptedVerifierHashValue", p.base64(b.verifierValue)),
      ("encryptedKeyValue", p.base64(b.keyValue)) ]
  }

  function PasswordPairs(p: Crypto, q: Params, b: Blobs): Pairs {
    [("spinCount", Decimal(q.spinCount))]
    + SharedPairs(p, q, q.passwordSaltSize, q.passwordKeyBits, b.passwordSalt)
    + KeyPairs(p, b)
  }

  /** Every tag of the stored document, by its own name, with every value the tuple and the blobs give it. */
  function StoredTags(p: Crypto, q: Params, b: Blobs): seq<Tag> {
    [ Open("encryption", RootPairs()),
      Closed("keyData", SharedPairs(p, q, q.keyDataSaltSize, q.keyDataKeyBits, b.keyDataSalt)),
      Closed("dataIntegrity", IntegrityPairs(p, b)),
      Open("keyEncryptors", []),
      Open("keyEncryptor", WrapperPairs()),
      Closed("p:encryptedKey", PasswordPairs(p, q, b)),
      Close("keyEncryptor"), Close("keyEncryptors"), Close("encryption") ]
  }

  lemma SharedNames(p: Crypto, q: Params, saltSize: nat, keyBits: nat, salt: Bytes)
    ensures NamesOf(CipherAttributes(p, q, saltSize, keyBits, salt)) == SharedPairs(p, q, saltSize, keyBits, salt)
  {
    var attrs := CipherAttributes(p, q, saltSize, keyBits, salt);
    NamesAt(attrs);
    assert Decimal(AES_BLOCK) == "16" by {
      assert Decimal(16) == Decimal(1) + "6";
    }
  }

  lemma {:induction false} NamesAt(attrs: seq<Attr>)
    ensures |NamesOf(attrs)| == |attrs|
    ensures forall k :: 0 <= k < |attrs| ==> NamesOf(attrs)[k] == (KeyText(attrs[k].key), attrs[k].value)
    decreases |attrs|
  {
    if attrs != [] {
      NamesAt(attrs[1..]);
    }
  }

  lemma {:induction false} NamesJoin(a: seq<Attr>, b: seq<Attr>)
    ensures NamesOf(a + b) == NamesOf(a) + NamesOf(b)
    decreases |a|
  {
    if a == [] {
      assert a + b == b;
    } else {
      assert (a + b)[1..] == a[1..] + b;
      NamesJoin(a[1..], b);
    }
  }

  lemma OneName(key: AttrKey, value: string)
    ensures NamesOf([Attr(key, value)]) == [(KeyText(key), value)]
  {
    assert [Attr(key, value)][1..] == [];
  }

  lemma PasswordNames(p: Crypto, q: Params, b: Blobs)
    ensures NamesOf(PasswordAttributes(p, q, b)) == PasswordPairs(p, q, b)
  {
    var shared := CipherAttributes(p, q, q.passwordSaltSize, q.passwordKeyBits, b.passwordSalt);
    var first := [Attr(SpinCountKey, Decimal(q.spinCount))];
    var last := [ Attr(VerifierHashInput, p.base64(b.verifierInput)),
                  Attr(VerifierHashValue, p.base64(b.verifierValue)),
                  Attr(KeyValue, p.base64(b.keyValue)) ];
    OneName(SpinCountKey, Decimal(q.spinCount));
    SharedNames(p, q, q.passwordSaltSize, q.passwordKeyBits, b.passwordSalt);
    NamesAt(last);
    assert NamesOf(last) == KeyPairs(p, b);
    NamesJoin(first, shared);
    NamesJoin(first + shared, last);
  }

  lemma OtherNames(p: Crypto, b: Blobs)
    ensures NamesOf(ROOT_ATTRIBUTES) == RootPairs() && NamesOf(IntegrityAttributes(p, b)) == IntegrityPairs(p, b)
    ensures NamesOf([Attr(Uri, URI_PASSWORD)]) == WrapperPairs() && NamesOf([]) == []
  {
    NamesAt(ROOT_ATTRIBUTES);
    NamesAt(IntegrityAttributes(p, b));
    OneName(Uri, URI_PASSWORD);
  }

  lemma DocumentIsItsText(p: Crypto, q: Params, b: Blobs)
    ensures EventsText(Document(p, q, b)) == TagsText(StoredTags(p, q, b))
  {
    OtherNames(p, b);
    SharedNames(p, q, q.keyDataSaltSize, q.keyDataKeyBits, b.keyDataSalt);
    PasswordNames(p, q, b);
    TextOfTags(Document(p, q, b), StoredTags(p, q, b));
  }

  // ----- nothing in it ends a value early -----

  lemma {:induction false} DigitsArePlain(n: nat)
    ensures Plain(Decimal(n), "\"")
  {
  }

  lemma TextIsPlain(p: Crypto, x: Bytes)
    ensures Plain(p.base64(x), "\"")
  {
    assert p.TextLaws() && Base64Text(p.base64(x));
  }

  lemma PlainJoin(x: string, y: string, stops: string)
    requires Plain(x, stops) && Plain(y, stops)
    ensures Plain(x + y, stops)
  {
  }

  lemma PairsJoin(a: Pairs, b: Pairs)
    requires PlainPairs(a) && PlainPairs(b)
    ensures PlainPairs(a + b)
  {
  }

  lemma UriIsPlain(end: string)
    requires Plain(end, "\"")
    ensures Plain("http://schemas.microsoft.com/" + "office/2006/" + end, "\"")
  {
    PlainJoin("http://schemas.microsoft.com/", "office/2006/", "\"");
    PlainJoin("http://schemas.microsoft.com/" + "office/2006/", end, "\"");
  }

  lemma NumbersArePlain(saltSize: nat, keyBits: nat, hashSize: nat)
    ensures PlainPairs([ ("saltSize", Decimal(saltSize)), ("blockSize", "16"), ("keyBits", Decimal(keyBits)),
                         ("hashSize", Decimal(hashSize)) ])
  {
    DigitsArePlain(saltSize);
    DigitsArePlain(keyBits);
    DigitsArePlain(hashSize);
  }

  lemma ChoicesArePlain(p: Crypto, hash: HashAlgorithm, salt: Bytes)
    ensures PlainPairs([ ("cipherAlgorithm", "AES"), ("cipherChaining", "ChainingModeCBC"),
                         ("hashAlgorithm", hash.Name()), ("saltValue", p.base64(salt)) ])
  {
    NameIsPlain(hash);
    TextIsPlain(p, salt);
  }

  lemma NameIsPlain(hash: HashAlgorithm)
    ensures Plain(hash.Name(), "\"")
  {
  }

  lemma SharedIsPlain(p: Crypto, q: Params, saltSize: nat, keyBits: nat, salt: Bytes)
    ensures PlainPairs(SharedPairs(p, q, saltSize, keyBits, salt))
  {
    var pairs := SharedPairs(p, q, saltSize, keyBits, salt);
    NumbersArePlain(saltSize, keyBits, q.hash.DigestLen());
    ChoicesArePlain(p, q.hash, salt);
    assert pairs[..4] == [ ("saltSize", Decimal(saltSize)), ("blockSize", "16"), ("keyBits", Decimal(keyBits)),
                           ("hashSize", Decimal(q.hash.DigestLen())) ];
    assert pairs[4..] == [ ("cipherAlgorithm", "AES"), ("cipherChaining", "ChainingModeCBC"),
                           ("hashAlgorithm", q.hash.Name()), ("saltValue", p.base64(salt)) ];
    PairsJoin(pairs[..4], pairs[4..]);
    assert pairs[..4] + pairs[4..] == pairs;
  }

  lemma KeysArePlain(p: Crypto, b: Blobs)
    ensures PlainPairs(KeyPairs(p, b))
  {
    TextIsPlain(p, b.verifierInput);
    TextIsPlain(p, b.verifierValue);
    TextIsPlain(p, b.keyValue);
  }

  lemma IntegrityIsPlain(p: Crypto, b: Blobs)
    ensures PlainPairs(IntegrityPairs(p, b))
  {
    TextIsPlain(p, b.hmacKey);
    TextIsPlain(p, b.hmacValue);
  }

  lemma PasswordIsPlain(p: Crypto, q: Params, b: Blobs)
    ensures PlainPairs(PasswordPairs(p, q, b))
  {
    var first := [("spinCount", Decimal(q.spinCount))];
    var shared := SharedPairs(p, q, q.passwordSaltSize, q.passwordKeyBits, b.passwordSalt);
    DigitsArePlain(q.spinCount);
    KeysArePlain(p, b);
    SharedIsPlain(p, q, q.passwordSaltSize, q.passwordKeyBits, b.passwordSalt);
    PairsJoin(first, shared);
    PairsJoin(first + shared, KeyPairs(p, b));
  }

  lemma UrisArePlain()
    ensures PlainPairs(RootPairs()) && PlainPairs(WrapperPairs())
  {
    UriIsPlain("encryption");
    UriIsPlain("keyEncryptor/password");
    UriIsPlain("keyEncryptor/certificate");
  }

  lemma OuterNames()
    ensures PlainName("encryption") && PlainName("keyData") && PlainName("dataIntegrity")
  {
  }

  lemma InnerNames()
    ensures PlainName("keyEncryptors") && PlainName("keyEncryptor") && PlainName("p:encryptedKey")
  {
  }

  lemma StoredIsPlain(p: Crypto, q: Params, b: Blobs)
    ensures PlainTags(StoredTags(p, q, b))
  {
    PasswordIsPlain(p, q, b);
    IntegrityIsPlain(p, b);
    UrisArePlain();
    SharedIsPlain(p, q, q.keyDataSaltSize, q.keyDataKeyBits, b.keyDataSalt);
    OuterNames();
    InnerNames();
  }

  /**
   What a scan of the stored stream finds, from its bytes alone: version 4.4, the reserved
   word, the declaration, and every tag with every name and value.
   */
  lemma StreamHoldsTheDocument(p: Crypto, q: Params, b: Blobs)
    ensures Tags(Stream(Document(p, q, b))) == Some(StoredTags(p, q, b))
  {
    DocumentIsItsText(p, q, b);
    StoredIsPlain(p, q, b);
    StreamIsScanned(StoredTags(p, q, b), Stream(Document(p, q, b)));
  }

  // ----- the events of a stored document -----

  function ElementOf(name: string): Element {
    if name == "keyEncryptor" then KeyEncryptor
    else if name == "keyData" then KeyData
    else if name == "dataIntegrity" then DataIntegrity
    else if name == "p:encryptedKey" then EncryptedKey
    else OtherElement(name)
  }

  function KeyOf(name: string): AttrKey {
    if name == "uri" then Uri
    else if name == "saltSize" then SaltSizeKey
    else if name == "blockSize" then BlockSize
    else if name == "keyBits" then KeyBitsKey
    else if name == "hashSize" then HashSize
    else if name == "cipherAlgorithm" then CipherAlgorithm
    else if name == "cipherChaining" then CipherChaining
    else if name == "hashAlgorithm" then HashName
    else if name == "saltValue" then SaltValue
    else if name == "spinCount" then SpinCountKey
    else if name == "encryptedVerifierHashInput" then VerifierHashInput
    else if name == "encryptedVerifierHashValue" then VerifierHashValue
    else if name == "encryptedKeyValue" then KeyValue
    else if name == "encryptedHmacKey" then HmacKey
    else if name == "encryptedHmacValue" then HmacValue
    else OtherKey(name)
  }

  function AttrsOf(pairs: Pairs): (attrs: seq<Attr>)
    ensures |attrs| == |pairs| && forall k :: 0 <= k < |pairs| ==> attrs[k] == Attr(KeyOf(pairs[k].0), pairs[k].1)
  {
    seq(|pairs|, i requires 0 <= i < |pairs| => Attr(KeyOf(pairs[i].0), pairs[i].1))
  }

  function EventOf(tag: Tag): XmlEvent {
    match tag
    case Open(name, pairs) => Start(ElementOf(name), AttrsOf(pairs))
    case Closed(name, pairs) => Empty(ElementOf(name), AttrsOf(pairs))
    case Close(name) => End(ElementOf(name))
  }

  function EventsOf(tags: seq<Tag>): (events: seq<XmlEvent>)
    ensures |events| == |tags|
  {
    seq(|tags|, i requires 0 <= i < |tags| => EventOf(tags[i]))
  }

  /** The events of a stored stream, by the names the elements and attributes have. */
  function EventsIn(b: Bytes): Option<seq<XmlEvent>> {
    var tags := Tags(b);
    if tags.None? then None else Some(EventsOf(tags.value))
  }

  predicate Shared(key: AttrKey) {
    || key.SaltSizeKey? || key.BlockSize? || key.KeyBitsKey? || key.HashSize?
    || key.CipherAlgorithm? || key.CipherChaining? || key.HashName? || key.SaltValue?
  }

  lemma SharedKey(key: AttrKey)
    requires Shared(key)
    ensures KeyOf(KeyText(key)) == key
  {
  }

  lemma OwnKey(key: AttrKey)
    requires !Shared(key) && !key.OtherKey? && key != X509Certificate
    ensures KeyOf(KeyText(key)) == key
  {
  }

  lemma SpacesAreOther()
    ensures KeyOf("xmlns") == OtherKey("xmlns") && KeyOf("xmlns:p") == OtherKey("xmlns:p")
    ensures KeyOf("xmlns:c") == OtherKey("xmlns:c")
  {
  }

  lemma {:induction false} AttrsComeBack(attrs: seq<Attr>)
    requires forall k :: 0 <= k < |attrs| ==> KeyOf(KeyText(attrs[k].key)) == attrs[k].key
    ensures AttrsOf(NamesOf(attrs)) == attrs
  {
    NamesAt(attrs);
  }

  lemma ElementsComeBack()
    ensures forall e :: e in {KeyEncryptor, KeyData, DataIntegrity, EncryptedKey} ==> ElementOf(ElementText(e)) == e
    ensures ElementOf("encryption") == OtherElement("encryption")
    ensures ElementOf("keyEncryptors") == OtherElement("keyEncryptors")
  {
  }

  lemma SharedComesBack(p: Crypto, q: Params, saltSize: nat, keyBits: nat, salt: Bytes)
    ensures AttrsOf(SharedPairs(p, q, saltSize, keyBits, salt)) == CipherAttributes(p, q, saltSize, keyBits, salt)
  {
    var attrs := CipherAttributes(p, q, saltSize, keyBits, salt);
    forall k | 0 <= k < |attrs|
      ensures KeyOf(KeyText(attrs[k].key)) == attrs[k].key
    {
      SharedKey(attrs[k].key);
    }
    SharedNames(p, q, saltSize, keyBits, salt);
    AttrsComeBack(attrs);
  }

  lemma PasswordComesBack(p: Crypto, q: Params, b: Blobs)
    ensures AttrsOf(PasswordPairs(p, q, b)) == PasswordAttributes(p, q, b)
  {
    var shared := SharedPairs(p, q, q.passwordSaltSize, q.passwordKeyBits, b.passwordSalt);
    SharedComesBack(p, q, q.passwordSaltSize, q.passwordKeyBits, b.passwordSalt);
    OwnKey(SpinCountKey);
    KeysComeBack(p, b);
    var first := [("spinCount", Decimal(q.spinCount))];
    AttrsJoin(first, shared);
    AttrsJoin(first + shared, KeyPairs(p, b));
  }

  lemma KeysComeBack(p: Crypto, b: Blobs)
    ensures AttrsOf(KeyPairs(p, b)) ==
      [ Attr(VerifierHashInput, p.base64(b.verifierInput)), Attr(VerifierHashValue, p.base64(b.verifierValue)),
        Attr(KeyValue, p.base64(b.keyValue)) ]
  {
    OwnKey(VerifierHashInput);
    OwnKey(VerifierHashValue);
    OwnKey(KeyValue);
  }

  lemma AttrsJoin(a: Pairs, b: Pairs)
    ensures AttrsOf(a + b) == AttrsOf(a) + AttrsOf(b)
  {
  }

  lemma OthersComeBack(p: Crypto, b: Blobs)
    ensures AttrsOf(RootPairs()) == ROOT_ATTRIBUTES && AttrsOf(IntegrityPairs(p, b)) == IntegrityAttributes(p, b)
    ensures AttrsOf(WrapperPairs()) == [Attr(Uri, URI_PASSWORD)] && AttrsOf([]) == []
  {
    SpacesAreOther();
    OwnKey(HmacKey);
    OwnKey(HmacValue);
    OwnKey(Uri);
  }

  lemma TagsComeBack(p: Crypto, q: Params, b: Blobs)
    ensures EventsOf(StoredTags(p, q, b)) == Document(p, q, b)
  {
    OthersComeBack(p, b);
    SharedComesBack(p, q, q.keyDataSaltSize, q.keyDataKeyBits, b.keyDataSalt);
    PasswordComesBack(p, q, b);
    ElementsComeBack();
    var d, events := Document(p, q, b), EventsOf(StoredTags(p, q, b));
    assert events[0] == d[0] && events[1] == d[1] && events[2] == d[2];
    assert events[3] == d[3] && events[4] == d[4] && events[5] == d[5];
    assert events[6] == d[6] && events[7] == d[7] && events[8] == d[8];
  }

  /** And so the events are in the stored bytes: nothing of the document is lost in the writing. */
  lemma EventsComeBack(p: Crypto, q: Params, b: Blobs)
    ensures EventsIn(Stream(Document(p, q, b))) == Some(Document(p, q, b))
  {
    StreamHoldsTheDocument(p, q, b);
    TagsComeBack(p, q, b);
  }
}
