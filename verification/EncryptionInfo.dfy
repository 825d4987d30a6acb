/**
 The agile `\EncryptionInfo` document: its events, its text, and the writer
 (`encryption_info.rs`). Names and attribute keys are already resolved; values are text.
 */
module EncryptionInfo {
  import opened Errors
  import opened Octets
  import opened Crypto
  import opened EncryptParams

  datatype AttrKey =
    | Uri | X509Certificate
    | SaltSizeKey | BlockSize | KeyBitsKey | HashSize | CipherAlgorithm | CipherChaining | HashName | SaltValue
    | SpinCountKey | VerifierHashInput | VerifierHashValue | KeyValue
    | HmacKey | HmacValue
    | OtherKey(name: string)

  datatype Attr = Attr(key: AttrKey, value: string)

  datatype Element = KeyEncryptor | KeyData | DataIntegrity | EncryptedKey | OtherElement(name: string)

  datatype XmlEvent =
    | Start(element: Element, attrs: seq<Attr>)
    | Empty(element: Element, attrs: seq<Attr>)
    | End(element: Element)
    | Text
    | Malformed

  // ----- numbers in attribute values -----

  function Decimal(n: nat): (s: string)
    ensures |s| > 0 && forall i :: 0 <= i < |s| ==> '0' <= s[i] <= '9'
    ensures n > 0 ==> s[0] != '0'
  {
    var digit := [(n % 10 + 48) as char];
    if n < 10 then digit else Decimal(n / 10) + digit
  }

  function Digits(s: string): Option<nat> {
    if s == "" then Some(0)
    else
      var last := s[|s| - 1];
      match Digits(s[..|s| - 1])
      case None => None
      case Some(high) => if '0' <= last <= '9' then Some(10 * high + (last as int - 48)) else None
  }

  /** `str::parse::<u32>`: an optional plus sign, at least one digit, and it must fit. */
  function ParseU32(s: string): Option<nat> {
    var digits := if s != "" && s[0] == '+' then s[1..] else s;
    if digits == "" then None
    else
      match Digits(digits)
      case Some(n) => if n < U32_LIMIT then Some(n) else None
      case None => None
  }

  function PowerOfTen(n: nat): nat {
    if n == 0 then 1 else 10 * PowerOfTen(n - 1)
  }

  predicate AllDigits(s: string) {
    forall i :: 0 <= i < |s| ==> '0' <= s[i] <= '9'
  }

  /** What a run of digits is worth, each at its own place. */
  function Worth(s: string): nat
    requires AllDigits(s)
  {
    if s == "" then 0 else (s[0] as int - '0' as int) * PowerOfTen(|s| - 1) + Worth(s[1..])
  }

  lemma {:induction false} WorthOfLast(s: string)
    requires s != "" && AllDigits(s)
    ensures Worth(s) == 10 * Worth(s[..|s| - 1]) + (s[|s| - 1] as int - '0' as int)
    decreases |s|
  {
    if |s| == 1 {
      assert s[1..] == "" && s[..0] == "" && PowerOfTen(0) == 1;
    } else {
      WorthOfLast(s[1..]);
      var head := s[..|s| - 1];
      assert s[1..][..|s| - 2] == head[1..] && head[0] == s[0];
      assert PowerOfTen(|s| - 1) == 10 * PowerOfTen(|s| - 2);
      TenTimes(s[0] as int - '0' as int, PowerOfTen(|s| - 2));
    }
  }

  lemma TenTimes(d: int, m: int)
    ensures d * (10 * m) == 10 * (d * m)
  {
  }

  lemma {:induction false} DigitsByPlace(s: string)
    ensures Digits(s) == if AllDigits(s) then Some(Worth(s)) else None
    decreases |s|
  {
    if s != "" {
      var head := s[..|s| - 1];
      DigitsByPlace(head);
      if AllDigits(s) {
        WorthOfLast(s);
      } else if AllDigits(head) {
        assert !('0' <= s[|s| - 1] <= '9');
      }
    }
  }

  /** A number is read from digits and nothing else, one plus sign in front aside, and never from none. */
  lemma NumberByPlace(s: string, digits: string, n: nat)
    requires digits == if s != "" && s[0] == '+' then s[1..] else s
    ensures ParseU32(s) == Some(n) <==>
      digits != "" && AllDigits(digits) && Worth(digits) == n && n < 0x1_0000_0000
  {
    DigitsByPlace(digits);
  }

  lemma {:induction false} DigitsOfDecimal(n: nat)
    ensures Digits(Decimal(n)) == Some(n)
  {
    var s := Decimal(n);
    if n < 10 {
      assert s[..|s| - 1] == "";
    } else {
      DigitsOfDecimal(n / 10);
      assert s[..|s| - 1] == Decimal(n / 10);
    }
  }

  lemma DecimalReadsBack(n: nat)
    requires n < U32_LIMIT
    ensures ParseU32(Decimal(n)) == Some(n)
  {
    DigitsOfDecimal(n);
  }

  // ----- the writer -----

  const SCHEMAS := "http://schemas.microsoft.com/" + "office/2006/"
  const URI_PASSWORD := SCHEMAS + "keyEncryptor/password"
  const URI_CERTIFICATE := SCHEMAS + "keyEncryptor/certificate"

  /** The seven byte strings the document carries beside the tuple. */
  datatype Blobs = Blobs(
    keyDataSalt: Bytes,
    passwordSalt: Bytes,
    hmacKey: Bytes,
    hmacValue: Bytes,
    verifierInput: Bytes,
    verifierValue: Bytes,
    keyValue: Bytes)
  {
    /** The lengths the tuple fixes, each from its own element. */
    predicate Sized(q: Params) {
      && |keyDataSalt| == q.keyDataSaltSize
      && |passwordSalt| == q.passwordSaltSize
      && |hmacKey| == |hmacValue| == |verifierValue| == RoundUp(q.hash.DigestLen())
      && |verifierInput| == RoundUp(q.passwordSaltSize)
      && |keyValue| == RoundUp(q.keyDataKeyBits / 8)
    }
  }

  function CipherAttributes(p: Crypto, q: Params, saltSize: nat, keyBits: nat, salt: Bytes): (a: seq<Attr>)
    ensures |a| == 8
  {
    [ Attr(SaltSizeKey, Decimal(saltSize)), Attr(BlockSize, Decimal(AES_BLOCK)),
      Attr(KeyBitsKey, Decimal(keyBits)), Attr(HashSize, Decimal(q.hash.DigestLen())),
      Attr(CipherAlgorithm, "AES"), Attr(CipherChaining, "ChainingModeCBC"),
      Attr(HashName, q.hash.Name()), Attr(SaltValue, p.base64(salt)) ]
  }

  function PasswordAttributes(p: Crypto, q: Params, b: Blobs): (a: seq<Attr>)
    ensures |a| == 12
  {
    [Attr(SpinCountKey, Decimal(q.spinCount))]
    + CipherAttributes(p, q, q.passwordSaltSize, q.passwordKeyBits, b.passwordSalt)
    + [ Attr(VerifierHashInput, p.base64(b.verifierInput)),
        Attr(VerifierHashValue, p.base64(b.verifierValue)),
        Attr(KeyValue, p.base64(b.keyValue)) ]
  }

  function IntegrityAttributes(p: Crypto, b: Blobs): seq<Attr> {
    [Attr(HmacKey, p.base64(b.hmacKey)), Attr(HmacValue, p.base64(b.hmacValue))]
  }

  const ROOT_ATTRIBUTES: seq<Attr> :=
    [ Attr(OtherKey("xmlns"), SCHEMAS + "encryption"),
      Attr(OtherKey("xmlns:p"), URI_PASSWORD),
      Attr(OtherKey("xmlns:c"), URI_CERTIFICATE) ]

  /** The document the writer formats, as the events a reader of it sees. */
  function Document(p: Crypto, q: Params, b: Blobs): (d: seq<XmlEvent>)
    ensures |d| == 9
  {
    [ Start(OtherElement("encryption"), ROOT_ATTRIBUTES),
      Empty(KeyData, CipherAttributes(p, q, q.keyDataSaltSize, q.keyDataKeyBits, b.keyDataSalt)),
      Empty(DataIntegrity, IntegrityAttributes(p, b)),
      Start(OtherElement("keyEncryptors"), []),
      Start(KeyEncryptor, [Attr(Uri, URI_PASSWORD)]),
      Empty(EncryptedKey, PasswordAttributes(p, q, b)),
      End(KeyEncryptor),
      End(OtherElement("keyEncryptors")),
      End(OtherElement("encryption")) ]
  }

  /** `write`: the tuple first, then the seven lengths, then the document. */
  function Write(p: Crypto, q: Params, b: Blobs): (r: Result<seq<XmlEvent>>)
    ensures r.Ok? <==> q.Writable() && b.Sized(q)
    ensures r.Ok? ==> r.value == Document(p, q, b)
    ensures r.Err? && q.Writable() ==> r.error == InvariantViolated(SerializedLength)
  {
    var _ :- q.Validate();
    if b.Sized(q) then Ok(Document(p, q, b)) else Err(InvariantViolated(SerializedLength))
  }

  // ----- the bytes of the stream -----

  function KeyText(key: AttrKey): string {
    match key
    case Uri => "uri"
    case X509Certificate => "X509Certificate"
    case SaltSizeKey => "saltSize"
    case BlockSize => "blockSize"
    case KeyBitsKey => "keyBits"
    case HashSize => "hashSize"
    case CipherAlgorithm => "cipherAlgorithm"
    case CipherChaining => "cipherChaining"
    case HashName => "hashAlgorithm"
    case SaltValue => "saltValue"
    case SpinCountKey => "spinCount"
    case VerifierHashInput => "encryptedVerifierHashInput"
    case VerifierHashValue => "encryptedVerifierHashValue"
    case KeyValue => "encryptedKeyValue"
    case HmacKey => "encryptedHmacKey"
    case HmacValue => "encryptedHmacValue"
    case OtherKey(name) => name
  }

  function ElementText(element: Element): string {
    match element
    case KeyEncryptor => "keyEncryptor"
    case KeyData => "keyData"
    case DataIntegrity => "dataIntegrity"
    case EncryptedKey => "p:encryptedKey"
    case OtherElement(name) => name
  }

  function AttrsText(attrs: seq<Attr>): string {
    if attrs == [] then ""
    else " " + KeyText(attrs[0].key) + "=\"" + attrs[0].value + "\"" + AttrsText(attrs[1..])
  }

  function EventText(event: XmlEvent): string {
    match event
    case Start(element, attrs) => "<" + ElementText(element) + AttrsText(attrs) + ">"
    case Empty(element, attrs) => "<" + ElementText(element) + AttrsText(attrs) + "/>"
    case End(element) => "</" + ElementText(element) + ">"
    case Text => ""
    case Malformed => ""
  }

  function EventsText(events: seq<XmlEvent>): string {
    if events == [] then "" else EventText(events[0]) + EventsText(events[1..])
  }

  const DECLARATION := "<?xml version=\"1.0\"" + " encoding=\"UTF-8\"" + " standalone=\"yes\"?>\r\n"

  /** ASCII text as the bytes it is stored in. */
  function Ascii(s: string): (b: Bytes)
    ensures |b| == |s|
  {
    seq(|s|, i requires 0 <= i < |s| => s[i] as int % 256)
  }

  /** The stream: version 4.4, the reserved word 0x40, and the XML. */
  function Stream(events: seq<XmlEvent>): Bytes {
    Le16(4) + Le16(4) + Le32(0x40) + Ascii(DECLARATION + EventsText(events))
  }

  // ----- same tuple and same blob lengths: same stream length -----

  predicate SameShape(a: seq<Attr>, b: seq<Attr>) {
    |a| == |b| && forall i :: 0 <= i < |a| ==> a[i].key == b[i].key && |a[i].value| == |b[i].value|
  }

  lemma {:induction false} SameShapeSameLength(a: seq<Attr>, b: seq<Attr>)
    requires SameShape(a, b)
    ensures |AttrsText(a)| == |AttrsText(b)|
  {
    if a != [] {
      SameShapeSameLength(a[1..], b[1..]);
    }
  }

  predicate SameEventShape(a: XmlEvent, b: XmlEvent) {
    match a
    case Start(element, attrs) => b.Start? && b.element == element && SameShape(attrs, b.attrs)
    case Empty(element, attrs) => b.Empty? && b.element == element && SameShape(attrs, b.attrs)
    case _ => a == b
  }

  lemma {:induction false} SameEventsSameLength(a: seq<XmlEvent>, b: seq<XmlEvent>)
    requires |a| == |b| && forall i :: 0 <= i < |a| ==> SameEventShape(a[i], b[i])
    ensures |EventsText(a)| == |EventsText(b)|
  {
    if a != [] {
      assert SameEventShape(a[0], b[0]);
      if a[0].Start? || a[0].Empty? {
        SameShapeSameLength(a[0].attrs, b[0].attrs);
      }
      SameEventsSameLength(a[1..], b[1..]);
    }
  }

  lemma SameCipherShape(p: Crypto, q: Params, saltSize: nat, keyBits: nat, salt: Bytes, salt': Bytes)
    requires |salt| == |salt'|
    ensures SameShape(CipherAttributes(p, q, saltSize, keyBits, salt), CipherAttributes(p, q, saltSize, keyBits, salt'))
  {
    assert p.TextLaws() && SameLength(salt, salt');
  }

  lemma SamePasswordShape(p: Crypto, q: Params, a: Blobs, b: Blobs)
    requires a.Sized(q) && b.Sized(q)
    ensures SameShape(PasswordAttributes(p, q, a), PasswordAttributes(p, q, b))
  {
    assert p.TextLaws() && SameLength(a.verifierInput, b.verifierInput);
    assert SameLength(a.verifierValue, b.verifierValue) && SameLength(a.keyValue, b.keyValue);
    SameCipherShape(p, q, q.passwordSaltSize, q.passwordKeyBits, a.passwordSalt, b.passwordSalt);
  }

  /** The document's length is a function of the tuple alone, whatever the blobs hold. */
  lemma LengthFollowsTheTuple(p: Crypto, q: Params, a: Blobs, b: Blobs)
    requires a.Sized(q) && b.Sized(q)
    ensures |Stream(Document(p, q, a))| == |Stream(Document(p, q, b))|
  {
    var d, e := Document(p, q, a), Document(p, q, b);
    forall i | 0 <= i < 9
      ensures SameEventShape(d[i], e[i])
    {
      SameCipherShape(p, q, q.keyDataSaltSize, q.keyDataKeyBits, a.keyDataSalt, b.keyDataSalt);
      SamePasswordShape(p, q, a, b);
      assert p.TextLaws() && SameLength(a.hmacKey, b.hmacKey) && SameLength(a.hmacValue, b.hmacValue);
    }
    SameEventsSameLength(d, e);
  }
}
