/** `parse_encryption_info`: the event loop and the screening of what it collected. */
module AgileParser {
  import opened Errors
  import opened Octets
  import opened Crypto
  import opened EncryptParams
  import opened EncryptionInfo
  import BlockKeys

  /** Which of the two `encryptedKey` elements the one being read is. */
  datatype Encryptor = Password | Certificate | Unstated

  /** The attributes both elements define; each element keeps its own. */
  datatype CipherAttrs = CipherAttrs(
    saltValue: Option<Bytes>,
    saltSize: Option<nat>,
    blockSize: Option<nat>,
    hashSize: Option<nat>,
    keyBits: Option<nat>,
    hashName: Option<string>,
    cipher: Option<string>,
    chaining: Option<string>)

  datatype PasswordAttrs = PasswordAttrs(
    shared: CipherAttrs,
    spinCount: Option<nat>,
    verifierInput: Option<Bytes>,
    verifierValue: Option<Bytes>,
    keyValue: Option<Bytes>)

  datatype IntegrityAttrs = IntegrityAttrs(hmacKey: Option<Bytes>, hmacValue: Option<Bytes>)

  datatype ParseState = ParseState(
    keyData: CipherAttrs,
    password: PasswordAttrs,
    integrity: IntegrityAttrs,
    sawIntegrity: bool,
    current: Encryptor,
    sawPassword: bool,
    sawCertificate: bool)

  const NO_CIPHER := CipherAttrs(None, None, None, None, None, None, None, None)
  const NO_PASSWORD := PasswordAttrs(NO_CIPHER, None, None, None, None)
  const INITIAL := ParseState(NO_CIPHER, NO_PASSWORD, IntegrityAttrs(None, None), false, Unstated, false, false)

  datatype Integrity = Integrity(encryptedHmacKey: Bytes, encryptedHmacValue: Bytes)

  /** What a screened file declares. Both `blockSize`s are pinned to the AES block. */
  datatype AgileParams = AgileParams(
    outerSalt: Bytes,
    innerSalt: Bytes,
    spinCount: nat,
    keyBits: nat,
    encryptedKeyValue: Bytes,
    encryptedVerifierHashInput: Bytes,
    encryptedVerifierHashValue: Bytes,
    dataIntegrity: Option<Integrity>,
    keyDataHash: HashAlgorithm,
    keyDataKeyBits: nat,
    keyDataHashSize: Option<nat>,
    passwordHash: HashAlgorithm,
    passwordSaltSize: nat)
  {
    /** What every later step relies on, and no step checks again by refusing the file. */
    predicate Screened() {
      && AllowedKeyBits(keyBits) && AllowedKeyBits(keyDataKeyBits)
      && passwordHash.CanCarryKeyBits(keyBits)
      && spinCount <= SPIN_COUNT_MAX
      && SALT_SIZE_MIN <= |outerSalt| <= SALT_SIZE_MAX
      && SALT_SIZE_MIN <= |innerSalt| <= SALT_SIZE_MAX
      && passwordSaltSize == |innerSalt|
      && |encryptedKeyValue| == RoundUp(keyDataKeyBits / 8)
      && (keyDataHashSize.Some? ==> keyDataHashSize.value == keyDataHash.DigestLen())
    }
  }

  // ----- attribute values -----

  function B64Attr(p: Crypto, value: string): Result<Bytes> {
    match p.unbase64(value)
    case Some(bytes) => Ok(bytes)
    case None => Err(XmlParse(BadBase64))
  }

  function U32Attr(value: string): Result<nat> {
    match ParseU32(value)
    case Some(n) => Ok(n)
    case None => Err(XmlParse(BadInteger))
  }

  function CipherAttr(p: Crypto, c: CipherAttrs, a: Attr): Result<CipherAttrs> {
    match a.key
    case SaltValue => var v :- B64Attr(p, a.value); Ok(c.(saltValue := Some(v)))
    case SaltSizeKey => var v :- U32Attr(a.value); Ok(c.(saltSize := Some(v)))
    case BlockSize => var v :- U32Attr(a.value); Ok(c.(blockSize := Some(v)))
    case HashSize => var v :- U32Attr(a.value); Ok(c.(hashSize := Some(v)))
    case KeyBitsKey => var v :- U32Attr(a.value); Ok(c.(keyBits := Some(v)))
    case HashName => Ok(c.(hashName := Some(a.value)))
    case CipherAlgorithm => Ok(c.(cipher := Some(a.value)))
    case CipherChaining => Ok(c.(chaining := Some(a.value)))
    case _ => Ok(c)
  }

  function PasswordAttr(p: Crypto, w: PasswordAttrs, a: Attr): Result<PasswordAttrs> {
    match a.key
    case SpinCountKey => var v :- U32Attr(a.value); Ok(w.(spinCount := Some(v)))
    case VerifierHashInput => var v :- B64Attr(p, a.value); Ok(w.(verifierInput := Some(v)))
    case VerifierHashValue => var v :- B64Attr(p, a.value); Ok(w.(verifierValue := Some(v)))
    case KeyValue => var v :- B64Attr(p, a.value); Ok(w.(keyValue := Some(v)))
    case _ => var c :- CipherAttr(p, w.shared, a); Ok(w.(shared := c))
  }

  function IntegrityAttr(p: Crypto, d: IntegrityAttrs, a: Attr): Result<IntegrityAttrs> {
    match a.key
    case HmacKey => var v :- B64Attr(p, a.value); Ok(d.(hmacKey := Some(v)))
    case HmacValue => var v :- B64Attr(p, a.value); Ok(d.(hmacValue := Some(v)))
    case _ => Ok(d)
  }

  function UriKind(kind: Encryptor, a: Attr): Encryptor {
    if a.key != Uri then kind
    else if a.value == URI_PASSWORD then Password
    else if a.value == URI_CERTIFICATE then Certificate
    else Unstated
  }

  /** One attribute of an element, folded into the state. */
  function AttrStep(p: Crypto, st: ParseState, element: Element, a: Attr): Result<ParseState> {
    match element
    case KeyEncryptor => Ok(st.(current := UriKind(st.current, a)))
    case KeyData => var c :- CipherAttr(p, st.keyData, a); Ok(st.(keyData := c))
    case DataIntegrity => var d :- IntegrityAttr(p, st.integrity, a); Ok(st.(integrity := d))
    case EncryptedKey => var w :- PasswordAttr(p, st.password, a); Ok(st.(password := w))
    case OtherElement(_) => Ok(st)
  }

  function AttrsFrom(p: Crypto, st: ParseState, element: Element, attrs: seq<Attr>, k: nat): Result<ParseState>
    requires k <= |attrs|
    decreases |attrs| - k
  {
    if k == |attrs| then Ok(st)
    else
      var st' :- AttrStep(p, st, element, attrs[k]);
      AttrsFrom(p, st', element, attrs, k + 1)
  }

  /** Attributes that are numbers, each on the elements it belongs to. */
  predicate IsNumber(element: Element, key: AttrKey) {
    || (key in {SaltSizeKey, BlockSize, KeyBitsKey, HashSize} && element in {KeyData, EncryptedKey})
    || (key == SpinCountKey && element == EncryptedKey)
  }

  /** And those that are base64. */
  predicate IsBase64(element: Element, key: AttrKey) {
    || (key == SaltValue && element in {KeyData, EncryptedKey})
    || (key in {VerifierHashInput, VerifierHashValue, KeyValue} && element == EncryptedKey)
    || (key in {HmacKey, HmacValue} && element == DataIntegrity)
  }

  /** An attribute is refused exactly when it does not read as what its element takes it for. */
  lemma RefusedExactly(p: Crypto, st: ParseState, element: Element, a: Attr)
    ensures
      var r := AttrStep(p, st, element, a);
      && (r == Err(XmlParse(BadInteger)) <==> IsNumber(element, a.key) && ParseU32(a.value).None?)
      && (r == Err(XmlParse(BadBase64)) <==> IsBase64(element, a.key) && p.unbase64(a.value).None?)
      && (r.Err? ==> r.error == XmlParse(BadInteger) || r.error == XmlParse(BadBase64))
  {
  }

  // ----- events -----

  predicate HasCertificateAttr(attrs: seq<Attr>) {
    exists i :: 0 <= i < |attrs| && attrs[i].key == X509Certificate
  }

  /** Whether an `encryptedKey` seen under `kind` is the certificate one. */
  predicate IsCertificate(kind: Encryptor, attrs: seq<Attr>) {
    match kind
    case Certificate => true
    case Password => false
    case Unstated => HasCertificateAttr(attrs)
  }

  /** What opening `element` does before its attributes are read; `None` skips them. */
  function OpenElement(st: ParseState, element: Element, attrs: seq<Attr>): Result<(ParseState, bool)> {
    match element
    case KeyEncryptor => Ok((st.(current := Unstated), true))
    case DataIntegrity => Ok((st.(sawIntegrity := true), true))
    case EncryptedKey =>
      if IsCertificate(st.current, attrs) then Ok((st.(sawCertificate := true), false))
      else if st.sawPassword then Err(BadParameters(PasswordKeyEncryptor, Duplicate))
      else Ok((st.(sawPassword := true), true))
    case _ => Ok((st, true))
  }

  function Step(p: Crypto, st: ParseState, event: XmlEvent): Result<ParseState> {
    match event
    case Malformed => Err(XmlParse(Syntax))
    case Text => Ok(st)
    case End(element) => Ok(if element == KeyEncryptor then st.(current := Unstated) else st)
    case _ =>
      var (st', readAttrs) :- OpenElement(st, event.element, event.attrs);
      if readAttrs then AttrsFrom(p, st', event.element, event.attrs, 0) else Ok(st')
  }

  function Run(p: Crypto, st: ParseState, events: seq<XmlEvent>): Result<ParseState>
    decreases |events|
  {
    if events == [] then Ok(st)
    else
      var st' :- Step(p, st, events[0]);
      Run(p, st', events[1..])
  }

  // ----- screening -----

  function Require<T>(declared: Option<T>, field: FileField): (r: Result<T>)
    ensures r.Ok? <==> declared.Some?
    ensures r.Ok? ==> r.value == declared.value
    ensures r.Err? ==> r.error == BadParameters(field, Missing)
  {
    match declared
    case Some(v) => Ok(v)
    case None => Err(BadParameters(field, Missing))
  }

  function ResolveHash(declared: Option<string>, field: FileField): Result<HashAlgorithm> {
    var name :- Require(declared, field);
    match ParseHash(name)
    case Some(hash) => Ok(hash)
    case None => Err(UnsupportedAlgorithm("hashAlgorithm"))
  }

  function RequireAesCbc(cipher: Option<string>, chaining: Option<string>, cipherField: FileField,
                         chainingField: FileField)
    : Result<()>
  {
    var cipher :- Require(cipher, cipherField);
    if cipher != "AES" then Err(UnsupportedAlgorithm("cipherAlgorithm"))
    else
      var chaining :- Require(chaining, chainingField);
      if chaining != "ChainingModeCBC" then Err(UnsupportedAlgorithm("cipherChaining")) else Ok(())
  }

  function CheckDeclaredKeyBits(declared: Option<nat>, field: FileField): (r: Result<nat>)
    ensures r.Ok? <==> declared.Some? && AllowedKeyBits(declared.value)
    ensures r.Ok? ==> r.value == declared.value
  {
    var bits :- Require(declared, field);
    if AllowedKeyBits(bits) then Ok(bits) else Err(BadParameters(field, NotInSet(bits)))
  }

  function CheckBlockSize(declared: Option<nat>, field: FileField): (r: Result<nat>)
    ensures r.Ok? <==> declared == Some(AES_BLOCK)
  {
    var size :- Require(declared, field);
    if size != AES_BLOCK then Err(BadParameters(field, NotRequiredValue(size, AES_BLOCK))) else Ok(size)
  }

  function CheckHashSize(declared: nat, hash: HashAlgorithm, field: FileField): (r: Result<()>)
    ensures r.Ok? <==> declared == hash.DigestLen()
  {
    if declared != hash.DigestLen() then Err(BadParameters(field, DigestMismatch(declared))) else Ok(())
  }

  function CheckDeclaredSaltSize(declared: Option<nat>, salt: Bytes, field: FileField): (r: Result<nat>)
    ensures r.Ok? <==> declared == Some(|salt|) && SALT_SIZE_MIN <= |salt| <= SALT_SIZE_MAX
    ensures r.Ok? ==> r.value == |salt|
  {
    var size :- Require(declared, field);
    if size < SALT_SIZE_MIN || size > SALT_SIZE_MAX then
      Err(BadParameters(field, OutOfRange(size, SALT_SIZE_MIN, SALT_SIZE_MAX)))
    else if size != |salt| then
      Err(BadParameters(field, Disagrees(size, |salt|)))
    else
      Ok(size)
  }

  function CheckSpinCount(declared: Option<nat>): (r: Result<nat>)
    ensures r.Ok? <==> declared.Some? && declared.value <= SPIN_COUNT_MAX
    ensures r.Ok? ==> r.value == declared.value
  {
    var count :- Require(declared, FileField.SpinCount);
    if count > SPIN_COUNT_MAX then
      Err(BadParameters(FileField.SpinCount, OutOfRange(count, 0, SPIN_COUNT_MAX)))
    else
      Ok(count)
  }

  /** A half-written `<dataIntegrity>` is malformed, not absent. */
  function FinishIntegrity(st: ParseState): Result<Option<Integrity>> {
    if !st.sawIntegrity then Ok(None)
    else if st.integrity.hmacKey.None? then Err(BadParameters(EncryptedHmacKey, Missing))
    else if st.integrity.hmacValue.None? then Err(BadParameters(EncryptedHmacValue, Missing))
    else Ok(Some(Integrity(st.integrity.hmacKey.value, st.integrity.hmacValue.value)))
  }

  datatype KeyDataScreen = KeyDataScreen(hash: HashAlgorithm, keyBits: nat, salt: Bytes)

  function ScreenKeyData(c: CipherAttrs): (r: Result<KeyDataScreen>)
    ensures r.Ok? ==>
      && AllowedKeyBits(r.value.keyBits) && SALT_SIZE_MIN <= |r.value.salt| <= SALT_SIZE_MAX
      && (c.hashSize.Some? ==> c.hashSize.value == r.value.hash.DigestLen())
    ensures r.Err? ==> !r.error.Internal()
  {
    var hash :- ResolveHash(c.hashName, KeyDataHashAlgorithm);
    var _ :- RequireAesCbc(c.cipher, c.chaining, KeyDataCipherAlgorithm, KeyDataCipherChaining);
    var keyBits :- CheckDeclaredKeyBits(c.keyBits, KeyDataKeyBits);
    var _ :- CheckBlockSize(c.blockSize, KeyDataBlockSize);
    var salt :- Require(c.saltValue, KeyDataSaltValue);
    var _ :- CheckDeclaredSaltSize(c.saltSize, salt, KeyDataSaltSize);
    var _ :- if c.hashSize.Some? then CheckHashSize(c.hashSize.value, hash, KeyDataHashSize) else Ok(());
    Ok(KeyDataScreen(hash, keyBits, salt))
  }

  datatype PasswordScreen = PasswordScreen(hash: HashAlgorithm, salt: Bytes, saltSize: nat)

  function ScreenPassword(c: CipherAttrs): (r: Result<PasswordScreen>)
    ensures r.Ok? ==> r.value.saltSize == |r.value.salt| && SALT_SIZE_MIN <= |r.value.salt| <= SALT_SIZE_MAX
    ensures r.Err? ==> !r.error.Internal()
  {
    var hash :- ResolveHash(c.hashName, EncryptedKeyHashAlgorithm);
    var _ :- RequireAesCbc(c.cipher, c.chaining, EncryptedKeyCipherAlgorithm, EncryptedKeyCipherChaining);
    var hashSize :- Require(c.hashSize, EncryptedKeyHashSize);
    var _ :- CheckHashSize(hashSize, hash, EncryptedKeyHashSize);
    var _ :- CheckBlockSize(c.blockSize, EncryptedKeyBlockSize);
    var salt :- Require(c.saltValue, EncryptedKeySaltValue);
    var saltSize :- CheckDeclaredSaltSize(c.saltSize, salt, EncryptedKeySaltSize);
    Ok(PasswordScreen(hash, salt, saltSize))
  }

  /** The three blobs, once both elements are screened. */
  function FinishKeys(w: PasswordAttrs, integrity: Option<Integrity>, spinCount: nat, keyBits: nat,
                      hashSize: Option<nat>, outer: KeyDataScreen, inner: PasswordScreen)
    : (r: Result<AgileParams>)
    requires spinCount <= SPIN_COUNT_MAX && AllowedKeyBits(keyBits) && AllowedKeyBits(outer.keyBits)
    requires SALT_SIZE_MIN <= |outer.salt| <= SALT_SIZE_MAX && SALT_SIZE_MIN <= |inner.salt| <= SALT_SIZE_MAX
    requires inner.saltSize == |inner.salt| && (hashSize.Some? ==> hashSize.value == outer.hash.DigestLen())
    ensures r.Ok? ==> r.value.Screened()
    ensures r.Err? ==> !r.error.Internal()
  {
    if !inner.hash.CanCarryKeyBits(keyBits) then Err(BlockKeys.UnusableKeyBits(keyBits))
    else
      var keyValue :- Require(w.keyValue, EncryptedKeyValue);
      var wrapped := RoundUp(outer.keyBits / 8);
      if |keyValue| != wrapped then
        Err(BadParameters(EncryptedKeyValue, Disagrees(|keyValue|, wrapped)))
      else
        var verifierInput :- Require(w.verifierInput, EncryptedVerifierHashInput);
        var verifierValue :- Require(w.verifierValue, EncryptedVerifierHashValue);
        Ok(AgileParams(
          outer.salt, inner.salt, spinCount, keyBits, keyValue, verifierInput, verifierValue,
          integrity, outer.hash, outer.keyBits, hashSize, inner.hash, inner.saltSize))
  }

  function Finish(st: ParseState): (r: Result<AgileParams>)
    ensures r.Ok? ==> r.value.Screened()
    ensures r.Err? ==> !r.error.Internal()
  {
    if st.sawCertificate && !st.sawPassword then Err(XmlParse(OnlyCertificateEncryptors))
    else
      var integrity :- FinishIntegrity(st);
      var w := st.password;
      var spinCount :- CheckSpinCount(w.spinCount);
      var keyBits :- CheckDeclaredKeyBits(w.shared.keyBits, EncryptedKeyKeyBits);
      var outer :- ScreenKeyData(st.keyData);
      var inner :- ScreenPassword(w.shared);
      FinishKeys(w, integrity, spinCount, keyBits, st.keyData.hashSize, outer, inner)
  }

  // ----- what is accepted, without the order of the checks -----

  /** What either element must declare, `hashSize` excepted. */
  predicate Declares(c: CipherAttrs) {
    && c.hashName.Some? && ParseHash(c.hashName.value).Some?
    && c.cipher == Some("AES") && c.chaining == Some("ChainingModeCBC") && c.blockSize == Some(AES_BLOCK)
    && c.saltValue.Some? && c.saltSize == Some(|c.saltValue.value|)
    && SALT_SIZE_MIN <= |c.saltValue.value| <= SALT_SIZE_MAX
    && c.keyBits.Some? && AllowedKeyBits(c.keyBits.value)
  }

  /** Each element's own requirements, and the two that join them. */
  predicate Acceptable(st: ParseState) {
    var outer, inner, w := st.keyData, st.password.shared, st.password;
    && (st.sawCertificate ==> st.sawPassword)
    && (st.sawIntegrity ==> st.integrity.hmacKey.Some? && st.integrity.hmacValue.Some?)
    && Declares(outer)
    && (outer.hashSize.Some? ==> outer.hashSize.value == ParseHash(outer.hashName.value).value.DigestLen())
    && Declares(inner) && inner.hashSize == Some(ParseHash(inner.hashName.value).value.DigestLen())
    && w.spinCount.Some? && w.spinCount.value <= SPIN_COUNT_MAX
    && ParseHash(inner.hashName.value).value.CanCarryKeyBits(inner.keyBits.value)
    && w.keyValue.Some? && |w.keyValue.value| == RoundUp(outer.keyBits.value / 8)
    && w.verifierInput.Some? && w.verifierValue.Some?
  }

  /** The parameters are accepted exactly then, and each comes from its own element. */
  lemma AcceptsExactly(st: ParseState)
    ensures Finish(st).Ok? <==> Acceptable(st)
    ensures Acceptable(st) ==>
      var outer, inner, w := st.keyData, st.password.shared, st.password;
      Finish(st) == Ok(AgileParams(
        outer.saltValue.value, inner.saltValue.value, w.spinCount.value, inner.keyBits.value,
        w.keyValue.value, w.verifierInput.value, w.verifierValue.value,
        if st.sawIntegrity then Some(Integrity(st.integrity.hmacKey.value, st.integrity.hmacValue.value)) else None,
        ParseHash(outer.hashName.value).value, outer.keyBits.value, outer.hashSize,
        ParseHash(inner.hashName.value).value, |inner.saltValue.value|))
  {
    KeyDataExactly(st.keyData);
    var bits := st.password.shared.keyBits;
    if bits.Some? && AllowedKeyBits(bits.value) {
      PasswordExactly(st.password.shared);
    }
  }

  lemma KeyDataExactly(c: CipherAttrs)
    ensures ScreenKeyData(c).Ok? <==>
      Declares(c) && (c.hashSize.Some? ==> c.hashSize.value == ParseHash(c.hashName.value).value.DigestLen())
    ensures ScreenKeyData(c).Ok? ==>
      ScreenKeyData(c) == Ok(KeyDataScreen(ParseHash(c.hashName.value).value, c.keyBits.value, c.saltValue.value))
  {
    assert ResolveHash(c.hashName, KeyDataHashAlgorithm).Ok? <==> c.hashName.Some? && ParseHash(c.hashName.value).Some?;
  }

  lemma PasswordExactly(c: CipherAttrs)
    requires c.keyBits.Some? && AllowedKeyBits(c.keyBits.value)
    ensures ScreenPassword(c).Ok? <==>
      Declares(c) && c.hashSize == Some(ParseHash(c.hashName.value).value.DigestLen())
    ensures ScreenPassword(c).Ok? ==>
      ScreenPassword(c) == Ok(PasswordScreen(ParseHash(c.hashName.value).value, c.saltValue.value, |c.saltValue.value|))
  {
    assert ResolveHash(c.hashName, EncryptedKeyHashAlgorithm).Ok? <==>
      c.hashName.Some? && ParseHash(c.hashName.value).Some?;
  }

  /** What the parser answers for a document, as a function of its events. */
  function Parse(p: Crypto, events: seq<XmlEvent>): Result<AgileParams> {
    var st :- Run(p, INITIAL, events);
    Finish(st)
  }

  /** The event loop itself. */
  method ParseEncryptionInfo(p: Crypto, events: seq<XmlEvent>) returns (r: Result<AgileParams>)
    ensures r == Parse(p, events)
  {
    var st := INITIAL;
    for i := 0 to |events|
      invariant Run(p, st, events[i..]) == Run(p, INITIAL, events)
    {
      var event := events[i];
      assert events[i..][0] == event && events[i..][1..] == events[i + 1..];
      match event {
        case Malformed => return Err(XmlParse(Syntax));
        case Text =>
        case End(element) =>
          if element == KeyEncryptor {
            st := st.(current := Unstated);
          }
        case _ =>
          var opening := OpenElement(st, event.element, event.attrs);
          if opening.Err? {
            return Err(opening.error);
          }
          st := opening.value.0;
          if opening.value.1 {
            ghost var before := st;
            for k := 0 to |event.attrs|
              invariant AttrsFrom(p, st, event.element, event.attrs, k) ==
                AttrsFrom(p, before, event.element, event.attrs, 0)
            {
              var next := AttrStep(p, st, event.element, event.attrs[k]);
              if next.Err? {
                return Err(next.error);
              }
              st := next.value;
            }
          }
      }
    }
    r := Finish(st);
  }
}
