/** Results and the error vocabulary shared by every component. */
module Errors {

  datatype Option<+T> = None | Some(value: T)

  datatype Result<+T> = Ok(value: T) | Err(error: Error) {

    predicate IsFailure() {
      Err?
    }

    function PropagateFailure<U>(): Result<U>
      requires Err?
    {
      Err(error)
    }

    function Extract(): T
      requires Ok?
    {
      value
    }
  }

  /** Faults of the program itself: no input is supposed to reach one. */
  datatype Invariant =
    | AesKeyLength
    | AesIvLength
    | BlockSizeOverDigest
    | CounterOverflow
    | RewriteLength
    | Rc4KeyLength
    | InternalSlice
    | PlaceholderLength
    | SerializedLength

  datatype FileField =
    | KeyDataSaltValue | KeyDataSaltSize | KeyDataBlockSize | KeyDataHashSize | KeyDataKeyBits
    | KeyDataHashAlgorithm | KeyDataCipherAlgorithm | KeyDataCipherChaining
    | EncryptedKeySaltValue | EncryptedKeySaltSize | EncryptedKeyBlockSize | EncryptedKeyHashSize
    | EncryptedKeyKeyBits | EncryptedKeyHashAlgorithm | EncryptedKeyCipherAlgorithm
    | EncryptedKeyCipherChaining
    | SpinCount | EncryptedKeyValue | EncryptedVerifierHashInput | EncryptedVerifierHashValue
    | EncryptedHmacKey | EncryptedHmacValue | PasswordKeyEncryptor
    | SessionKey | EncryptedPackageSize
    | BiffRecord | WorkbookBof | Filepass | FilepassEncryptionType | EncryptionVersionInfo
    | Rc4Office97Header | EncryptionInfoStructure | EncryptionHeaderSize | EncryptionHeaderFlags
    | EncryptionHeaderKeySize | EncryptionVerifier | VerifierSaltSize | VerifierHashSize
    | SummaryStream | SummaryDescriptorArray | SummaryDescriptorCount | SummaryDescriptor
    | SummaryStreamName | SummaryStreamExtent

  datatype FileProblem =
    | Missing
    | Duplicate
    | Overlaps
    | Unterminated
    | OutOfRange(got: nat, min: nat, max: nat)
    | OutOfBounds(offset: nat, len: nat, end: nat)
    | Disagrees(found: nat, expected: nat)
    | DigestMismatch(declared: nat)
    | NotRequiredValue(actual: nat, required: nat)
    | NotInSet(value: nat)
    | FlagClear
    | Truncated(have: nat, need: nat)
    | OutOfOrder(afterRecord: nat)
    | Unreadable(at: nat)

  datatype XmlFault = Syntax | BadBase64 | BadInteger | OnlyCertificateEncryptors

  datatype IoFault = Failed | UnexpectedEof | InvalidData | AlreadyExists

  datatype EncryptParam = KeyBits | KeyBitsWithHash | SaltSize | SpinCountParam

  datatype EncryptParamProblem = OutsideSpecRange | UnsupportedByCipher | UnusableCombination

  datatype Error =
    | Io(fault: IoFault)
    | XmlParse(xml: XmlFault)
    | BadParameters(field: FileField, problem: FileProblem)
    | UnsupportedAlgorithm(what: string)
    | UnsupportedEncryptionVersion(major: nat, minor: nat)
    | UnsupportedEncryptedContent
    | WrongPassword
    | NotEncrypted
    | IntegrityElementMissing
    | IntegrityCheckFailed
    | MissingStream(name: string)
    | StreamTooLarge(limit: nat)
    | PackageTooLarge(len: nat, max: nat)
    | EncryptParams(param: EncryptParam, refusal: EncryptParamProblem, got: nat, least: nat, most: nat)
    | RandomSource
    | CipherError
    | InvariantViolated(broken: Invariant)
  {
    /** The refusals that would be a bug of the program rather than a fact about the input. */
    predicate Internal() {
      || InvariantViolated?
      || CipherError?
      || (BadParameters? && field == SessionKey)
    }
  }
}
