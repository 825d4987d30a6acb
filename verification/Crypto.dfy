/**
 The cryptographic primitives, as unknown functions of which only the laws the format
 relies on are known, and what `hash.rs` and `agile.rs` compute with them.
 */
module Crypto {
  import opened Errors
  import opened Octets

  datatype HashAlgorithm = Sha1 | Sha256 | Sha384 | Sha512 {

    function DigestLen(): nat {
      match this
      case Sha1 => 20
      case Sha256 => 32
      case Sha384 => 48
      case Sha512 => 64
    }

    /** A block key of `keyBits` can be cut from the digest without padding it. */
    predicate CanCarryKeyBits(keyBits: nat) {
      keyBits / 8 <= DigestLen()
    }

    function Name(): string {
      match this
      case Sha1 => "SHA1"
      case Sha256 => "SHA256"
      case Sha384 => "SHA384"
      case Sha512 => "SHA512"
    }
  }

  function ParseHash(name: string): Option<HashAlgorithm> {
    if name == "SHA1" || name == "SHA-1" then Some(Sha1)
    else if name == "SHA256" || name == "SHA-256" then Some(Sha256)
    else if name == "SHA384" || name == "SHA-384" then Some(Sha384)
    else if name == "SHA512" || name == "SHA-512" then Some(Sha512)
    else None
  }

  const AES_BLOCK: nat := 16

  predicate AesKey(key: Bytes) {
    |key| == 16 || |key| == 24 || |key| == 32
  }

  ghost predicate AesReady(key: Bytes, iv: Bytes, x: Bytes) {
    AesKey(key) && |iv| == AES_BLOCK && |x| % AES_BLOCK == 0
  }

  ghost predicate SameLength(x: Bytes, y: Bytes) {
    |x| == |y|
  }

  /** Letters, digits, plus, slash and the padding sign. */
  predicate Base64Text(s: string) {
    forall i :: 0 <= i < |s| ==>
      || 'A' <= s[i] <= 'Z' || 'a' <= s[i] <= 'z' || '0' <= s[i] <= '9'
      || s[i] == '+' || s[i] == '/' || s[i] == '='
  }

  datatype Primitives = Primitives(
    encrypt: (Bytes, Bytes, Bytes) -> Bytes,
    decrypt: (Bytes, Bytes, Bytes) -> Bytes,
    digest: (HashAlgorithm, Bytes) -> Bytes,
    mac: (HashAlgorithm, Bytes, Bytes) -> Bytes,
    base64: Bytes -> string,
    unbase64: string -> Option<Bytes>)
  {
    /** The cipher keeps lengths, and decryption undoes encryption. */
    ghost predicate CipherLaws() {
      forall key, iv, x {:trigger AesReady(key, iv, x)} :: AesReady(key, iv, x) ==>
        && |encrypt(key, iv, x)| == |x|
        && |decrypt(key, iv, x)| == |x|
        && decrypt(key, iv, encrypt(key, iv, x)) == x
    }

    ghost predicate DigestLaws() {
      && (forall h, x :: |digest(h, x)| == h.DigestLen())
      && (forall h, key, x :: |mac(h, key, x)| == h.DigestLen())
    }

    /** Base64 text has the length its bytes have, keeps to its alphabet, and decodes to them. */
    ghost predicate TextLaws() {
      && (forall x, y {:trigger SameLength(x, y)} :: SameLength(x, y) ==> |base64(x)| == |base64(y)|)
      && (forall x :: Base64Text(base64(x)))
      && (forall x :: unbase64(base64(x)) == Some(x))
    }

    ghost predicate Lawful() {
      CipherLaws() && DigestLaws() && TextLaws()
    }
  }

  /** Any primitives that obey the laws. The toy below shows that some do. */
  type Crypto = p: Primitives | p.Lawful() witness (ToyIsLawful(); Toy())

  /** Two letters a byte, the high half first. */
  function ToyText(x: Bytes): string {
    seq(2 * |x|, i requires 0 <= i < 2 * |x| => ToyLetter(if i % 2 == 0 then x[i / 2] / 16 else x[i / 2] % 16))
  }

  function ToyLetter(n: nat): (c: char)
    requires n < 16
    ensures 'A' <= c <= 'P'
  {
    ('A' as int + n) as char
  }

  function ToyBytes(s: string): Option<Bytes> {
    if |s| % 2 == 0 && forall i :: 0 <= i < |s| ==> 'A' <= s[i] <= 'P' then
      Some(seq<Byte>(|s| / 2, i requires 0 <= i < |s| / 2 && 'A' <= s[2 * i] <= 'P' && 'A' <= s[2 * i + 1] <= 'P' =>
        16 * (s[2 * i] as int - 'A' as int) + (s[2 * i + 1] as int - 'A' as int)))
    else
      None
  }

  function Toy(): Primitives {
    Primitives(
      (key: Bytes, iv: Bytes, x: Bytes) => x,
      (key: Bytes, iv: Bytes, x: Bytes) => x,
      (h: HashAlgorithm, x: Bytes) => Zeros(h.DigestLen()),
      (h: HashAlgorithm, key: Bytes, x: Bytes) => Zeros(h.DigestLen()),
      x => ToyText(x),
      s => ToyBytes(s))
  }

  lemma ToyIsLawful()
    ensures Toy().Lawful()
  {
    ToyTextLaws();
    assert Toy().CipherLaws();
    assert Toy().DigestLaws();
  }

  lemma ToyTextLaws()
    ensures Toy().TextLaws()
  {
    forall x: Bytes
      ensures Toy().unbase64(Toy().base64(x)) == Some(x)
    {
      ToyTextReadsBack(x);
    }
  }

  lemma ToyTextReadsBack(x: Bytes)
    ensures ToyBytes(ToyText(x)) == Some(x)
  {
    var s := ToyText(x);
    assert forall i :: 0 <= i < |s| ==> 'A' <= s[i] <= 'P';
    forall i | 0 <= i < |x|
      ensures ToyBytes(s).value[i] == x[i]
    {
      assert s[2 * i] == ToyLetter(x[i] / 16) && s[2 * i + 1] == ToyLetter(x[i] % 16);
    }
    assert ToyBytes(s).value == x;
  }

  /** The four hashes by their names in a file, their digest lengths, and nothing else. */
  lemma HashesByName(name: string)
    ensures ParseHash(name) == Some(Sha1) <==> name in {"SHA1", "SHA-1"}
    ensures ParseHash(name) == Some(Sha256) <==> name in {"SHA256", "SHA-256"}
    ensures ParseHash(name) == Some(Sha384) <==> name in {"SHA384", "SHA-384"}
    ensures ParseHash(name) == Some(Sha512) <==> name in {"SHA512", "SHA-512"}
    ensures Sha1.Name() == "SHA1" && Sha256.Name() == "SHA256" && Sha384.Name() == "SHA384" && Sha512.Name() == "SHA512"
    ensures
      && Sha1.DigestLen() == 20 && Sha256.DigestLen() == 32 && Sha384.DigestLen() == 48 && Sha512.DigestLen() == 64
  {
    assert "SHA1"[3] != "SHA-1"[3] && "SHA256"[3] != "SHA-256"[3];
    assert |"SHA1"| == 4 && |"SHA-1"| == 5 && |"SHA256"| == 6 && |"SHA-256"| == 7;
    assert "SHA256"[3] != "SHA384"[3] && "SHA256"[3] != "SHA512"[3] && "SHA384"[3] != "SHA512"[3];
    assert "SHA-256"[4] != "SHA-384"[4] && "SHA-256"[4] != "SHA-512"[4] && "SHA-384"[4] != "SHA-512"[4];
  }

  // ----- hash.rs -----

  function DigestTwo(p: Crypto, hash: HashAlgorithm, first: Bytes, second: Bytes): (d: Bytes)
    ensures |d| == hash.DigestLen()
  {
    p.digest(hash, first + second)
  }

  /** The HMAC of a whole message. */
  function DigestMac(p: Crypto, hash: HashAlgorithm, key: Bytes, message: Bytes): (tag: Bytes)
    ensures |tag| == hash.DigestLen()
  {
    p.mac(hash, key, message)
  }

  /** Section 2.3.4.12 of [MS-OFFCRYPTO], last step: pad with 0x36 or truncate. */
  function FitIv(bytes: Bytes, blockSize: nat): (iv: Bytes)
    ensures |iv| == blockSize
    ensures forall i :: 0 <= i < blockSize ==> iv[i] == if i < |bytes| then bytes[i] else 0x36
  {
    if |bytes| >= blockSize then bytes[..blockSize]
    else bytes + seq(blockSize - |bytes|, _ => 0x36)
  }

  function DeriveIv(p: Crypto, hash: HashAlgorithm, salt: Bytes, suffix: Bytes, blockSize: nat): (r: Result<Bytes>)
    ensures r.Ok? <==> blockSize <= hash.DigestLen()
    ensures r.Ok? ==> |r.value| == blockSize
    ensures r.Err? ==> r.error == InvariantViolated(BlockSizeOverDigest)
  {
    var digest := DigestTwo(p, hash, salt, suffix);
    if |digest| < blockSize then Err(InvariantViolated(BlockSizeOverDigest))
    else Ok(FitIv(digest, blockSize))
  }

  /** `H(salt || suffix)` cut to an AES block: every IV `<keyData>` seeds. */
  function Iv(p: Crypto, hash: HashAlgorithm, salt: Bytes, suffix: Bytes): (iv: Bytes)
    ensures DeriveIv(p, hash, salt, suffix, AES_BLOCK) == Ok(iv)
    ensures |iv| == AES_BLOCK
  {
    DigestTwo(p, hash, salt, suffix)[..AES_BLOCK]
  }

  /** `digest_two_into`: the digest, truncated to the slot, written over the slot. */
  method DigestTwoInto(p: Crypto, hash: HashAlgorithm, first: Bytes, second: Bytes, out: array<Byte>)
    requires out.Length <= hash.DigestLen()
    modifies out
    ensures out[..] == DigestTwo(p, hash, first, second)[..out.Length]
  {
    var digest := DigestTwo(p, hash, first, second);
    forall i | 0 <= i < out.Length {
      out[i] := digest[i];
    }
  }

  /** An HMAC in progress: a function of everything it has been fed, in order. */
  class HmacState {
    const hash: HashAlgorithm
    const key: Bytes
    var fed: Bytes

    constructor (hash: HashAlgorithm, key: Bytes)
      ensures this.hash == hash && this.key == key && fed == []
    {
      this.hash, this.key, fed := hash, key, [];
    }

    method Update(data: Bytes)
      modifies this
      ensures fed == old(fed) + data
    {
      fed := fed + data;
    }

    function Finalize(p: Crypto): (tag: Bytes)
      reads this
      ensures |tag| == hash.DigestLen()
    {
      p.mac(hash, key, fed)
    }
  }
}
