/** The caller's tuple and the rules it is judged by: `encrypt_params.rs` and `limits.rs`. */
module EncryptParams {
  import opened Errors
  import opened Octets
  import opened Crypto

  const ST_KEY_BITS_MIN: nat := 8
  const SALT_SIZE_MIN: nat := 1
  const SALT_SIZE_MAX: nat := 65536
  const SPIN_COUNT_MAX: nat := 10_000_000
  const AGILE_KEY_BITS_ALLOWED: seq<nat> := [128, 192, 256]

  predicate AllowedKeyBits(bits: nat) {
    bits == 128 || bits == 192 || bits == 256
  }

  function Distance(a: nat, b: nat): nat {
    if a <= b then b - a else a - b
  }

  /** The accepted size nearest the one asked for, the larger of two equally near. */
  function NearestKeyBits(requested: nat): (n: nat)
    ensures AllowedKeyBits(n)
    ensures forall c: nat :: AllowedKeyBits(c) ==>
      Distance(n, requested) < Distance(c, requested) || (Distance(n, requested) == Distance(c, requested) && c <= n)
  {
    if requested < 160 then 128 else if requested < 224 then 192 else 256
  }

  method NearestSupportedKeyBits(requested: nat) returns (nearest: nat)
    ensures nearest == NearestKeyBits(requested)
  {
    nearest := AGILE_KEY_BITS_ALLOWED[0];
    for i := 0 to |AGILE_KEY_BITS_ALLOWED|
      invariant nearest == if i <= 1 || requested < 160 then 128 else if i == 2 || requested < 224 then 192 else 256
    {
      var candidate := AGILE_KEY_BITS_ALLOWED[i];
      if Distance(candidate, requested) <= Distance(nearest, requested) {
        nearest := candidate;
      }
    }
  }

  datatype Params = Params(
    spinCount: nat,
    hash: HashAlgorithm,
    keyDataKeyBits: nat,
    passwordKeyBits: nat,
    keyDataSaltSize: nat,
    passwordSaltSize: nat)
  {
    /** Every number fits the `u32` it is held in. */
    predicate U32() {
      && spinCount < U32_LIMIT && keyDataKeyBits < U32_LIMIT && passwordKeyBits < U32_LIMIT
      && keyDataSaltSize < U32_LIMIT && passwordSaltSize < U32_LIMIT
    }

    /** What a writable tuple is, stated without the order of the checks. */
    predicate Writable() {
      && AllowedKeyBits(keyDataKeyBits) && AllowedKeyBits(passwordKeyBits)
      && hash.CanCarryKeyBits(passwordKeyBits)
      && SALT_SIZE_MIN <= keyDataSaltSize <= SALT_SIZE_MAX
      && SALT_SIZE_MIN <= passwordSaltSize <= SALT_SIZE_MAX
      && spinCount <= SPIN_COUNT_MAX
    }

    function Validate(): (r: Result<()>)
      ensures r.Ok? <==> Writable()
      ensures r.Err? ==> r.error.EncryptParams?
    {
      var _ :- CheckKeyBits(keyDataKeyBits);
      var _ :- CheckKeyBits(passwordKeyBits);
      var _ :- CheckPair(hash, passwordKeyBits);
      var _ :- CheckSaltSize(keyDataSaltSize);
      var _ :- CheckSaltSize(passwordSaltSize);
      if spinCount > SPIN_COUNT_MAX then
        Err(Error.EncryptParams(SpinCountParam, OutsideSpecRange, spinCount, 0, SPIN_COUNT_MAX))
      else
        Ok(())
    }
  }

  /** A tuple is written exactly within these numbers. */
  lemma WritableByNumbers(q: Params)
    ensures q.Validate().Ok? <==>
      && q.keyDataKeyBits in {128, 192, 256}
      && q.passwordKeyBits in (if q.hash == Sha1 then {128} else {128, 192, 256})
      && 1 <= q.keyDataSaltSize <= 65536 && 1 <= q.passwordSaltSize <= 65536 && q.spinCount <= 10_000_000
  {
  }

  function CheckKeyBits(bits: nat): (r: Result<()>)
    ensures r.Ok? <==> AllowedKeyBits(bits)
    ensures r.Err? ==> r.error.EncryptParams? && r.error.param == KeyBits && r.error.least == r.error.most
    ensures r.Err? ==> AllowedKeyBits(r.error.least)
    ensures r.Err? ==> (r.error.refusal == OutsideSpecRange <==> bits < ST_KEY_BITS_MIN || bits % 8 != 0)
  {
    if bits < ST_KEY_BITS_MIN || bits % 8 != 0 then
      Err(Error.EncryptParams(KeyBits, OutsideSpecRange, bits, NearestKeyBits(bits), NearestKeyBits(bits)))
    else if !AllowedKeyBits(bits) then
      Err(Error.EncryptParams(KeyBits, UnsupportedByCipher, bits, NearestKeyBits(bits), NearestKeyBits(bits)))
    else
      Ok(())
  }

  /** The pair check names the largest accepted size the hash can carry. */
  function CheckPair(hash: HashAlgorithm, bits: nat): (r: Result<()>)
    ensures r.Ok? <==> hash.CanCarryKeyBits(bits)
    ensures r.Err? ==> r.error.EncryptParams? && hash.CanCarryKeyBits(r.error.least) && AllowedKeyBits(r.error.least)
    ensures r.Err? ==> forall c: nat :: AllowedKeyBits(c) && hash.CanCarryKeyBits(c) ==> c <= r.error.least
  {
    if hash.CanCarryKeyBits(bits) then Ok(())
    else
      var most := if hash.CanCarryKeyBits(256) then 256 else if hash.CanCarryKeyBits(192) then 192 else 128;
      Err(Error.EncryptParams(KeyBitsWithHash, UnusableCombination, bits, most, most))
  }

  function CheckSaltSize(size: nat): (r: Result<()>)
    ensures r.Ok? <==> SALT_SIZE_MIN <= size <= SALT_SIZE_MAX
    ensures r.Err? ==> r.error.EncryptParams?
  {
    if size < SALT_SIZE_MIN || size > SALT_SIZE_MAX then
      Err(Error.EncryptParams(SaltSize, OutsideSpecRange, size, SALT_SIZE_MIN, SALT_SIZE_MAX))
    else
      Ok(())
  }
}
