/** What the binary formats do with RC4 and XOR obfuscation: `rc4.rs`, `xor_obfuscation.rs`. */
module LegacyCiphers {
  import opened Errors
  import opened Octets

  // ----- byte arithmetic -----

  function Pow2(n: nat): (r: nat)
    ensures r > 0
  {
    if n == 0 then 1 else 2 * Pow2(n - 1)
  }

  function XorBits(n: nat, a: nat, k: nat): (r: nat)
    ensures r < Pow2(n)
  {
    if n == 0 then 0 else (a + k) % 2 + 2 * XorBits(n - 1, a / 2, k / 2)
  }

  lemma {:induction false} XorBitsUndone(n: nat, a: nat, k: nat)
    requires a < Pow2(n)
    ensures XorBits(n, XorBits(n, a, k), k) == a
  {
    if n > 0 {
      XorBitsUndone(n - 1, a / 2, k / 2);
      LowBit(XorBits(n - 1, a / 2, k / 2), a, k);
    }
  }

  lemma LowBit(high: nat, a: nat, k: nat)
    ensures ((a + k) % 2 + 2 * high) / 2 == high
    ensures ((a + k) % 2 + 2 * high + k) % 2 == a % 2
  {
    assert (a + k) % 2 == (a % 2 + k % 2) % 2;
  }

  const BITS: nat := 8

  function Xor(a: Byte, k: Byte): Byte {
    assert Pow2(8) == 256;
    XorBits(BITS, a, k)
  }

  lemma XorUndone(a: Byte, k: Byte)
    ensures Xor(Xor(a, k), k) == a
  {
    assert Pow2(8) == 256;
    XorBitsUndone(BITS, a, k);
  }

  lemma Halves(n: nat, a: nat, k: nat)
    requires n > 0
    ensures XorBits(n, a, k) / 2 == XorBits(n - 1, a / 2, k / 2)
    ensures XorBits(n, a, k) % 2 == if a % 2 == k % 2 then 0 else 1
  {
    LowBitOfSum(a, k);
    BitInFront((a + k) % 2, XorBits(n - 1, a / 2, k / 2));
  }

  lemma LowBitOfSum(a: nat, k: nat)
    ensures (a + k) % 2 == if a % 2 == k % 2 then 0 else 1
  {
  }

  lemma BitInFront(bit: nat, high: nat)
    requires bit < 2
    ensures (bit + 2 * high) / 2 == high && (bit + 2 * high) % 2 == bit
  {
  }

  /** A bit of the result is set exactly when the two bits it is made of differ. */
  lemma {:induction false} XorBitByBit(n: nat, a: nat, k: nat, bit: nat)
    requires bit < n
    ensures XorBits(n, a, k) / Pow2(bit) % 2 == if a / Pow2(bit) % 2 == k / Pow2(bit) % 2 then 0 else 1
  {
    Halves(n, a, k);
    if bit > 0 {
      XorBitByBit(n - 1, a / 2, k / 2, bit - 1);
      HalvedFirst(XorBits(n, a, k), Pow2(bit - 1));
      HalvedFirst(a, Pow2(bit - 1));
      HalvedFirst(k, Pow2(bit - 1));
    }
  }

  lemma HalvedFirst(x: nat, m: nat)
    requires m > 0
    ensures x / (2 * m) == x / 2 / m
  {
    var q, r := x / (2 * m), x % (2 * m);
    assert x == q * (2 * m) + r;
    assert x / 2 == q * m + r / 2 && r / 2 < m;
    Quotient(x / 2, m, q, r / 2);
  }

  lemma Quotient(x: nat, m: nat, q: nat, r: nat)
    requires x == q * m + r && r < m
    ensures x / m == q
  {
    assert x / m * m <= x < (x / m + 1) * m;
    Cancel(x / m, q + 1, m);
    Cancel(q, x / m + 1, m);
  }

  lemma Cancel(a: nat, b: nat, m: nat)
    requires m > 0
    ensures a * m < b * m ==> a < b
  {
    if a >= b {
      assert a * m == b * m + (a - b) * m;
    }
  }

  /** The eight bits of the byte, by their weights. */
  lemma XorOfBytes(a: Byte, k: Byte, w: nat)
    requires w in {1, 2, 4, 8, 16, 32, 64, 128}
    ensures Xor(a, k) / w % 2 == if a / w % 2 == k / w % 2 then 0 else 1
  {
    var bit :=
      if w == 1 then 0 else if w == 2 then 1 else if w == 4 then 2 else if w == 8 then 3
      else if w == 16 then 4 else if w == 32 then 5 else if w == 64 then 6 else 7;
    assert Pow2(8) == 256;
    assert Pow2(bit) == w;
    XorBitByBit(BITS, a, k, bit);
  }

  /** `rotate_right(5)` and its inverse on one byte. */
  function RotateRight5(a: Byte): Byte {
    a / 32 + a % 32 * 8
  }

  function RotateLeft5(a: Byte): Byte {
    a % 8 * 32 + a / 8
  }

  lemma RotationUndone(a: Byte)
    ensures RotateRight5(RotateLeft5(a)) == a
  {
    var l := RotateLeft5(a);
    assert a == a / 8 * 8 + a % 8 && a / 8 < 32;
    assert l / 32 == a % 8 && l % 32 == a / 8;
  }

  /** The low five bits end up above the high three. */
  lemma RotationSwaps(high: nat, low: nat)
    requires high < 8 && low < 32
    ensures RotateRight5(32 * high + low) == 8 * low + high
  {
  }

  // ----- RC4 -----

  /** A key schedule: the key of each block, and RC4's keystream under a key. */
  datatype Schedule = Schedule(keys: nat -> Bytes, rc4: (Bytes, nat) -> Byte) {

    /** `Keystream::new` takes the block's key. */
    predicate Takes(block: nat) {
      5 <= |keys(block)| <= 16
    }

    /** It takes every key the schedule can derive. */
    ghost predicate Keyable() {
      forall block: nat :: block < U32_LIMIT ==> Takes(block)
    }

    function keystream(block: nat, i: nat): Byte {
      rc4(keys(block), i)
    }

    /** The keystream of one block over a run of bytes; its own inverse. */
    function Keyed(data: Bytes, block: nat): (out: Bytes)
      ensures |out| == |data|
    {
      seq<Byte>(|data|, i requires 0 <= i < |data| => Xor(data[i], keystream(block, i)))
    }

    lemma KeyedTwice(data: Bytes, block: nat)
      ensures Keyed(Keyed(data, block), block) == data
    {
      forall i | 0 <= i < |data|
        ensures Keyed(Keyed(data, block), block)[i] == data[i]
      {
        XorUndone(data[i], keystream(block, i));
      }
    }

    /** The byte at an offset of a stream whose 1024-byte blocks each have their own keystream. */
    function At(i: nat): Byte {
      keystream(i / 1024, i % 1024)
    }
  }

  /** One keystream over a run, from its start; a key of a length RC4 is not used with is refused. */
  method ApplyKeystream(schedule: Schedule, data: array<Byte>, from: nat, to: nat, block: nat) returns (r: Result<()>)
    requires from <= to <= data.Length
    modifies data
    ensures r == if schedule.Takes(block) then Ok(()) else Err(InvariantViolated(Rc4KeyLength))
    ensures r.Ok? ==> forall i :: from <= i < to ==> data[i] == Xor(old(data[i]), schedule.keystream(block, i - from))
    ensures forall i :: 0 <= i < data.Length && (r.Err? || !(from <= i < to)) ==> data[i] == old(data[i])
  {
    if !schedule.Takes(block) {
      return Err(InvariantViolated(Rc4KeyLength));
    }
    forall i | from <= i < to {
      data[i] := Xor(data[i], schedule.keystream(block, i - from));
    }
    return Ok(());
  }

  /**
   `decrypt_in_blocks` at Excel's 1024 bytes: a fresh keystream at every boundary, numbered
   from the start of the stream. A block number that does not fit its `u32` is refused.
   */
  method DecryptInBlocks(schedule: Schedule, data: array<Byte>) returns (r: Result<()>)
    modifies data
    ensures r.Ok? <==>
      data.Length <= U32_LIMIT * 1024 && forall block: nat :: 1024 * block < data.Length ==> schedule.Takes(block)
    ensures r.Err? ==> r.error == InvariantViolated(CounterOverflow) || r.error == InvariantViolated(Rc4KeyLength)
    ensures r == Err(InvariantViolated(Rc4KeyLength)) ==> !schedule.Keyable()
    ensures r.Ok? ==> forall i :: 0 <= i < data.Length ==> data[i] == Xor(old(data[i]), schedule.At(i))
  {
    var block, from := 0, 0;
    while from < data.Length
      invariant from == Min(block * 1024, data.Length)
      invariant block <= U32_LIMIT && forall b: nat :: b < block ==> schedule.Takes(b)
      invariant forall i :: 0 <= i < from ==> data[i] == Xor(old(data[i]), schedule.At(i))
      invariant forall i :: from <= i < data.Length ==> data[i] == old(data[i])
      decreases data.Length - from
    {
      if block >= U32_LIMIT {
        return Err(InvariantViolated(CounterOverflow));
      }
      var to := Min(from + 1024, data.Length);
      var applied := ApplyKeystream(schedule, data, from, to, block);
      if applied.Err? {
        assert 1024 * block < data.Length && !schedule.Takes(block);
        return Err(applied.error);
      }
      block, from := block + 1, to;
    }
    return Ok(());
  }

  // ----- XOR obfuscation, method 1 -----

  /** The password's array, and the two words the file stores for it. */
  datatype Obfuscator = Obfuscator(pad: Bytes, key: nat, verifier: nat) {

    predicate Sized() {
      |pad| == 16 && key < 0x1_0000 && verifier < 0x1_0000
    }

    function Opened(b: Byte, index: nat): Byte
      requires Sized()
    {
      RotateRight5(Xor(b, pad[index % 16]))
    }

    /** Section 2.3.7.3 of [MS-OFFCRYPTO], the writing direction. */
    function Closed(b: Byte, index: nat): Byte
      requires Sized()
    {
      Xor(RotateLeft5(b), pad[index % 16])
    }

    lemma OpenedClosed(b: Byte, index: nat)
      requires Sized()
      ensures Opened(Closed(b, index), index) == b
    {
      XorUndone(RotateLeft5(b), pad[index % 16]);
      RotationUndone(b);
    }

    /** Both words are compared; either one wrong is a wrong password. */
    function Verify(fileKey: nat, fileVerifier: nat): Result<()> {
      if key == fileKey && verifier == fileVerifier then Ok(()) else Err(WrongPassword)
    }
  }

  method Deobfuscate(o: Obfuscator, data: array<Byte>, from: nat, to: nat, index: nat)
    requires o.Sized() && from <= to <= data.Length
    modifies data
    ensures forall i :: from <= i < to ==> data[i] == o.Opened(old(data[i]), index + (i - from))
    ensures forall i :: 0 <= i < data.Length && !(from <= i < to) ==> data[i] == old(data[i])
  {
    forall i | from <= i < to {
      data[i] := o.Opened(data[i], index + (i - from));
    }
  }
}
