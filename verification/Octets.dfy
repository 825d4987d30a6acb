/** Byte strings, little-endian numbers and the padding rule. */
module Octets {
  import opened Errors

  type Byte = x: int | 0 <= x < 256
  type Bytes = seq<Byte>

  const U32_LIMIT: nat := 0x1_0000_0000

  /** Two, four and eight little-endian bytes; a larger number wraps, as a cast does. */
  function Le16(n: nat): (b: Bytes)
    ensures |b| == 2
  {
    [n % 256, n / 256 % 256]
  }

  function LeBytes(n: nat, width: nat): (b: Bytes)
    ensures |b| == width
  {
    if width == 0 then [] else [n % 256] + LeBytes(n / 256, width - 1)
  }

  function Le32(n: nat): (b: Bytes)
    ensures |b| == 4
  {
    LeBytes(n, 4)
  }

  function Le64(n: nat): (b: Bytes)
    ensures |b| == 8
  {
    Le32(n % U32_LIMIT) + Le32(n / U32_LIMIT)
  }

  function ReadLe16(b: Bytes, at: nat): Option<nat> {
    if at + 2 <= |b| then Some(b[at] as nat + 256 * b[at + 1] as nat) else None
  }

  function ReadLe32(b: Bytes, at: nat): (r: Option<nat>)
    ensures r.Some? <==> at + 4 <= |b|
    ensures r.Some? ==> r.value < U32_LIMIT
  {
    if at + 4 <= |b| then
      Some(b[at] as nat + 0x100 * b[at + 1] as nat + 0x1_0000 * b[at + 2] as nat + 0x100_0000 * b[at + 3] as nat)
    else
      None
  }

  function FromLe64(b: Bytes): nat
    requires |b| == 8
  {
    ReadLe32(b, 0).value + U32_LIMIT * ReadLe32(b, 4).value
  }

  /** A number in four bytes, the low one first. */
  function Counter(i: nat): Bytes {
    [i % 0x100, i / 0x100 % 0x100, i / 0x1_0000 % 0x100, i / 0x100_0000 % 0x100]
  }

  lemma FourBytes(n: nat)
    ensures Le32(n) == Counter(n)
  {
    var n1, n2, n3 := n / 0x100, n / 0x1_0000, n / 0x100_0000;
    assert n1 / 256 == n2 && n2 / 256 == n3;
    assert LeBytes(n3, 1) == [n3 % 256] + LeBytes(n3 / 256, 0) == [n3 % 256];
    assert LeBytes(n2, 2) == [n2 % 256] + LeBytes(n3, 1);
    assert LeBytes(n1, 3) == [n1 % 256] + LeBytes(n2, 2);
  }

  /** What was written little-endian at an offset is what is read there. */
  lemma ReadBack32(b: Bytes, at: nat, n: nat)
    requires at + 4 <= |b| && b[at..at + 4] == Le32(n) && n < U32_LIMIT
    ensures ReadLe32(b, at) == Some(n)
  {
    FourBytes(n);
    var s := b[at..at + 4];
    assert b[at] == s[0] && b[at + 1] == s[1] && b[at + 2] == s[2] && b[at + 3] == s[3];
    DigitsAddUp(n);
  }

  lemma DigitsAddUp(n: nat)
    requires n < U32_LIMIT
    ensures n ==
      n % 256 + 0x100 * (n / 0x100 % 256) + 0x1_0000 * (n / 0x1_0000 % 256) + 0x100_0000 * (n / 0x100_0000 % 256)
  {
    assert n / 0x100 / 0x100 == n / 0x1_0000 && n / 0x1_0000 / 0x100 == n / 0x100_0000;
  }

  lemma ReadBack16(b: Bytes, at: nat, n: nat)
    requires at + 2 <= |b| && b[at..at + 2] == Le16(n) && n < 0x1_0000
    ensures ReadLe16(b, at) == Some(n)
  {
    var s := b[at..at + 2];
    assert b[at] == s[0] && b[at + 1] == s[1];
  }

  /** And the bytes read as a number are the number's bytes. */
  lemma WriteBack32(b: Bytes, at: nat)
    requires at + 4 <= |b|
    ensures Le32(ReadLe32(b, at).value) == b[at..at + 4]
  {
    FourDigits(b[at], b[at + 1], b[at + 2], b[at + 3]);
    assert b[at..at + 4] == [b[at], b[at + 1], b[at + 2], b[at + 3]];
  }

  lemma WriteBack16(b: Bytes, at: nat)
    requires at + 2 <= |b|
    ensures Le16(ReadLe16(b, at).value) == b[at..at + 2]
  {
    assert b[at..at + 2] == [b[at], b[at + 1]];
  }

  lemma FourDigits(b0: nat, b1: nat, b2: nat, b3: nat)
    requires b0 < 256 && b1 < 256 && b2 < 256 && b3 < 256
    ensures Le32(b0 + 0x100 * b1 + 0x1_0000 * b2 + 0x100_0000 * b3) == [b0, b1, b2, b3]
  {
    LowDigit(b0, b1 + 0x100 * b2 + 0x1_0000 * b3, 3);
    LowDigit(b1, b2 + 0x100 * b3, 2);
    LowDigit(b2, b3, 1);
    LowDigit(b3, 0, 0);
  }

  lemma LowDigit(b: nat, m: nat, width: nat)
    requires b < 256
    ensures LeBytes(b + 0x100 * m, width + 1) == [b] + LeBytes(m, width)
  {
    assert (b + 0x100 * m) % 256 == b && (b + 0x100 * m) / 256 == m;
  }

  lemma ReadBack64(n: nat)
    requires n < U32_LIMIT * U32_LIMIT
    ensures FromLe64(Le64(n)) == n
  {
    var b := Le64(n);
    ReadBack32(b, 0, n % U32_LIMIT);
    ReadBack32(b, 4, n / U32_LIMIT);
  }

  function Zeros(n: nat): (z: Bytes)
    ensures |z| == n && forall i :: 0 <= i < n ==> z[i] == 0
  {
    seq(n, _ => 0)
  }

  /** `n` rounded up to a whole number of AES blocks. */
  function RoundUp(n: nat): (r: nat)
    ensures n <= r < n + 16 && r % 16 == 0
    ensures n % 16 == 0 ==> r == n
    ensures n <= 4096 ==> r <= 4096
  {
    (n + 15) / 16 * 16
  }

  lemma RoundUpAdds(a: nat, b: nat)
    requires a % 16 == 0
    ensures RoundUp(a + b) == a + RoundUp(b)
  {
    var r, s := RoundUp(a + b), a + RoundUp(b);
    assert (r - s) % 16 == 0 && -16 < r - s < 16;
  }

  function Pad(x: Bytes): (y: Bytes)
    ensures |y| == RoundUp(|x|) && x <= y
  {
    x + Zeros(RoundUp(|x|) - |x|)
  }

  function Min(a: nat, b: nat): nat {
    if a <= b then a else b
  }

  lemma Regroup(a: Bytes, b: Bytes, c: Bytes)
    ensures a + (b + c) == a + b + c
  {
  }

  lemma Ends(a: Bytes, b: Bytes)
    ensures (a + b)[..|a|] == a && (a + b)[|a|..] == b
  {
  }

  /** Two runs side by side in a slice, each in its own. */
  lemma Split(data: Bytes, at: nat, a: Bytes, b: Bytes)
    requires at + |a| + |b| <= |data| && data[at..at + |a| + |b|] == a + b
    ensures data[at..at + |a|] == a && data[at + |a|..at + |a| + |b|] == b
  {
    var slot := data[at..at + |a| + |b|];
    assert data[at..at + |a|] == slot[..|a|] == a;
    assert data[at + |a|..at + |a| + |b|] == slot[|a|..] == b;
  }

  lemma SplitTail(data: Bytes, at: nat, a: Bytes, b: Bytes)
    requires at <= |data| && data[at..] == a + b
    ensures at + |a| + |b| == |data| && data[at..at + |a|] == a && data[at + |a|..] == b
  {
    assert |data[at..]| == |data| - at;
    assert data[at..at + |a|] == data[at..][..|a|] && data[at + |a|..] == data[at..][|a|..];
  }

  lemma Join(b: Bytes, i: nat, j: nat, k: nat)
    requires i <= j <= k <= |b|
    ensures b[i..j] + b[j..k] == b[i..k]
  {
  }

  lemma SliceOfSlice(x: Bytes, a: nat, b: nat, c: nat, d: nat)
    requires a <= b <= |x| && c <= d <= b - a
    ensures x[a..b][c..d] == x[a + c..a + d]
  {
    var inner, outer := x[a..b][c..d], x[a + c..a + d];
    forall i | 0 <= i < d - c
      ensures inner[i] == outer[i]
    {
      assert inner[i] == x[a..b][c + i] == x[a + c + i];
    }
    assert inner == outer;
  }

  function Concat(ws: seq<Bytes>): Bytes {
    if ws == [] then [] else ws[0] + Concat(ws[1..])
  }

  /** Where each of a run of blocks starts, and where the last one ends. */
  function Starts(at: nat, ws: seq<Bytes>): (ats: seq<nat>)
    ensures |ats| == |ws| + 1 && ats[0] == at && ats[|ws|] == at + |Concat(ws)|
    decreases |ws|
  {
    if ws == [] then [at] else [at] + Starts(at + |ws[0]|, ws[1..])
  }

  lemma {:induction false} BlockLies(b: Bytes, at: nat, ws: seq<Bytes>, i: nat)
    requires at + |Concat(ws)| <= |b| && b[at..at + |Concat(ws)|] == Concat(ws) && i < |ws|
    ensures
      var ats := Starts(at, ws);
      ats[i + 1] == ats[i] + |ws[i]| <= |b| && b[ats[i]..ats[i + 1]] == ws[i]
    decreases |ws|
  {
    Split(b, at, ws[0], Concat(ws[1..]));
    if i > 0 {
      BlockLies(b, at + |ws[0]|, ws[1..], i - 1);
    }
  }

  /** The pieces a stream came in, the latest last. */
  datatype Pieces = Nothing | Then(before: Pieces, last: Bytes) {

    function Count(): nat {
      match this
      case Nothing => 0
      case Then(before, _) => before.Count() + 1
    }

    function At(i: nat): Bytes
      requires i < Count()
    {
      if i == before.Count() then last else before.At(i)
    }

    /** The pieces as one byte string. */
    function Joined(): Bytes {
      match this
      case Nothing => []
      case Then(before, last) => before.Joined() + last
    }
  }

  /** At most the first `n` bytes. */
  function Take(x: Bytes, n: nat): (y: Bytes)
    ensures |y| == Min(n, |x|) && y <= x
  {
    x[..Min(n, |x|)]
  }

  /** Cutting a growing stream to a declared length, one addition at a time. */
  lemma TakeMore(x: Bytes, more: Bytes, n: nat)
    ensures Take(x + more, n) == Take(x, n) + Take(more, n - Min(n, |x|))
  {
  }
}
