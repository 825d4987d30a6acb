/**
 A stream of BIFF records as a writer lays it out, and what the walks make of it by the
 record types alone: sections 2.1.4, 2.1.7.20 and 2.2.10 of [MS-XLS].
 */
module RecordStreams {
  import opened Errors
  import opened Octets
  import opened Biff

  datatype Chunk = Chunk(id: nat, body: Bytes)

  predicate Formed(cs: seq<Chunk>) {
    forall k :: 0 <= k < |cs| ==> cs[k].id < 0x1_0000 && |cs[k].body| < 0x1_0000
  }

  /** A type, a length and a body, one record after the other. */
  function Wire(cs: seq<Chunk>): Bytes {
    if cs == [] then [] else WireOne(cs[0]) + Wire(cs[1..])
  }

  function WireOne(c: Chunk): (b: Bytes)
    ensures |b| == 4 + |c.body|
  {
    [c.id % 256, c.id / 256 % 256, |c.body| % 256, |c.body| / 256 % 256] + c.body
  }

  /** Where the records of a stream that starts at an offset lie. */
  function Laid(cs: seq<Chunk>, at: nat): (rs: seq<Record>)
    ensures |rs| == |cs| && forall k :: 0 <= k < |rs| ==> rs[k].id == cs[k].id
    decreases |cs|
  {
    if cs == [] then []
    else [Record(cs[0].id, at + 4, at + 4 + |cs[0].body|)] + Laid(cs[1..], at + 4 + |cs[0].body|)
  }

  lemma FirstRecord(before: Bytes, c: Chunk, after: Bytes)
    requires c.id < 0x1_0000 && |c.body| < 0x1_0000
    ensures RecordOf(before + WireOne(c) + after, |before|)
      == Some(Record(c.id, |before| + 4, |before| + 4 + |c.body|))
  {
    var b, at, w := before + WireOne(c) + after, |before|, WireOne(c);
    assert b[at] == w[0] && b[at + 1] == w[1] && b[at + 2] == w[2] && b[at + 3] == w[3];
  }

  /** The strict walk reads back every stream that is written. */
  lemma {:induction false} WalkReadsBack(before: Bytes, cs: seq<Chunk>)
    requires Formed(cs)
    ensures Walk(before + Wire(cs), |before|) == Walked(Laid(cs, |before|), None)
    decreases |cs|
  {
    if cs == [] {
      assert before + Wire(cs) == before;
    } else {
      var more := before + WireOne(cs[0]);
      WalkReadsBack(more, cs[1..]);
      OneMoreWalked(before, cs, more);
    }
  }

  lemma {:induction false} OneMoreWalked(before: Bytes, cs: seq<Chunk>, more: Bytes)
    requires cs != [] && Formed(cs) && more == before + WireOne(cs[0])
    requires Walk(more + Wire(cs[1..]), |more|) == Walked(Laid(cs[1..], |more|), None)
    ensures Walk(before + Wire(cs), |before|) == Walked(Laid(cs, |before|), None)
  {
    var c, rest := cs[0], Wire(cs[1..]);
    Regroup(before, WireOne(c), rest);
    FirstRecord(before, c, rest);
    WalkMore(more + rest, |before|, Record(c.id, |before| + 4, |more|), Laid(cs[1..], |more|));
  }

  lemma WalkMore(book: Bytes, pos: nat, first: Record, rest: seq<Record>)
    requires pos < |book| && RecordOf(book, pos) == Some(first) && Walk(book, first.end) == Walked(rest, None)
    ensures Walk(book, pos) == Walked([first] + rest, None)
  {
  }

  lemma OneIsWritten(book: Bytes, pos: nat, r: Record)
    requires RecordOf(book, pos) == Some(r)
    ensures r.id < 0x1_0000 && r.end - r.start < 0x1_0000
    ensures book[pos..] == WireOne(Chunk(r.id, book[r.start..r.end])) + book[r.end..]
  {
    var w := WireOne(Chunk(r.id, book[r.start..r.end]));
    assert w[..4] == [book[pos], book[pos + 1], book[pos + 2], book[pos + 3]];
    assert w[..4] == book[pos..pos + 4] && w[4..] == book[pos + 4..r.end];
    assert w == book[pos..r.end];
  }

  /** And whatever it walks over cleanly was written like that. */
  lemma {:induction false} WalkedIsWritten(book: Bytes, pos: nat) returns (cs: seq<Chunk>)
    requires pos <= |book| && Walk(book, pos).stop.None?
    ensures Formed(cs) && book[pos..] == Wire(cs)
    decreases |book| - pos
  {
    if pos == |book| {
      cs := [];
    } else {
      var r := RecordOf(book, pos).value;
      var c := Chunk(r.id, book[r.start..r.end]);
      var rest := WalkedIsWritten(book, r.end);
      cs := [c] + rest;
      OneIsWritten(book, pos, r);
      assert cs[1..] == rest;
    }
  }

  // ----- what a stream is taken for -----

  /** Record `k` is the first FILEPASS. */
  predicate FirstAt(cs: seq<Chunk>, k: nat) {
    k < |cs| && cs[k].id == 0x002F && forall j :: 0 <= j < k ==> cs[j].id != 0x002F
  }

  /** Record `j` is one a writer has to encrypt. */
  predicate StrayAt(cs: seq<Chunk>, j: nat) {
    j < |cs| && cs[j].id !in {0x0809, 0x002F, 0x00E1, 0x0138, 0x0194, 0x0195, 0x0196}
  }

  /** Every record before `k` is of a type that stays in the clear, and none is a FILEPASS. */
  predicate ClearBefore(cs: seq<Chunk>, k: nat) {
    k <= |cs| && forall i :: 0 <= i < k ==> cs[i].id in {0x0809, 0x00E1, 0x0138, 0x0194, 0x0195, 0x0196}
  }

  lemma {:induction false} FilepassIsFirst(cs: seq<Chunk>, at: nat, k: nat)
    requires k < |cs| && cs[k].id == 0x002F && forall j :: 0 <= j < k ==> cs[j].id != 0x002F
    ensures FirstFilepass(Laid(cs, at)) == Some(Laid(cs, at)[k])
    decreases |cs|
  {
    if k > 0 {
      FilepassIsFirst(cs[1..], at + 4 + |cs[0].body|, k - 1);
    }
  }

  lemma {:induction false} NoFilepass(cs: seq<Chunk>, at: nat)
    requires forall j :: 0 <= j < |cs| ==> cs[j].id != 0x002F
    ensures FirstFilepass(Laid(cs, at)).None?
    decreases |cs|
  {
    if cs != [] {
      NoFilepass(cs[1..], at + 4 + |cs[0].body|);
    }
  }

  /** The first stray before any FILEPASS is the one that is named. */
  lemma {:induction false} StrayIsFirst(cs: seq<Chunk>, at: nat, j: nat)
    requires StrayAt(cs, j) && ClearBefore(cs, j)
    ensures FirstStray(Laid(cs, at)) == Some(cs[j].id)
    decreases |cs|
  {
    if j > 0 {
      assert StrayAt(cs[1..], j - 1) && ClearBefore(cs[1..], j - 1);
      StrayIsFirst(cs[1..], at + 4 + |cs[0].body|, j - 1);
    }
  }

  lemma {:induction false} NoStray(cs: seq<Chunk>, at: nat, k: nat)
    requires ClearBefore(cs, k) && (k < |cs| ==> cs[k].id == 0x002F)
    ensures FirstStray(Laid(cs, at)).None?
    decreases |cs|
  {
    if k > 0 {
      assert ClearBefore(cs[1..], k - 1);
      NoStray(cs[1..], at + 4 + |cs[0].body|, k - 1);
    }
  }

  lemma ScreenOfWire(cs: seq<Chunk>)
    requires Formed(cs)
    ensures Walk(Wire(cs), 0) == Walked(Laid(cs, 0), None)
  {
    WalkReadsBack([], cs);
    assert [] + Wire(cs) == Wire(cs);
  }

  /** Every stream of records, by its types. A BOF, clear records and a FILEPASS: encrypted, and by that record. */
  lemma {:induction false} EncryptedByTypes(cs: seq<Chunk>, k: nat)
    requires Formed(cs) && cs != [] && cs[0].id == 0x0809 && ClearBefore(cs, k) && k < |cs| && cs[k].id == 0x002F
    ensures Screen(Wire(cs)) == Ok(Laid(cs, 0)[k])
  {
    ScreenOfWire(cs);
    FilepassIsFirst(cs, 0, k);
    NoStray(cs, 0, k);
  }

  /** A record before it that has to be encrypted: refused by that record's type. */
  lemma {:induction false} OutOfOrderByTypes(cs: seq<Chunk>, k: nat, j: nat)
    requires Formed(cs) && cs != [] && cs[0].id == 0x0809 && FirstAt(cs, k)
    requires j < k && StrayAt(cs, j) && ClearBefore(cs, j)
    ensures Screen(Wire(cs)) == Err(BadParameters(Filepass, OutOfOrder(cs[j].id)))
  {
    ScreenOfWire(cs);
    FilepassIsFirst(cs, 0, k);
    StrayIsFirst(cs, 0, j);
  }

  /** No FILEPASS, or no BOF in front: refused as what it is. */
  lemma OthersByTypes(cs: seq<Chunk>)
    requires Formed(cs)
    ensures (cs == [] || cs[0].id != 0x0809) ==> Screen(Wire(cs)) == Err(BadParameters(WorkbookBof, Missing))
    ensures cs != [] && cs[0].id == 0x0809 && (forall i :: 0 <= i < |cs| ==> cs[i].id != 0x002F) ==>
      Screen(Wire(cs)) == Err(NotEncrypted)
  {
    ScreenOfWire(cs);
    if forall i :: 0 <= i < |cs| ==> cs[i].id != 0x002F {
      NoFilepass(cs, 0);
    }
  }

  /** Where record `k` lies: behind all the records before it, headers and bodies. */
  lemma {:induction false} LaidBehind(cs: seq<Chunk>, at: nat, k: nat)
    requires k < |cs|
    ensures
      var start := at + |Wire(cs[..k])| + 4;
      Laid(cs, at)[k] == Record(cs[k].id, start, start + |cs[k].body|)
    decreases |cs|
  {
    if k > 0 {
      LaidBehind(cs[1..], at + 4 + |cs[0].body|, k - 1);
      WireMore(cs, k);
    } else {
      assert cs[..0] == [];
    }
  }

  lemma WireMore(cs: seq<Chunk>, k: nat)
    requires 0 < k <= |cs|
    ensures |Wire(cs[..k])| == 4 + |cs[0].body| + |Wire(cs[1..][..k - 1])|
  {
    assert cs[..k][1..] == cs[1..][..k - 1];
  }

  // ----- what the detector says of a stream cut anywhere -----

  /** The four header bytes of the first record, if they are there. */
  lemma {:induction false} HeaderReads(book: Bytes, before: Bytes, cs: seq<Chunk>)
    requires Formed(cs) && cs != [] && book <= before + Wire(cs) && |before| + 4 <= |book|
    ensures ReadLe16(book, |before|) == Some(cs[0].id) && ReadLe16(book, |before| + 2) == Some(|cs[0].body|)
  {
    var all, at, w := before + Wire(cs), |before|, WireOne(cs[0]);
    assert all[at..at + 4] == w[..4];
    assert book[at] == all[at..at + 4][0] && book[at + 1] == all[at..at + 4][1];
    assert book[at + 2] == all[at..at + 4][2] && book[at + 3] == all[at..at + 4][3];
  }

  /** Clear records that are all there are passed over. */
  lemma {:induction false} ClearIsPassed(book: Bytes, before: Bytes, cs: seq<Chunk>, k: nat, from: nat, to: nat)
    requires Formed(cs) && ClearBefore(cs, k) && book <= before + Wire(cs)
    requires from == |before| && to == from + |Wire(cs[..k])| <= |book|
    ensures ScanFrom(book, from) == ScanFrom(book, to)
    decreases |cs|
  {
    if k == 0 {
      assert cs[..0] == [];
    } else {
      var more := before + WireOne(cs[0]);
      WireMore(cs, k);
      OneIsPassed(book, before, cs, |more|);
      Regroup(before, WireOne(cs[0]), Wire(cs[1..]));
      assert ClearBefore(cs[1..], k - 1);
      ClearIsPassed(book, more, cs[1..], k - 1, |more|, to);
    }
  }

  lemma {:induction false} OneIsPassed(book: Bytes, before: Bytes, cs: seq<Chunk>, next: nat)
    requires Formed(cs) && ClearBefore(cs, 1) && book <= before + Wire(cs)
    requires next == |before| + 4 + |cs[0].body| <= |book|
    ensures ScanFrom(book, |before|) == ScanFrom(book, next)
  {
    HeaderReads(book, before, cs);
  }

  lemma {:induction false} CutAfterClear(cs: seq<Chunk>, book: Bytes, k: nat, at: nat)
    requires Formed(cs) && ClearBefore(cs, k) && book <= Wire(cs) && at == |Wire(cs[..k])| <= |book|
    ensures ScanFrom(book, 0) == ScanFrom(book, at)
  {
    assert [] + Wire(cs) == Wire(cs);
    ClearIsPassed(book, [], cs, k, 0, at);
  }

  lemma {:induction false} HeaderAfterClear(cs: seq<Chunk>, book: Bytes, k: nat, at: nat)
    requires Formed(cs) && k < |cs| && book <= Wire(cs) && at == |Wire(cs[..k])| && at + 4 <= |book|
    ensures ReadLe16(book, at) == Some(cs[k].id) && ReadLe16(book, at + 2) == Some(|cs[k].body|)
  {
    WireSplits(cs, k);
    HeaderReads(book, Wire(cs[..k]), cs[k..]);
  }

  lemma {:induction false} WireSplits(cs: seq<Chunk>, k: nat)
    requires k <= |cs|
    ensures Wire(cs) == Wire(cs[..k]) + Wire(cs[k..])
    decreases |cs|
  {
    if k == 0 {
      assert cs[..0] == [] && cs[0..] == cs;
    } else {
      WireSplits(cs[1..], k - 1);
      assert cs[..k][1..] == cs[1..][..k - 1] && cs[1..][k - 1..] == cs[k..];
      Regroup(WireOne(cs[0]), Wire(cs[1..][..k - 1]), Wire(cs[k..]));
    }
  }

  /**
   The detector's verdict on every stream of records cut anywhere: once a header is there its
   type decides, whatever is left of its body; and before that nothing does.
   */
  lemma {:induction false} ScanByTypes(cs: seq<Chunk>, n: nat, k: nat)
    requires Formed(cs) && cs != [] && cs[0].id == 0x0809 && ClearBefore(cs, k) && 2 <= n <= |Wire(cs)|
    requires |Wire(cs[..k])| <= n
    ensures
      var start, v := |Wire(cs[..k])| + 4, Scan(Wire(cs)[..n]);
      && (n < start ==> v == Undecided)
      && (k < |cs| && start <= n && cs[k].id == 0x002F ==>
        v == Found(Record(0x002F, start, Min(start + |cs[k].body|, n))))
      && (start <= n && StrayAt(cs, k) ==> v == ProvenAbsent)
      && (k < |cs| && start <= n < start + |cs[k].body| && ClearBefore(cs, k + 1) ==> v == Undecided)
  {
    var book, at := Wire(cs)[..n], |Wire(cs[..k])|;
    CutAfterClear(cs, book, k, at);
    if k < |cs| && at + 4 <= n {
      HeaderAfterClear(cs, book, k, at);
    }
    BofReads(cs, n);
  }

  lemma {:induction false} BofReads(cs: seq<Chunk>, n: nat)
    requires Formed(cs) && cs != [] && 2 <= n <= |Wire(cs)|
    ensures ReadLe16(Wire(cs)[..n], 0) == Some(cs[0].id)
  {
    assert Wire(cs)[0] == WireOne(cs[0])[0] && Wire(cs)[1] == WireOne(cs[0])[1];
  }
}
