/** The recovery journal as records framed by length and checksum, and what its scan recovers
    from a journal that was cut off, overwritten at the end or damaged inside a record. */
module JournalFrames {
  import opened Slices
  import opened Wrappers
  import opened Utf8
  import opened LittleEndian

  const MAX_RECORD := 1024 * 1024
  const MAX_RECORDS := 100_000
  const MAX_JOURNAL := 64 * 1024 * 1024

  type Bytes = seq<byte>

  type Word = n: nat | n < 0x1_0000_0000

  /** A four-byte checksum of a record. */
  type Checksum = Bytes -> Word

  lemma WordFits(w: Word)
    ensures w < Power(4)
  {
    assert Power(4) == 256 * 256 * 256 * 256;
  }

  // ----- frames

  predicate Framable(p: Bytes) { 0 < |p| <= MAX_RECORD }

  function Header(crc: Checksum, p: Bytes): (h: Bytes)
    requires Framable(p)
    ensures |h| == 8
  {
    RecordFits(p);
    WordFits(crc(p));
    Encode(|p|, 4) + Encode(crc(p), 4)
  }

  lemma RecordFits(p: Bytes)
    requires Framable(p)
    ensures |p| < Power(4)
  {
    assert Power(4) == 256 * 256 * 256 * 256;
  }

  function Frame(crc: Checksum, p: Bytes): (f: Bytes)
    requires Framable(p)
    ensures |f| == 8 + |p|
  {
    Header(crc, p) + p
  }

  predicate AllFramable(ps: seq<Bytes>) { forall i :: 0 <= i < |ps| ==> Framable(ps[i]) }

  function Frames(crc: Checksum, ps: seq<Bytes>): Bytes
    requires AllFramable(ps)
  {
    if ps == [] then [] else Frame(crc, ps[0]) + Frames(crc, ps[1..])
  }

  /** The record at the front, when its header and its whole content are there and agree. */
  function TakeRecord(crc: Checksum, s: Bytes): Option<Bytes> {
    if |s| < 8 then None
    else
      var length := Decode(s[..4]);
      if length == 0 || length > MAX_RECORD || |s| < 8 + length then None
      else
        var record := s[8..8 + length];
        if crc(record) != Decode(s[4..8]) then None else Some(record)
  }

  /** The scan's records and whether it stopped at something that is no valid record. `valid`
      stands for the checks on a decoded record, which depend on the records before it. */
  function ScanFrom(crc: Checksum, s: Bytes, done: seq<Bytes>, valid: (seq<Bytes>, Bytes) -> bool): (seq<Bytes>, bool)
    decreases |s|
  {
    if s == [] then (done, false)
    else if |done| >= MAX_RECORDS then (done, true)
    else
      match TakeRecord(crc, s)
      case None => (done, true)
      case Some(record) =>
        if valid(done, record) then ScanFrom(crc, s[8 + |record|..], done + [record], valid) else (done, true)
  }

  /** The record at an offset of the journal, read field by field. */
  lemma TakeAt(crc: Checksum, journal: Bytes, at: nat)
    requires at <= |journal|
    ensures TakeRecord(crc, journal[at..]) ==
      if |journal| - at < 8 then None
      else
        var length := Decode(journal[at..at + 4]);
        if length == 0 || length > MAX_RECORD || |journal| - at - 8 < length then None
        else if crc(journal[at + 8..at + 8 + length]) != Decode(journal[at + 4..at + 8]) then None
        else Some(journal[at + 8..at + 8 + length])
  {
    if |journal| - at >= 8 {
      TailSlices(journal, at, at + 4);
      SliceOfTail(journal, at, at + 4, at + 8);
      var length := Decode(journal[at..at + 4]);
      if |journal| - at - 8 >= length {
        SliceOfTail(journal, at, at + 8, at + 8 + length);
      }
    }
  }

  /** The scan loop over the open journal; None where the journal exceeds its limit. */
  method Scan(crc: Checksum, journal: Bytes, valid: (seq<Bytes>, Bytes) -> bool) returns (r: Option<(seq<Bytes>, bool)>)
    ensures r == if |journal| > MAX_JOURNAL then None else Some(ScanFrom(crc, journal, [], valid))
  {
    hide Decode;
    if |journal| > MAX_JOURNAL {
      return None;
    }
    var records: seq<Bytes> := [];
    var at := 0;
    assert journal[0..] == journal;
    while at < |journal|
      invariant at <= |journal|
      invariant ScanFrom(crc, journal[at..], records, valid) == ScanFrom(crc, journal, [], valid)
      decreases |journal| - at
    {
      TakeAt(crc, journal, at);
      if |records| >= MAX_RECORDS || |journal| - at < 8 {
        return Some((records, true));
      }
      var length := Decode(journal[at..at + 4]);
      if length == 0 || length > MAX_RECORD || |journal| - at - 8 < length {
        return Some((records, true));
      }
      var record := journal[at + 8..at + 8 + length];
      if crc(record) != Decode(journal[at + 4..at + 8]) || !valid(records, record) {
        return Some((records, true));
      }
      TailSlices(journal, at, at + 8 + length);
      records := records + [record];
      at := at + 8 + length;
    }
    assert journal[at..] == [];
    return Some((records, false));
  }

  // ----- what the scan recovers

  /** Every record passes its checks after the ones before it. */
  predicate AllValid(done: seq<Bytes>, ps: seq<Bytes>, valid: (seq<Bytes>, Bytes) -> bool)
    decreases |ps|
  {
    ps == [] || (valid(done, ps[0]) && AllValid(done + [ps[0]], ps[1..], valid))
  }

  lemma HeaderFields(crc: Checksum, p: Bytes, rest: Bytes)
    requires Framable(p)
    ensures var s := Header(crc, p) + rest;
      Decode(s[..4]) == |p| && Decode(s[4..8]) == crc(p) && s[8..] == rest
  {
    RecordFits(p);
    DecodeEncode(|p|, 4);
    WordFits(crc(p));
    DecodeEncode(crc(p), 4);
    var s := Header(crc, p) + rest;
    assert s[..4] == Encode(|p|, 4) && s[4..8] == Encode(crc(p), 4);
  }

  /** What a header makes of the bytes that follow it. */
  lemma TakeAfterHeader(crc: Checksum, p: Bytes, rest: Bytes)
    requires Framable(p)
    ensures TakeRecord(crc, Header(crc, p) + rest) ==
      if |rest| >= |p| && crc(rest[..|p|]) == crc(p) then Some(rest[..|p|]) else None
  {
    HeaderFields(crc, p, rest);
    var s := Header(crc, p) + rest;
    if |rest| >= |p| {
      SliceOfTail(s, 8, 8, 8 + |p|);
    }
  }

  lemma TakeFrame(crc: Checksum, p: Bytes, rest: Bytes)
    requires Framable(p)
    ensures TakeRecord(crc, Frame(crc, p) + rest) == Some(p) && (Frame(crc, p) + rest)[8 + |p|..] == rest
  {
    ConcatAssociates(Header(crc, p), p, rest);
    TakeAfterHeader(crc, p, p + rest);
    assert (p + rest)[..|p|] == p;
  }

  lemma FramesFront(crc: Checksum, ps: seq<Bytes>, rest: Bytes)
    requires AllFramable(ps) && ps != []
    ensures Frames(crc, ps) + rest == Frame(crc, ps[0]) + (Frames(crc, ps[1..]) + rest)
  {
    ConcatAssociates(Frame(crc, ps[0]), Frames(crc, ps[1..]), rest);
  }

  lemma OneFrame(crc: Checksum, done: seq<Bytes>, p: Bytes, rest: Bytes, valid: (seq<Bytes>, Bytes) -> bool)
    requires Framable(p) && |done| < MAX_RECORDS && valid(done, p)
    ensures ScanFrom(crc, Frame(crc, p) + rest, done, valid) == ScanFrom(crc, rest, done + [p], valid)
  {
    TakeFrame(crc, p, rest);
  }

  /** Intact valid records are taken one by one, whatever follows them. */
  lemma {:induction false} ScanPassesFrames(crc: Checksum, done: seq<Bytes>, ps: seq<Bytes>, rest: Bytes,
                                            valid: (seq<Bytes>, Bytes) -> bool)
    requires AllFramable(ps) && AllValid(done, ps, valid) && |done| + |ps| <= MAX_RECORDS
    ensures ScanFrom(crc, Frames(crc, ps) + rest, done, valid) == ScanFrom(crc, rest, done + ps, valid)
    decreases |ps|
  {
    if ps == [] {
      assert Frames(crc, ps) + rest == rest && done + ps == done;
    } else {
      FramesFront(crc, ps, rest);
      OneFrame(crc, done, ps[0], Frames(crc, ps[1..]) + rest, valid);
      ScanPassesFrames(crc, done + [ps[0]], ps[1..], rest, valid);
      AppendCons(done, ps[0], ps[1..]);
      Uncons(ps);
    }
  }

  lemma {:induction false} ScanKeepsDone(crc: Checksum, s: Bytes, done: seq<Bytes>, valid: (seq<Bytes>, Bytes) -> bool)
    ensures done <= ScanFrom(crc, s, done, valid).0
    decreases |s|
  {
    if s != [] && |done| < MAX_RECORDS && TakeRecord(crc, s).Some? {
      var record := TakeRecord(crc, s).value;
      ScanKeepsDone(crc, s[8 + |record|..], done + [record], valid);
    }
  }

  /** Intact records in front survive any tail. */
  lemma PrefixSurvives(crc: Checksum, ps: seq<Bytes>, tail: Bytes, valid: (seq<Bytes>, Bytes) -> bool)
    requires AllFramable(ps) && AllValid([], ps, valid) && |ps| <= MAX_RECORDS
    ensures ps <= ScanFrom(crc, Frames(crc, ps) + tail, [], valid).0
  {
    ScanPassesFrames(crc, [], ps, tail, valid);
    assert [] + ps == ps;
    ScanKeepsDone(crc, tail, ps, valid);
  }

  /** How many whole records the first `cut` bytes hold. */
  function Whole(ps: seq<Bytes>, cut: nat): (k: nat)
    requires AllFramable(ps)
    ensures k <= |ps|
  {
    if ps == [] || cut < 8 + |ps[0]| then 0 else 1 + Whole(ps[1..], cut - 8 - |ps[0]|)
  }

  lemma TornFrame(crc: Checksum, p: Bytes, torn: Bytes)
    requires Framable(p) && torn <= Frame(crc, p) && torn != Frame(crc, p)
    ensures TakeRecord(crc, torn).None?
  {
    if |torn| >= 8 {
      assert torn == Header(crc, p) + torn[8..];
      TakeAfterHeader(crc, p, torn[8..]);
    }
  }

  lemma FrontOf(a: Bytes, b: Bytes, cut: nat)
    requires cut <= |a|
    ensures (a + b)[..cut] == a[..cut] && a[..cut] <= a
  {
  }

  lemma BackOf(a: Bytes, b: Bytes, cut: nat)
    requires |a| <= cut <= |a| + |b|
    ensures (a + b)[..cut] == a + b[..cut - |a|]
  {
  }

  lemma FramesCons(crc: Checksum, p: Bytes, ps: seq<Bytes>)
    requires Framable(p) && AllFramable(ps)
    ensures AllFramable([p] + ps) && Frames(crc, [p] + ps) == Frame(crc, p) + Frames(crc, ps)
  {
    assert ([p] + ps)[1..] == ps;
  }

  /** A record whose content no longer has its checksum ends the scan right before it, whatever
      the later checks would say and whatever follows. */
  lemma DamageEndsScan(crc: Checksum, ps: seq<Bytes>, p: Bytes, damaged: Bytes, rest: Bytes,
                       valid: (seq<Bytes>, Bytes) -> bool)
    requires AllFramable(ps) && AllValid([], ps, valid) && |ps| <= MAX_RECORDS && Framable(p)
    requires |damaged| == |p| && crc(damaged) != crc(p)
    ensures ScanFrom(crc, Frames(crc, ps) + (Header(crc, p) + (damaged + rest)), [], valid) == (ps, true)
  {
    ScanPassesFrames(crc, [], ps, Header(crc, p) + (damaged + rest), valid);
    assert [] + ps == ps;
    TakeAfterHeader(crc, p, damaged + rest);
    assert (damaged + rest)[..|p|] == damaged;
  }

  lemma TakeAfterDamagedField(crc: Checksum, p: Bytes, stored: Bytes, rest: Bytes)
    requires Framable(p) && |stored| == 4 && Decode(stored) != crc(p)
    ensures TakeRecord(crc, Encode(|p|, 4) + stored + (p + rest)).None?
  {
    var s := Encode(|p|, 4) + stored + (p + rest);
    RecordFits(p);
    DecodeEncode(|p|, 4);
    assert s[..4] == Encode(|p|, 4) && s[4..8] == stored;
    assert s[8..8 + |p|] == p;
  }

  /** A record whose stored checksum was damaged ends the scan right before it as well. */
  lemma FieldDamageEndsScan(crc: Checksum, ps: seq<Bytes>, p: Bytes, stored: Bytes, rest: Bytes,
                            valid: (seq<Bytes>, Bytes) -> bool)
    requires AllFramable(ps) && AllValid([], ps, valid) && |ps| <= MAX_RECORDS && Framable(p)
    requires |stored| == 4 && Header(crc, p)[4..8] != stored
    ensures ScanFrom(crc, Frames(crc, ps) + (Encode(|p|, 4) + stored + (p + rest)), [], valid) == (ps, true)
  {
    hide Frames, AllValid;
    HeaderHolds(crc, p);
    EncodeDecode(stored);
    WordFits(crc(p));
    ScanPassesFrames(crc, [], ps, Encode(|p|, 4) + stored + (p + rest), valid);
    assert [] + ps == ps;
    TakeAfterDamagedField(crc, p, stored, rest);
  }

  lemma HeaderHolds(crc: Checksum, p: Bytes)
    requires Framable(p)
    ensures crc(p) < Power(4) && Header(crc, p)[4..8] == Encode(crc(p), 4)
    ensures |p| < Power(4) && Header(crc, p)[..4] == Encode(|p|, 4)
  {
    hide Encode, Power;
    RecordFits(p);
    WordFits(crc(p));
    HalvesBack(Encode(|p|, 4), Encode(crc(p), 4));
  }

  lemma HalvesBack(a: Bytes, b: Bytes)
    requires |a| == 4 && |b| == 4
    ensures (a + b)[..4] == a && (a + b)[4..8] == b
  {
  }

  lemma TakenIsFrame(crc: Checksum, s: Bytes)
    requires TakeRecord(crc, s).Some?
    ensures var p := TakeRecord(crc, s).value;
      Framable(p) && 8 + |p| <= |s| && s == Frame(crc, p) + s[8 + |p|..]
  {
    var p := TakeRecord(crc, s).value;
    EncodeDecode(s[..4]);
    EncodeDecode(s[4..8]);
    assert Header(crc, p) == s[..4] + s[4..8] == s[..8];
    assert s == s[..8] + s[8..8 + |p|] + s[8 + |p|..];
  }

  /** `taken` is a run of whole valid records at the front of `s`, and all of it exactly when no
      damage is reported. */
  ghost predicate Exact(crc: Checksum, s: Bytes, done: seq<Bytes>, valid: (seq<Bytes>, Bytes) -> bool, taken: seq<Bytes>) {
    && AllFramable(taken) && AllValid(done, taken, valid) && Frames(crc, taken) <= s
    && ScanFrom(crc, s, done, valid) == (done + taken, Frames(crc, taken) != s)
  }

  lemma ExactCons(crc: Checksum, p: Bytes, rest: Bytes, done: seq<Bytes>, valid: (seq<Bytes>, Bytes) -> bool, more: seq<Bytes>)
    requires Framable(p) && valid(done, p) && |done| < MAX_RECORDS && Exact(crc, rest, done + [p], valid, more)
    ensures Exact(crc, Frame(crc, p) + rest, done, valid, [p] + more)
  {
    OneFrame(crc, done, p, rest, valid);
    FramesCons(crc, p, more);
    SamePrefix(Frame(crc, p), Frames(crc, more), rest);
    AppendCons(done, p, more);
    assert ([p] + more)[0] == p && ([p] + more)[1..] == more;
  }

  lemma ExactNil(crc: Checksum, s: Bytes, done: seq<Bytes>, valid: (seq<Bytes>, Bytes) -> bool)
    requires ScanFrom(crc, s, done, valid) == (done, s != [])
    ensures Exact(crc, s, done, valid, [])
  {
    assert done + [] == done && Frames(crc, []) == [];
  }

  lemma CutInFirst(crc: Checksum, done: seq<Bytes>, ps: seq<Bytes>, cut: nat, valid: (seq<Bytes>, Bytes) -> bool)
    requires AllFramable(ps) && cut <= |Frames(crc, ps)| && (ps == [] || cut < 8 + |ps[0]|)
    ensures Exact(crc, Frames(crc, ps)[..cut], done, valid, [])
  {
    if cut > 0 {
      FrontOf(Frame(crc, ps[0]), Frames(crc, ps[1..]), cut);
      TornFrame(crc, ps[0], Frames(crc, ps)[..cut]);
    }
    ExactNil(crc, Frames(crc, ps)[..cut], done, valid);
  }

  lemma WholeLater(crc: Checksum, ps: seq<Bytes>, cut: nat)
    requires AllFramable(ps) && ps != [] && 8 + |ps[0]| <= cut <= |Frames(crc, ps)|
    ensures var left := cut - 8 - |ps[0]|;
      && left <= |Frames(crc, ps[1..])|
      && ps[..Whole(ps, cut)] == [ps[0]] + ps[1..][..Whole(ps[1..], left)]
      && Frames(crc, ps)[..cut] == Frame(crc, ps[0]) + Frames(crc, ps[1..])[..left]
  {
    BackOf(Frame(crc, ps[0]), Frames(crc, ps[1..]), cut);
  }

  /** A journal cut off after any number of bytes scans as exactly the records that are whole,
      and is reported damaged exactly when the cut is inside a record. */
  lemma {:induction false} CutScansAsWhole(crc: Checksum, done: seq<Bytes>, ps: seq<Bytes>, cut: nat,
                                           valid: (seq<Bytes>, Bytes) -> bool)
    requires AllFramable(ps) && AllValid(done, ps, valid) && |done| + |ps| <= MAX_RECORDS
    requires cut <= |Frames(crc, ps)|
    ensures Exact(crc, Frames(crc, ps)[..cut], done, valid, ps[..Whole(ps, cut)])
    decreases |ps|
  {
    hide Exact, ScanFrom;
    if ps == [] || cut < 8 + |ps[0]| {
      CutInFirst(crc, done, ps, cut, valid);
      assert ps[..0] == [];
    } else {
      var left := cut - 8 - |ps[0]|;
      WholeLater(crc, ps, cut);
      CutScansAsWhole(crc, done + [ps[0]], ps[1..], left, valid);
      ExactCons(crc, ps[0], Frames(crc, ps[1..])[..left], done, valid, ps[1..][..Whole(ps[1..], left)]);
    }
  }

  /** Of any bytes at all, the scan takes a run of whole valid records from the front, and it
      reports no damage exactly when those records are the entire journal. */
  lemma {:induction false} ScanIsExact(crc: Checksum, s: Bytes, done: seq<Bytes>, valid: (seq<Bytes>, Bytes) -> bool)
    returns (taken: seq<Bytes>)
    ensures Exact(crc, s, done, valid, taken)
    decreases |s|
  {
    if s != [] && |done| < MAX_RECORDS && TakeRecord(crc, s).Some? && valid(done, TakeRecord(crc, s).value) {
      var p := TakeRecord(crc, s).value;
      TakenIsFrame(crc, s);
      var more := ScanIsExact(crc, s[8 + |p|..], done + [p], valid);
      ExactCons(crc, p, s[8 + |p|..], done, valid, more);
      taken := [p] + more;
    } else {
      ExactNil(crc, s, done, valid);
      taken := [];
    }
  }

  lemma SamePrefix(front: Bytes, a: Bytes, b: Bytes)
    ensures a <= b ==> front + a <= front + b
    ensures front + a == front + b <==> a == b
  {
    assert (front + a)[|front|..] == a && (front + b)[|front|..] == b;
  }
}

/** Numbers and their bits. */
module BitNumbers {
  lemma WordBack(x: bv32)
    ensures (x as nat) as bv32 == x
  {
  }

  /** Eight flags as the bits of a byte, highest first. */
  function Pack(f: (bool, bool, bool, bool), g: (bool, bool, bool, bool)): bv8 {
    (if f.0 then 0x80 else 0) | (if f.1 then 0x40 else 0) | (if f.2 then 0x20 else 0) | (if f.3 then 0x10 else 0)
    | (if g.0 then 8 else 0) | (if g.1 then 4 else 0) | (if g.2 then 2 else 0) | (if g.3 then 1 else 0)
  }

  function Flags(n: nat): (bool, bool, bool, bool) { (n / 8 % 2 == 1, n / 4 % 2 == 1, n / 2 % 2 == 1, n % 2 == 1) }

  function Byte(n: nat): bv8 { Pack(Flags(n / 16), Flags(n % 16)) }

  lemma PackValue(f: (bool, bool, bool, bool), g: (bool, bool, bool, bool))
    ensures Pack(f, g) as nat ==
      (if f.0 then 128 else 0) + (if f.1 then 64 else 0) + (if f.2 then 32 else 0) + (if f.3 then 16 else 0)
      + (if g.0 then 8 else 0) + (if g.1 then 4 else 0) + (if g.2 then 2 else 0) + (if g.3 then 1 else 0)
  {
  }

  lemma FlagsValue(n: nat)
    requires n < 16
    ensures var f := Flags(n);
      n == (if f.0 then 8 else 0) + (if f.1 then 4 else 0) + (if f.2 then 2 else 0) + (if f.3 then 1 else 0)
  {
  }

  /** The eight bits are those of the number. */
  lemma ByteValue(n: nat)
    requires n < 256
    ensures Byte(n) as nat == n
  {
    PackValue(Flags(n / 16), Flags(n % 16));
    FlagsValue(n / 16);
    FlagsValue(n % 16);
  }
}

/** The journal with its actual checksum. */
module Journal {
  import opened Wrappers
  import opened Utf8
  import opened JournalFrames
  import BitNumbers
  import Crc32c

  // ----- checksums of byte records

  function Bit8(b: byte): bv8 { BitNumbers.Byte(b as nat) }

  function Bits(s: Bytes): seq<bv8> { seq(|s|, i requires 0 <= i < |s| => Bit8(s[i])) }

  function Number(r: Crc32c.Register): Word { r.bits as nat }

  function Crc(s: Bytes): Word { Number(Crc32c.Checksum(Bits(s))) }

  const CRC: Checksum := s => Crc(s)

  lemma Bit8Value(b: byte)
    ensures Bit8(b) as nat == b as nat
  {
    BitNumbers.ByteValue(b as nat);
  }

  lemma SameNumber(a: Crc32c.Register, b: Crc32c.Register)
    requires Number(a) == Number(b)
    ensures a == b
  {
    BitNumbers.WordBack(a.bits);
    BitNumbers.WordBack(b.bits);
  }

  /** The two records agree outside `width` bytes from `from` on. */
  predicate AgreeOutside(a: Bytes, b: Bytes, from: nat, width: nat) {
    && |a| == |b| && from + width <= |a|
    && forall i :: 0 <= i < |a| && !(from <= i < from + width) ==> a[i] == b[i]
  }

  /** Damage of at most four consecutive bytes always changes the checksum. */
  lemma CrcDetectsBurst(a: Bytes, b: Bytes, from: nat, width: nat)
    requires AgreeOutside(a, b, from, width) && width <= 4
    ensures Crc(a) == Crc(b) <==> a == b
  {
    Crc32c.DetectsBurst(Bits(a), Bits(b), from, width);
    if Crc(a) == Crc(b) {
      SameNumber(Crc32c.Checksum(Bits(a)), Crc32c.Checksum(Bits(b)));
    }
    if Bits(a) == Bits(b) {
      forall i | 0 <= i < |a|
        ensures a[i] == b[i]
      {
        assert Bits(a)[i] == Bits(b)[i];
        Bit8Value(a[i]);
        Bit8Value(b[i]);
      }
    }
  }

  /** Damage of at most four consecutive bytes, in a record's content or in its stored checksum,
      ends the scan right before that record and is reported. */
  lemma BurstEndsScan(ps: seq<Bytes>, p: Bytes, stored: Bytes, damaged: Bytes, from: nat, width: nat, rest: Bytes,
                      valid: (seq<Bytes>, Bytes) -> bool)
    requires AllFramable(ps) && AllValid([], ps, valid) && |ps| <= MAX_RECORDS && Framable(p)
    requires AgreeOutside(p, damaged, from, width) && width <= 4 && |stored| == 4
    requires (stored == Header(CRC, p)[4..8] && damaged != p) || (stored != Header(CRC, p)[4..8] && damaged == p)
    ensures ScanFrom(CRC, Frames(CRC, ps) + (Header(CRC, p)[..4] + stored + (damaged + rest)), [], valid) == (ps, true)
  {
    hide ScanFrom, Header, Frames;
    HeaderHolds(CRC, p);
    if damaged == p {
      FieldDamageEndsScan(CRC, ps, p, stored, rest, valid);
    } else {
      CrcDetectsBurst(p, damaged, from, width);
      DamageEndsScan(CRC, ps, p, damaged, rest, valid);
      assert Header(CRC, p) == Header(CRC, p)[..4] + Header(CRC, p)[4..8];
    }
  }
}
