/** The bitwise CRC32C loop (reflected Castagnoli polynomial, section 12.1 of RFC 3720) over
    records of any length, and which damage it always detects. */
module Crc32c {
  const POLY: bv32 := 0x82f6_3b78

  /** The 32-bit register. Wrapping the word keeps the algebra below apart from its bits. */
  datatype Register = Register(bits: bv32)

  const ZERO := Register(0)
  const ONES := Register(0xffff_ffff)

  function Low(x: Register): bool { x.bits & 1 == 1 }

  function Half(x: Register): Register { Register(x.bits >> 1) }

  function Xor(x: Register, y: Register): Register { Register(x.bits ^ y.bits) }

  /** One bit of the loop. */
  function Shift(x: Register): Register {
    if Low(x) then Xor(Half(x), Register(POLY)) else Half(x)
  }

  function Byte(b: bv8): Register { Register(b as bv32) }

  function Shifts(x: Register, n: nat): Register
    decreases n
  {
    if n == 0 then x else Shifts(Shift(x), n - 1)
  }

  /** One byte of the loop. */
  function Fold(crc: Register, b: bv8): Register { Shifts(Xor(crc, Byte(b)), 8) }

  function Run(crc: Register, bytes: seq<bv8>): Register
    decreases |bytes|
  {
    if bytes == [] then crc else Run(Fold(crc, bytes[0]), bytes[1..])
  }

  function Checksum(bytes: seq<bv8>): Register { Xor(Run(ONES, bytes), ONES) }

  method ComputeChecksum(bytes: seq<bv8>) returns (checksum: Register)
    ensures checksum == Checksum(bytes)
  {
    var crc := ONES;
    assert bytes[0..] == bytes;
    for i := 0 to |bytes|
      invariant Run(crc, bytes[i..]) == Run(ONES, bytes)
    {
      assert bytes[i..][0] == bytes[i] && bytes[i..][1..] == bytes[i + 1..];
      crc := Xor(crc, Byte(bytes[i]));
      ghost var start := crc;
      for bit := 0 to 8
        invariant Shifts(crc, 8 - bit) == Shifts(start, 8)
      {
        ghost var next := Shift(crc);
        crc := MaskedStep(crc);
        assert crc == next;
      }
    }
    return Xor(crc, ONES);
  }

  /** The branch-free form of the step in the journal fuzzer's `crc32c`. */
  method MaskedStep(x: Register) returns (r: Register)
    ensures r == Shift(x)
  {
    r := Register((x.bits >> 1) ^ (POLY & (0 - (x.bits & 1))));
  }

  // ----- facts of 32-bit words

  lemma XorCommutes(a: Register, b: Register)
    ensures Xor(a, b) == Xor(b, a)
  {
  }

  lemma XorAssociates(a: Register, b: Register, c: Register)
    ensures Xor(Xor(a, b), c) == Xor(a, Xor(b, c))
  {
  }

  lemma XorZero(x: Register)
    ensures Xor(x, ZERO) == x && Xor(ZERO, x) == x && Xor(x, x) == ZERO
  {
  }

  lemma XorEqual(x: Register, y: Register)
    ensures Xor(x, y) == ZERO <==> x == y
  {
  }

  lemma BytesXor(a: bv8, b: bv8)
    ensures Byte(a ^ b) == Xor(Byte(a), Byte(b))
    ensures a ^ b == 0 <==> a == b
  {
  }

  lemma HalfIsLinear(x: Register, y: Register)
    ensures Half(Xor(x, y)) == Xor(Half(x), Half(y))
  {
  }

  lemma LowIsLinear(x: Register, y: Register)
    ensures Low(Xor(x, y)) <==> Low(x) != Low(y)
  {
  }

  /** The polynomial's top bit makes every bit step reversible. */
  lemma ShiftIsInjective(x: Register)
    ensures Shift(x) == ZERO <==> x == ZERO
  {
  }

  // ----- registers under exclusive or

  lemma XorRegroups(a: Register, b: Register, p: Register, q: Register)
    ensures Xor(Xor(a, p), Xor(b, q)) == Xor(Xor(a, b), Xor(p, q))
  {
    XorAssociates(a, p, Xor(b, q));
    XorAssociates(p, b, q);
    XorCommutes(p, b);
    XorAssociates(b, p, q);
    XorAssociates(a, b, Xor(p, q));
  }

  lemma XorCancels(a: Register, b: Register, p: Register)
    ensures Xor(Xor(a, p), Xor(b, p)) == Xor(a, b)
    ensures Xor(Xor(a, p), b) == Xor(Xor(a, b), p) == Xor(a, Xor(b, p))
  {
    XorRegroups(a, b, p, p);
    XorZero(p);
    XorZero(Xor(a, b));
    XorRegroups(a, b, p, ZERO);
    XorZero(b);
    XorAssociates(a, b, p);
  }

  lemma ShiftIsLinear(x: Register, y: Register)
    ensures Shift(Xor(x, y)) == Xor(Shift(x), Shift(y))
  {
    HalfIsLinear(x, y);
    LowIsLinear(x, y);
    XorCancels(Half(x), Half(y), Register(POLY));
  }

  lemma {:induction false} ShiftsAreLinear(x: Register, y: Register, n: nat)
    ensures Shifts(Xor(x, y), n) == Xor(Shifts(x, n), Shifts(y, n))
    decreases n
  {
    if n > 0 {
      ShiftIsLinear(x, y);
      ShiftsAreLinear(Shift(x), Shift(y), n - 1);
    }
  }

  lemma {:induction false} ShiftsAreInjective(x: Register, n: nat)
    ensures Shifts(x, n) == ZERO <==> x == ZERO
    decreases n
  {
    if n > 0 {
      ShiftIsInjective(x);
      ShiftsAreInjective(Shift(x), n - 1);
    }
  }

  lemma {:induction false} ShiftsAdd(x: Register, m: nat, n: nat)
    ensures Shifts(Shifts(x, m), n) == Shifts(x, m + n)
    decreases m
  {
    if m > 0 {
      ShiftsAdd(Shift(x), m - 1, n);
    }
  }

  // ----- whole records

  function Difference(a: seq<bv8>, b: seq<bv8>): seq<bv8>
    requires |a| == |b|
  {
    seq(|a|, i requires 0 <= i < |a| => a[i] ^ b[i])
  }

  lemma FoldIsLinear(c: Register, d: Register, p: bv8, q: bv8)
    ensures Fold(Xor(c, d), p ^ q) == Xor(Fold(c, p), Fold(d, q))
  {
    var x, y := Byte(p), Byte(q);
    BytesXor(p, q);
    XorRegroups(c, d, x, y);
    ShiftsAreLinear(Xor(c, x), Xor(d, y), 8);
  }

  lemma DifferenceFront(a: seq<bv8>, b: seq<bv8>)
    requires |a| == |b| > 0
    ensures Difference(a, b)[0] == a[0] ^ b[0] && Difference(a, b)[1..] == Difference(a[1..], b[1..])
  {
  }

  lemma RunFront(c: Register, bytes: seq<bv8>, next: Register, rest: seq<bv8>)
    requires bytes != [] && next == Fold(c, bytes[0]) && rest == bytes[1..]
    ensures Run(c, bytes) == Run(next, rest)
  {
  }

  /** The loop is linear in register and record together, so the checksum is affine. */
  lemma {:induction false} RunIsLinear(c: Register, d: Register, a: seq<bv8>, b: seq<bv8>)
    requires |a| == |b|
    ensures Run(Xor(c, d), Difference(a, b)) == Xor(Run(c, a), Run(d, b))
    decreases |a|
  {
    if a != [] {
      var x, y := Fold(c, a[0]), Fold(d, b[0]);
      FoldIsLinear(c, d, a[0], b[0]);
      DifferenceFront(a, b);
      RunFront(c, a, x, a[1..]);
      RunFront(d, b, y, b[1..]);
      RunFront(Xor(c, d), Difference(a, b), Xor(x, y), Difference(a[1..], b[1..]));
      RunIsLinear(x, y, a[1..], b[1..]);
    }
  }

  /** Combining three records of one length combines their checksums. */
  lemma ChecksumIsAffine(a: seq<bv8>, b: seq<bv8>, c: seq<bv8>)
    requires |a| == |b| == |c|
    ensures Checksum(Difference(Difference(a, b), c)) == Xor(Xor(Checksum(a), Checksum(b)), Checksum(c))
  {
    RunIsLinear(ONES, ONES, a, b);
    RunIsLinear(Xor(ONES, ONES), ONES, Difference(a, b), c);
    XorZero(ONES);
    var x, y, z := Run(ONES, a), Run(ONES, b), Run(ONES, c);
    XorCancels(x, y, ONES);
    XorAssociates(Xor(x, y), z, ONES);
  }

  lemma {:induction false} RunConcat(c: Register, a: seq<bv8>, b: seq<bv8>)
    ensures Run(c, a + b) == Run(Run(c, a), b)
    decreases |a|
  {
    if a == [] {
      assert a + b == b;
    } else {
      assert (a + b)[1..] == a[1..] + b;
      RunConcat(Shifts(Xor(c, Byte(a[0])), 8), a[1..], b);
    }
  }

  predicate Unchanged(d: seq<bv8>) { forall i :: 0 <= i < |d| ==> d[i] == 0 }

  /** Unchanged bytes keep a difference in the register alive, and only that. */
  lemma {:induction false} UnchangedKeepsDifference(c: Register, d: seq<bv8>)
    requires Unchanged(d)
    ensures Run(c, d) == ZERO <==> c == ZERO
    decreases |d|
  {
    if d != [] {
      XorZero(c);
      ShiftsAreInjective(c, 8);
      UnchangedKeepsDifference(Shifts(c, 8), d[1..]);
    }
  }

  /** A record acts on the register one to one: two runs over it never meet. */
  lemma RunIsInjective(c: Register, d: Register, bytes: seq<bv8>)
    ensures Run(c, bytes) == Run(d, bytes) <==> c == d
  {
    RunIsLinear(c, d, bytes, bytes);
    forall i | 0 <= i < |bytes|
      ensures Difference(bytes, bytes)[i] == 0
    {
      BytesXor(bytes[i], bytes[i]);
    }
    UnchangedKeepsDifference(Xor(c, d), Difference(bytes, bytes));
    XorEqual(c, d);
    XorEqual(Run(c, bytes), Run(d, bytes));
  }

  /** A register moved up by one byte. */
  function Up(x: Register): Register { Register(x.bits << 8) }

  lemma EightShifts(x: Register)
    ensures Shifts(x, 8) == Shift(Shift(Shift(Shift(Shift(Shift(Shift(Shift(x))))))))
  {
    ShiftsAdd(x, 4, 4);
    FourShifts(x);
    FourShifts(Shift(Shift(Shift(Shift(x)))));
  }

  lemma FourShifts(x: Register)
    ensures Shifts(x, 4) == Shift(Shift(Shift(Shift(x))))
  {
    assert Shifts(x, 4) == Shifts(Shift(x), 3) == Shifts(Shift(Shift(x)), 2);
  }

  /** No polynomial enters while only zero bits leave the register. */
  lemma EightShiftsUndoUp(x: Register)
    requires x.bits <= 0x00ff_ffff
    ensures Shift(Shift(Shift(Shift(Shift(Shift(Shift(Shift(Up(x))))))))) == x
  {
  }

  lemma UndoUp(x: Register)
    requires x.bits <= 0x00ff_ffff
    ensures Shifts(Up(x), 8) == x
  {
    EightShiftsUndoUp(x);
    EightShifts(Up(x));
  }

  /** A byte folded in later is the same byte folded in eight bits further up before. */
  lemma FoldEarlier(x: Register, y: Register)
    requires y.bits <= 0x00ff_ffff
    ensures Xor(Shifts(x, 8), y) == Shifts(Xor(x, Up(y)), 8)
  {
    UndoUp(y);
    ShiftsAreLinear(x, Up(y), 8);
  }

  /** Up to four bytes read as one little-endian word. */
  function Word(d: seq<bv8>): Register
    requires |d| <= 4
  {
    if d == [] then ZERO else Xor(Byte(d[0]), Up(Word(d[1..])))
  }

  /** The word has as many bytes as were read. */
  predicate Fits(x: Register, bytes: nat) {
    && (bytes <= 3 ==> x.bits <= 0x00ff_ffff)
    && (bytes <= 2 ==> x.bits <= 0x0000_ffff)
    && (bytes <= 1 ==> x.bits <= 0x0000_00ff)
    && (bytes == 0 ==> x.bits == 0)
  }

  /** The low byte and the bits above it do not overlap. */
  lemma ByteAndRest(b: bv8, w: Register, bytes: nat)
    requires bytes <= 3 && Fits(w, bytes)
    ensures Xor(Byte(b), Up(w)) == ZERO <==> b == 0 && w == ZERO
    ensures Fits(Xor(Byte(b), Up(w)), bytes + 1)
  {
  }

  lemma {:induction false} WordFits(d: seq<bv8>)
    requires |d| <= 4
    ensures Fits(Word(d), |d|)
    ensures Word(d) == ZERO <==> Unchanged(d)
    decreases |d|
  {
    if d != [] {
      WordFits(d[1..]);
      ByteAndRest(d[0], Word(d[1..]), |d| - 1);
      assert forall i :: 1 <= i < |d| ==> d[i] == d[1..][i - 1];
    }
  }

  /** Over at most four bytes the loop is the bit steps applied to their word. */
  lemma {:induction false} RunOfWindow(x: Register, d: seq<bv8>)
    requires |d| <= 4
    ensures Run(x, d) == Shifts(Xor(x, Word(d)), 8 * |d|)
    decreases |d|
  {
    if d == [] {
      XorZero(x);
    } else {
      var b, rest := Byte(d[0]), d[1..];
      var w := Word(rest);
      WordFits(rest);
      RunOfWindow(Shifts(Xor(x, b), 8), rest);
      FoldEarlier(Xor(x, b), w);
      XorAssociates(x, b, Up(w));
      ShiftsAdd(Xor(x, Word(d)), 8, 8 * |rest|);
    }
  }

  /** The two records agree outside `width` bytes from `from` on. */
  ghost predicate AgreeOutside(a: seq<bv8>, b: seq<bv8>, from: nat, width: nat) {
    && |a| == |b| && from + width <= |a|
    && forall i :: 0 <= i < |a| && !(from <= i < from + width) ==> a[i] == b[i]
  }

  lemma DifferenceOutside(a: seq<bv8>, b: seq<bv8>, from: nat, width: nat)
    requires AgreeOutside(a, b, from, width)
    ensures var d := Difference(a, b);
      && Unchanged(d[..from]) && Unchanged(d[from + width..])
      && (Unchanged(d[from..from + width]) <==> a == b)
  {
    var d := Difference(a, b);
    forall i | 0 <= i < |a|
      ensures d[i] == 0 <==> a[i] == b[i]
    {
      BytesXor(a[i], b[i]);
    }
    if Unchanged(d[from..from + width]) {
      forall i | 0 <= i < |a|
        ensures a[i] == b[i]
      {
        assert from <= i < from + width ==> d[from..from + width][i - from] == d[i];
      }
    }
  }

  /** Records of equal length that differ, and only within four consecutive bytes, never share
      a checksum, however long they are. */
  lemma DetectsBurst(a: seq<bv8>, b: seq<bv8>, from: nat, width: nat)
    requires AgreeOutside(a, b, from, width) && width <= 4
    ensures Checksum(a) == Checksum(b) <==> a == b
  {
    var d := Difference(a, b);
    var head, burst, tail := d[..from], d[from..from + width], d[from + width..];
    DifferenceOutside(a, b, from, width);
    assert d == head + (burst + tail);
    RunIsLinear(ONES, ONES, a, b);
    XorZero(ONES);
    RunConcat(ZERO, head, burst + tail);
    RunConcat(ZERO, burst, tail);
    UnchangedKeepsDifference(ZERO, head);
    RunOfWindow(ZERO, burst);
    WordFits(burst);
    XorZero(Word(burst));
    ShiftsAreInjective(Word(burst), 8 * width);
    UnchangedKeepsDifference(Run(ZERO, burst), tail);
    var x, y := Run(ONES, a), Run(ONES, b);
    XorEqual(x, y);
    XorCancels(x, y, ONES);
    XorEqual(Xor(x, ONES), Xor(y, ONES));
  }
}
