/** The CRC32C loop as the division of polynomials over two elements that section 12.1 of RFC 3720
    prescribes: bits are coefficients, the highest power first. */
module CrcDivision {
  import opened Crc32c

  type Bits = seq<bool>

  /** The powers of the generator polynomial with coefficient one. */
  predicate Power(p: int) {
    || p == 32 || p == 28 || p == 27 || p == 26 || p == 25 || p == 23 || p == 22 || p == 20 || p == 19 || p == 18
    || p == 14 || p == 13 || p == 11 || p == 10 || p == 9 || p == 8 || p == 6 || p == 0
  }

  function Generator(): (g: Bits)
    ensures |g| == 33
  {
    seq(33, k requires 0 <= k < 33 => Power(32 - k))
  }

  function Zeros(n: nat): Bits { seq(n, k requires 0 <= k < n => false) }

  function Ones(n: nat): Bits { seq(n, k requires 0 <= k < n => true) }

  function Complement(a: Bits): Bits { seq(|a|, k requires 0 <= k < |a| => !a[k]) }

  /** The sum of two polynomials. */
  function Plus(a: Bits, b: Bits): (sum: Bits)
    requires |a| == |b|
    ensures |sum| == |a|
  {
    seq(|a|, k requires 0 <= k < |a| => a[k] != b[k])
  }

  /** The generator or nothing. */
  function Generated(bit: bool): (g: Bits)
    ensures |g| == 33
  {
    if bit then Generator() else Zeros(33)
  }

  /** A polynomial times the generator: one shifted copy of it for every coefficient. */
  function Times(q: Bits): (product: Bits)
    ensures |product| == |q| + 32
  {
    if q == [] then Zeros(32)
    else Plus(Times(q[..|q| - 1]) + [false], Zeros(|q| - 1) + Generated(q[|q| - 1]))
  }

  /** `remainder` has degree below 32 and is what division by the generator leaves. */
  ghost predicate Divides(dividend: Bits, quotient: Bits, remainder: Bits) {
    && |remainder| == 32 && |dividend| == |quotient| + 32
    && dividend == Plus(Times(quotient), Zeros(|quotient|) + remainder)
  }

  // ----- the remainder is unique

  lemma {:induction false} Leading(q: Bits, k: nat)
    requires k < |q| && (forall i :: 0 <= i < k ==> !q[i])
    ensures Times(q)[k] == q[k] && forall i :: 0 <= i < k ==> !Times(q)[i]
    decreases |q|
  {
    var n := |q| - 1;
    if k < n {
      Leading(q[..n], k);
    } else {
      AllZeros(q[..n]);
    }
  }

  lemma {:induction false} AllZeros(q: Bits)
    requires forall i :: 0 <= i < |q| ==> !q[i]
    ensures Times(q) == Zeros(|q| + 32)
    decreases |q|
  {
    if q != [] {
      AllZeros(q[..|q| - 1]);
    }
  }

  lemma {:induction false} TimesIsLinear(p: Bits, q: Bits)
    requires |p| == |q|
    ensures Times(Plus(p, q)) == Plus(Times(p), Times(q))
    decreases |p|
  {
    if p == [] {
      assert Plus(p, q) == [];
    } else {
      var n := |p| - 1;
      TimesIsLinear(p[..n], q[..n]);
      PlusFront(p, q);
      hide Plus, Times;
      TimesMore(p);
      TimesMore(q);
      TimesMore(Plus(p, q));
      LinearStep(Times(p[..n]), Times(q[..n]), n, p[n], q[n]);
    }
  }

  lemma PlusFront(p: Bits, q: Bits)
    requires |p| == |q| > 0
    ensures var n := |p| - 1; Plus(p, q)[..n] == Plus(p[..n], q[..n]) && Plus(p, q)[n] == (p[n] != q[n])
  {
  }

  lemma TimesMore(q: Bits)
    requires q != []
    ensures var n := |q| - 1; Times(q) == Plus(Times(q[..n]) + [false], Zeros(n) + Generated(q[n]))
  {
  }

  lemma LinearStep(a: Bits, b: Bits, n: nat, p: bool, q: bool)
    requires |a| == |b| == n + 32
    ensures Plus(Plus(a, b) + [false], Zeros(n) + Generated(p != q)) ==
            Plus(Plus(a + [false], Zeros(n) + Generated(p)), Plus(b + [false], Zeros(n) + Generated(q)))
  {
  }

  /** Division leaves one quotient and one remainder. */
  lemma RemainderIsUnique(dividend: Bits, p: Bits, r: Bits, q: Bits, s: Bits)
    requires Divides(dividend, p, r) && Divides(dividend, q, s)
    ensures p == q && r == s
  {
    var d := Plus(p, q);
    TimesIsLinear(p, q);
    var product := Times(d);
    forall i | 0 <= i < |p|
      ensures !product[i]
    {
      assert Plus(Times(p), Zeros(|p|) + r)[i] == Plus(Times(q), Zeros(|q|) + s)[i];
    }
    if exists i :: 0 <= i < |d| && d[i] {
      var k := FirstSet(d);
      Leading(d, k);
      assert false;
    }
    AllZeros(d);
    assert forall i :: 0 <= i < |p| ==> !d[i];
    assert forall i :: 0 <= i < |p| ==> d[i] == (p[i] != q[i]);
    assert p == q;
    forall i | 0 <= i < 32
      ensures r[i] == s[i]
    {
      assert Plus(Times(p), Zeros(|p|) + r)[|p| + i] == Plus(Times(q), Zeros(|q|) + s)[|p| + i];
    }
  }

  lemma {:induction false} FirstSet(d: Bits) returns (k: nat)
    requires exists i :: 0 <= i < |d| && d[i]
    ensures k < |d| && d[k] && forall i :: 0 <= i < k ==> !d[i]
    decreases |d|
  {
    if d[0] {
      k := 0;
    } else {
      var i :| 0 <= i < |d| && d[i];
      assert d[1..][i - 1];
      k := FirstSet(d[1..]);
      k := k + 1;
      assert forall j :: 0 < j < k ==> d[j] == d[1..][j - 1];
    }
  }

  // ----- registers as polynomials

  /** The lowest `n` bits of a register, the lowest first: it holds the highest power. */
  function Lowest(x: Register, n: nat): (bits: Bits)
    ensures |bits| == n
    decreases n
  {
    if n == 0 then [] else [Low(x)] + Lowest(Half(x), n - 1)
  }

  function Coefficients(x: Register): (c: Bits)
    ensures |c| == 32
  {
    Lowest(x, 32)
  }

  function Halves(x: Register, n: nat): Register
    decreases n
  {
    if n == 0 then x else Halves(Half(x), n - 1)
  }

  lemma {:induction false} LowPlus(x: Register, y: Register, n: nat)
    ensures Lowest(Xor(x, y), n) == Plus(Lowest(x, n), Lowest(y, n))
    decreases n
  {
    hide Xor, Half, Low;
    if n > 0 {
      LowIsLinear(x, y);
      HalfIsLinear(x, y);
      LowPlus(Half(x), Half(y), n - 1);
    }
  }

  lemma {:induction false} LowMore(x: Register, n: nat)
    ensures Lowest(x, n + 1) == Lowest(x, n) + [Low(Halves(x, n))]
    decreases n
  {
    if n > 0 {
      LowMore(Half(x), n - 1);
    }
  }

  lemma {:induction false} LowOfZero(n: nat)
    ensures Lowest(ZERO, n) == Zeros(n)
    decreases n
  {
    assert Half(ZERO) == ZERO && !Low(ZERO);
    if n > 0 {
      LowOfZero(n - 1);
    }
  }

  predicate AtMost(x: Register, y: Register) { x.bits <= y.bits }

  lemma HalfGrows(x: Register, y: Register)
    requires AtMost(x, y)
    ensures AtMost(Half(x), Half(y))
  {
  }

  lemma AtMostOnes(x: Register)
    ensures AtMost(x, ONES) && (AtMost(x, ZERO) ==> x == ZERO)
  {
  }

  lemma {:induction false} HalvesGrow(x: Register, y: Register, n: nat)
    requires AtMost(x, y)
    ensures AtMost(Halves(x, n), Halves(y, n))
    decreases n
  {
    hide Half, AtMost;
    if n > 0 {
      HalfGrows(x, y);
      HalvesGrow(Half(x), Half(y), n - 1);
    }
  }

  lemma OneHalf(b: bv32, rest: bv32, n: nat)
    requires n > 0 && rest == b >> 1 && b & 1 == 1
    requires Halves(Register(rest), n - 1) == ZERO && Lowest(Register(rest), n - 1) == Ones(n - 1)
    ensures Halves(Register(b), n) == ZERO && Lowest(Register(b), n) == Ones(n)
  {
    HalfWord(b);
    LowWord(b);
    hide Half, Low;
    assert Ones(n) == [true] + Ones(n - 1);
  }

  lemma ByteOfOnes()
    ensures Halves(Register(0xff), 8) == ZERO && Lowest(Register(0xff), 8) == Ones(8)
  {
    hide Half, Halves, Lowest, Ones;
    NoHalves();
    OneHalf(0x1, 0x0, 1);
    OneHalf(0x3, 0x1, 2);
    OneHalf(0x7, 0x3, 3);
    OneHalf(0xf, 0x7, 4);
    OneHalf(0x1f, 0xf, 5);
    OneHalf(0x3f, 0x1f, 6);
    OneHalf(0x7f, 0x3f, 7);
    OneHalf(0xff, 0x7f, 8);
  }

  lemma NoOnesLeft()
    ensures Halves(ONES, 32) == ZERO && Coefficients(ONES) == Ones(32)
  {
    hide Half, Halves, Lowest, Ones;
    ByteOfOnes();
    OneHalf(0x1ff, 0xff, 9);
    OneHalf(0x3ff, 0x1ff, 10);
    OneHalf(0x7ff, 0x3ff, 11);
    OneHalf(0xfff, 0x7ff, 12);
    OneHalf(0x1fff, 0xfff, 13);
    OneHalf(0x3fff, 0x1fff, 14);
    OneHalf(0x7fff, 0x3fff, 15);
    OneHalf(0xffff, 0x7fff, 16);
    OneHalf(0x1ffff, 0xffff, 17);
    OneHalf(0x3ffff, 0x1ffff, 18);
    OneHalf(0x7ffff, 0x3ffff, 19);
    OneHalf(0xfffff, 0x7ffff, 20);
    OneHalf(0x1fffff, 0xfffff, 21);
    OneHalf(0x3fffff, 0x1fffff, 22);
    OneHalf(0x7fffff, 0x3fffff, 23);
    OneHalf(0xffffff, 0x7fffff, 24);
    OneHalf(0x1ffffff, 0xffffff, 25);
    OneHalf(0x3ffffff, 0x1ffffff, 26);
    OneHalf(0x7ffffff, 0x3ffffff, 27);
    OneHalf(0xfffffff, 0x7ffffff, 28);
    OneHalf(0x1fffffff, 0xfffffff, 29);
    OneHalf(0x3fffffff, 0x1fffffff, 30);
    OneHalf(0x7fffffff, 0x3fffffff, 31);
    OneHalf(0xffffffff, 0x7fffffff, 32);
  }

  lemma NoHalves()
    ensures Halves(Register(0), 0) == ZERO && Lowest(Register(0), 0) == Ones(0)
  {
  }

  /** No bit is left after 32. */
  lemma NothingLeft(x: Register)
    ensures Halves(x, 32) == ZERO
  {
    hide Halves, AtMost;
    NoOnesLeft();
    AtMostOnes(x);
    HalvesGrow(x, ONES, 32);
    AtMostOnes(Halves(x, 32));
  }

  // ----- one bit of the loop

  /** Half of a register shifts its coefficients by one power. */
  lemma HalfCoefficients(x: Register)
    ensures Coefficients(Half(x)) == Coefficients(x)[1..] + [false]
  {
    LowMore(x, 32);
    NothingLeft(x);
    LowZero();
    assert Lowest(x, 33) == [Low(x)] + Lowest(Half(x), 32);
    assert Lowest(x, 33)[1..] == Lowest(Half(x), 32);
  }

  lemma LowZero()
    ensures !Low(ZERO) && Half(ZERO) == ZERO
  {
  }

  lemma FirstCoefficient(x: Register)
    ensures Coefficients(x)[0] == Low(x)
  {
  }

  /** The coefficients of the generator below a power. */
  function Below(n: nat): (bits: Bits)
    ensures |bits| == n
  {
    seq(n, k requires 0 <= k < n => Power(n - 1 - k))
  }

  /** One more coefficient: `b` is the word with it, `rest` what a shift leaves. */
  lemma OneCoefficient(b: bv32, rest: bv32, n: nat)
    requires n > 0 && rest == b >> 1 && ((b & 1 == 1) <==> Power(n - 1))
    requires Lowest(Register(rest), n - 1) == Below(n - 1)
    ensures Lowest(Register(b), n) == Below(n)
  {
    HalfWord(b);
    LowWord(b);
    hide Half, Low, Power;
    assert Below(n) == [Power(n - 1)] + Below(n - 1);
  }

  /** The polynomial of the loop is the generator below its highest power. */
  lemma PolynomialCoefficients()
    ensures Generator() == [true] + Coefficients(Register(POLY))
  {
    hide Lowest, Below;
    NoCoefficients();
    OneCoefficient(0x1, 0x0, 1);
    OneCoefficient(0x2, 0x1, 2);
    OneCoefficient(0x4, 0x2, 3);
    OneCoefficient(0x8, 0x4, 4);
    OneCoefficient(0x10, 0x8, 5);
    OneCoefficient(0x20, 0x10, 6);
    OneCoefficient(0x41, 0x20, 7);
    OneCoefficient(0x82, 0x41, 8);
    OneCoefficient(0x105, 0x82, 9);
    OneCoefficient(0x20b, 0x105, 10);
    OneCoefficient(0x417, 0x20b, 11);
    OneCoefficient(0x82f, 0x417, 12);
    OneCoefficient(0x105e, 0x82f, 13);
    OneCoefficient(0x20bd, 0x105e, 14);
    OneCoefficient(0x417b, 0x20bd, 15);
    OneCoefficient(0x82f6, 0x417b, 16);
    OneCoefficient(0x105ec, 0x82f6, 17);
    OneCoefficient(0x20bd8, 0x105ec, 18);
    OneCoefficient(0x417b1, 0x20bd8, 19);
    OneCoefficient(0x82f63, 0x417b1, 20);
    OneCoefficient(0x105ec7, 0x82f63, 21);
    OneCoefficient(0x20bd8e, 0x105ec7, 22);
    OneCoefficient(0x417b1d, 0x20bd8e, 23);
    OneCoefficient(0x82f63b, 0x417b1d, 24);
    OneCoefficient(0x105ec76, 0x82f63b, 25);
    OneCoefficient(0x20bd8ed, 0x105ec76, 26);
    OneCoefficient(0x417b1db, 0x20bd8ed, 27);
    OneCoefficient(0x82f63b7, 0x417b1db, 28);
    OneCoefficient(0x105ec76f, 0x82f63b7, 29);
    OneCoefficient(0x20bd8ede, 0x105ec76f, 30);
    OneCoefficient(0x417b1dbc, 0x20bd8ede, 31);
    OneCoefficient(0x82f63b78, 0x417b1dbc, 32);
    AllCoefficients();
  }

  lemma NoCoefficients()
    ensures Lowest(Register(0), 0) == Below(0)
  {
  }

  lemma AllCoefficients()
    ensures Generator() == [true] + Below(32)
  {
  }

  lemma ShiftedBits(c: Bits, h: Bits, low: bool, poly: Bits, next: Bits)
    requires |h| == |poly| == 32 && c + [false] == [low] + h && Generator() == [true] + poly
    requires next == if low then Plus(h, poly) else h
    ensures |c| == 32 && Plus(c + [false], Generated(low)) == [false] + next
  {
    assert |c + [false]| == |[low] + h|;
  }

  lemma ShiftCoefficients(y: Register)
    ensures Coefficients(Shift(y)) ==
      if Low(y) then Plus(Coefficients(Half(y)), Coefficients(Register(POLY))) else Coefficients(Half(y))
  {
    hide Lowest, Xor, Half, Low;
    LowPlus(Half(y), Register(POLY), 32);
  }

  /** One shift of the register is one step of the division. */
  lemma ShiftDivides(y: Register)
    ensures Plus(Coefficients(y) + [false], Generated(Low(y))) == [false] + Coefficients(Shift(y))
  {
    HalfCoefficients(y);
    FirstCoefficient(y);
    PolynomialCoefficients();
    ShiftCoefficients(y);
    hide Shift, Half, Low, Lowest, Xor, Generator, Generated, Plus, Coefficients;
    var c, h := Coefficients(y), Coefficients(Half(y));
    assert c + [false] == [Low(y)] + h;
    ShiftedBits(c, h, Low(y), Coefficients(Register(POLY)), Coefficients(Shift(y)));
  }

  // ----- a message bit by bit

  function One(bit: bool): Register { if bit then Register(1) else ZERO }

  lemma OneCoefficients(bit: bool)
    ensures Coefficients(One(bit)) == [bit] + Zeros(31)
  {
    LowOfZero(31);
    LowOfZero(32);
    OneIsLow();
    assert Zeros(32) == [false] + Zeros(31);
    if bit {
      assert Lowest(Register(1), 32) == [Low(Register(1))] + Lowest(Half(Register(1)), 31);
    }
  }

  lemma OneIsLow()
    ensures Low(Register(1)) && Half(Register(1)) == ZERO
  {
  }

  function Step(x: Register, bit: bool): Register { Shift(Xor(x, One(bit))) }

  function RunBits(x: Register, bits: Bits): Register
    decreases |bits|
  {
    if bits == [] then x else RunBits(Step(x, bits[0]), bits[1..])
  }

  lemma {:induction false} RunBitsConcat(x: Register, a: Bits, b: Bits)
    ensures RunBits(x, a + b) == RunBits(RunBits(x, a), b)
    decreases |a|
  {
    hide Step;
    if a == [] {
      assert a + b == b;
    } else {
      assert (a + b)[0] == a[0] && (a + b)[1..] == a[1..] + b;
      RunBitsConcat(Step(x, a[0]), a[1..], b);
    }
  }

  /** The message times the 32nd power of x, its first 32 bits complemented. */
  function Dividend(bits: Bits): Bits { Plus(bits + Zeros(32), Ones(32) + Zeros(|bits|)) }

  lemma {:induction false} BitsDivide(bits: Bits) returns (quotient: Bits)
    ensures Divides(Dividend(bits), quotient, Coefficients(RunBits(ONES, bits))) && |quotient| == |bits|
    decreases |bits|
  {
    if bits == [] {
      NoOnesLeft();
      quotient := [];
      assert Dividend(bits) == Ones(32);
      assert Plus(Times(quotient), Zeros(0) + Ones(32)) == Ones(32);
    } else {
      var n := |bits| - 1;
      var front, bit := bits[..n], bits[n];
      var q := BitsDivide(front);
      var x := RunBits(ONES, front);
      var y := Xor(x, One(bit));
      RunBitsConcat(ONES, front, [bit]);
      assert bits == front + [bit];
      OneStep(x, bit);
      StepDivides(front, bit, q, x, y);
      quotient := q + [Low(y)];
    }
  }

  lemma OneStep(x: Register, bit: bool)
    ensures RunBits(x, [bit]) == Step(x, bit)
  {
    assert [bit][1..] == [];
  }

  lemma StepDivides(front: Bits, bit: bool, q: Bits, x: Register, y: Register)
    requires Divides(Dividend(front), q, Coefficients(x)) && |q| == |front| && y == Xor(x, One(bit))
    ensures Divides(Dividend(front + [bit]), q + [Low(y)], Coefficients(Shift(y)))
  {
    ShiftDivides(y);
    OneCoefficients(bit);
    LowPlus(x, One(bit), 32);
    hide Shift, Xor, One, Low, Lowest, Generated, Times;
    assert (q + [Low(y)])[..|q|] == q;
    TimesMore(q + [Low(y)]);
    DividendMore(front, bit);
    DivisionStep(Dividend(front), Times(q), |q|, bit, Coefficients(x), Coefficients(y), Generated(Low(y)), Coefficients(Shift(y)));
  }

  lemma DividendMore(front: Bits, bit: bool)
    ensures Dividend(front + [bit]) == Plus(Dividend(front) + [false], Zeros(|front|) + ([bit] + Zeros(32)))
  {
  }

  lemma DivisionStep(dividend: Bits, product: Bits, n: nat, bit: bool, r: Bits, y: Bits, g: Bits, next: Bits)
    requires |product| == n + 32 && |r| == |next| == 32 && |g| == 33
    requires dividend == Plus(product, Zeros(n) + r) && y == Plus(r, [bit] + Zeros(31))
    requires Plus(y + [false], g) == [false] + next
    ensures Plus(dividend + [false], Zeros(n) + ([bit] + Zeros(32))) ==
            Plus(Plus(product + [false], Zeros(n) + g), Zeros(n + 1) + next)
  {
    var left := Plus(dividend + [false], Zeros(n) + ([bit] + Zeros(32)));
    var right := Plus(Plus(product + [false], Zeros(n) + g), Zeros(n + 1) + next);
    var sum := Plus(y + [false], g);
    forall i | 0 <= i < n + 33
      ensures left[i] == right[i]
    {
      if i >= n {
        assert sum[i - n] == ([false] + next)[i - n];
      }
    }
  }

  // ----- a message byte by byte

  /** The bits of the bytes in order, the lowest bit of each byte first. */
  function BitsOf(bytes: seq<bv8>): Bits
    decreases |bytes|
  {
    if bytes == [] then [] else Lowest(Byte(bytes[0]), 8) + BitsOf(bytes[1..])
  }

  lemma ShiftOfOne(y: Register)
    ensures Shift(y) == Xor(Shift(One(Low(y))), Half(y))
  {
    OneIsLow();
    LowZero();
    XorZero(Register(POLY));
    XorZero(Half(y));
    XorCommutes(Half(y), Register(POLY));
    hide Half, Low, Xor;
  }

  lemma {:induction false} ShiftsAreBits(c: Register, y: Register, n: nat)
    requires Halves(y, n) == ZERO
    ensures Shifts(Xor(c, y), n) == RunBits(c, Lowest(y, n))
    decreases n
  {
    hide Shift, Xor, Half, Low, One;
    if n == 0 {
      XorZero(c);
    } else {
      var bit := Low(y);
      ShiftIsLinear(c, y);
      ShiftOfOne(y);
      ShiftIsLinear(c, One(bit));
      XorAssociates(Shift(c), Shift(One(bit)), Half(y));
      ShiftsAreBits(Step(c, bit), Half(y), n - 1);
      assert Lowest(y, n)[1..] == Lowest(Half(y), n - 1);
    }
  }

  lemma ByteIsShort(b: bv8)
    ensures Halves(Byte(b), 8) == ZERO
  {
    hide Halves, Byte, AtMost;
    ByteOfOnes();
    ByteBounded(b);
    HalvesGrow(Byte(b), Register(0xff), 8);
    AtMostOnes(Halves(Byte(b), 8));
  }

  lemma ByteBounded(b: bv8)
    ensures AtMost(Byte(b), Register(0xff))
  {
  }

  lemma {:induction false} RunIsBits(c: Register, bytes: seq<bv8>)
    ensures Run(c, bytes) == RunBits(c, BitsOf(bytes))
    decreases |bytes|
  {
    hide Shifts, Xor, Byte, Lowest;
    if bytes != [] {
      ByteIsShort(bytes[0]);
      ShiftsAreBits(c, Byte(bytes[0]), 8);
      RunBitsConcat(c, Lowest(Byte(bytes[0]), 8), BitsOf(bytes[1..]));
      RunIsBits(Fold(c, bytes[0]), bytes[1..]);
    }
  }

  lemma ComplementedTwice(x: Register)
    ensures Complement(Coefficients(Xor(x, ONES))) == Coefficients(x)
  {
    NoOnesLeft();
    LowPlus(x, ONES, 32);
    hide Lowest, Xor;
  }

  /** The checksum of any record is the complement of what its bits, with the first 32 complemented
      and 32 zeros behind them, leave when divided by the generator; nothing else is. */
  lemma ChecksumIsRemainder(bytes: seq<bv8>)
    ensures exists quotient :: Divides(Dividend(BitsOf(bytes)), quotient, Complement(Coefficients(Checksum(bytes))))
    ensures forall quotient, remainder :: Divides(Dividend(BitsOf(bytes)), quotient, remainder) ==>
      remainder == Complement(Coefficients(Checksum(bytes)))
  {
    RunIsBits(ONES, bytes);
    ComplementedTwice(Run(ONES, bytes));
    hide Divides, Dividend, Complement, Lowest, Run, RunBits;
    var q := BitsDivide(BitsOf(bytes));
    forall p, r | Divides(Dividend(BitsOf(bytes)), p, r)
      ensures r == Complement(Coefficients(Checksum(bytes)))
    {
      RemainderIsUnique(Dividend(BitsOf(bytes)), p, r, q, Complement(Coefficients(Checksum(bytes))));
    }
  }

  // ----- a published value

  function NextWord(x: bv32): bv32 { if x & 1 == 1 then (x >> 1) ^ POLY else x >> 1 }

  lemma FoldsTo(c: bv32, b: bv8, x0: bv32, x1: bv32, x2: bv32, x3: bv32, x4: bv32, x5: bv32, x6: bv32, x7: bv32, x8: bv32)
    requires x0 == c ^ (b as bv32) && x1 == NextWord(x0) && x2 == NextWord(x1) && x3 == NextWord(x2) && x4 == NextWord(x3)
    requires x5 == NextWord(x4) && x6 == NextWord(x5) && x7 == NextWord(x6) && x8 == NextWord(x7)
    ensures Fold(Register(c), b) == Register(x8)
  {
    ShiftIsNext(x0);
    ShiftIsNext(x1);
    ShiftIsNext(x2);
    ShiftIsNext(x3);
    ShiftIsNext(x4);
    ShiftIsNext(x5);
    ShiftIsNext(x6);
    ShiftIsNext(x7);
    assert Xor(Register(c), Byte(b)) == Register(x0);
    hide Shift, NextWord, Xor, Byte;
    assert Shifts(Register(x0), 8) == Shifts(Register(x1), 7) == Shifts(Register(x2), 6) == Shifts(Register(x3), 5);
    assert Shifts(Register(x3), 5) == Shifts(Register(x4), 4) == Shifts(Register(x5), 3) == Shifts(Register(x6), 2);
    assert Shifts(Register(x6), 2) == Shifts(Register(x7), 1) == Shifts(Register(x8), 0);
  }

  lemma ShiftIsNext(x: bv32)
    ensures Shift(Register(x)) == Register(NextWord(x))
  {
    HalfWord(x);
    XorWord(x >> 1);
    LowWord(x);
    hide Half, Xor, Low;
  }

  lemma LowWord(x: bv32)
    ensures Low(Register(x)) <==> x & 1 == 1
  {
  }

  lemma HalfWord(x: bv32)
    ensures Half(Register(x)) == Register(x >> 1)
  {
  }

  lemma XorWord(x: bv32)
    ensures Xor(Register(x), Register(POLY)) == Register(x ^ POLY)
  {
  }

  /** The digits 1 to 9 have the check value 0xe3069283. */
  lemma KnownValue()
    ensures Checksum([0x31, 0x32, 0x33, 0x34, 0x35, 0x36, 0x37, 0x38, 0x39]) == Register(0xe306_9283)
  {
    hide Fold;
    FoldsTo(0xffffffff, 0x31, 0xffffffce, 0x7fffffe7, 0xbd09c48b, 0xdc72d93d, 0xeccf57e6, 0x7667abf3, 0xb9c5ee81, 0xde14cc38, 0x6f0a661c);
    FoldsTo(0x6f0a661c, 0x32, 0x6f0a662e, 0x37853317, 0x9934a2f3, 0xce6c6a01, 0xe5c00e78, 0x72e0073c, 0x3970039e, 0x1cb801cf, 0x8caa3b9f);
    FoldsTo(0x8caa3b9f, 0x33, 0x8caa3bac, 0x46551dd6, 0x232a8eeb, 0x93637c0d, 0xcb47857e, 0x65a3c2bf, 0xb027da27, 0xdae5d66b, 0xef84d04d);
    FoldsTo(0xef84d04d, 0x34, 0xef84d079, 0xf5345344, 0x7a9a29a2, 0x3d4d14d1, 0x9c50b110, 0x4e285888, 0x27142c44, 0x138a1622, 0x09c50b11);
    FoldsTo(0x09c50b11, 0x35, 0x09c50b24, 0x04e28592, 0x027142c9, 0x83ce9a1c, 0x41e74d0e, 0x20f3a687, 0x928fe83b, 0xcbb1cf65, 0xe72edcca);
    FoldsTo(0xe72edcca, 0x36, 0xe72edcfc, 0x73976e7e, 0x39cbb73f, 0x9e13e0e7, 0xcdffcb0b, 0xe409defd, 0xf0f2d406, 0x78796a03, 0xbeca8e79);
    FoldsTo(0xbeca8e79, 0x37, 0xbeca8e4e, 0x5f654727, 0xad4498eb, 0xd454770d, 0xe8dc00fe, 0x746e007f, 0xb8c13b47, 0xde96a6db, 0xedbd6815);
    FoldsTo(0xedbd6815, 0x38, 0xedbd682d, 0xf4288f6e, 0x7a1447b7, 0xbffc18a3, 0xdd083729, 0xec7220ec, 0x76391076, 0x3b1c883b, 0x9f787f65);
    FoldsTo(0x9f787f65, 0x39, 0x9f787f5c, 0x4fbc3fae, 0x27de1fd7, 0x91193493, 0xca7aa131, 0xe7cb6be0, 0x73e5b5f0, 0x39f2daf8, 0x1cf96d7c);
    var digits: seq<bv8> := [0x31, 0x32, 0x33, 0x34, 0x35, 0x36, 0x37, 0x38, 0x39];
    RunFront(Register(0xffffffff), digits, 0, Register(0x6f0a661c));
    RunFront(Register(0x6f0a661c), digits, 1, Register(0x8caa3b9f));
    RunFront(Register(0x8caa3b9f), digits, 2, Register(0xef84d04d));
    RunFront(Register(0xef84d04d), digits, 3, Register(0x09c50b11));
    RunFront(Register(0x09c50b11), digits, 4, Register(0xe72edcca));
    RunFront(Register(0xe72edcca), digits, 5, Register(0xbeca8e79));
    RunFront(Register(0xbeca8e79), digits, 6, Register(0xedbd6815));
    RunFront(Register(0xedbd6815), digits, 7, Register(0x9f787f65));
    RunFront(Register(0x9f787f65), digits, 8, Register(0x1cf96d7c));
    assert digits[0..] == digits && digits[9..] == [];
  }

  lemma RunFront(c: Register, bytes: seq<bv8>, i: nat, next: Register)
    requires i < |bytes| && Fold(c, bytes[i]) == next
    ensures Run(c, bytes[i..]) == Run(next, bytes[i + 1..])
  {
    assert bytes[i..][0] == bytes[i] && bytes[i..][1..] == bytes[i + 1..];
  }
}
