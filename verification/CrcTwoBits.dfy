/** Two flipped bits: the checksum misses them exactly if their distance is a multiple of 32767, the order
    of the polynomial, so that it detects up to three flipped bits in any frame the protocol allows. */
module CrcTwoBits {
  import opened Bytes
  import opened Crc

  // ---------------------------------------------------------------- words

  lemma XorFacts(a: bv16, b: bv16, c: bv16)
    ensures Xor(Xor(a, b), Xor(b, c)) == Xor(a, c)
    ensures Xor(Xor(a, b), b) == a
    ensures Xor(a, a) == 0
    ensures Xor(a, b) == Xor(b, a)
  {}

  lemma XorZero(a: bv16, b: bv16)
    requires Xor(a, b) == 0
    ensures a == b
  {}

  lemma XorAssociates(a: bv16, b: bv16, c: bv16)
    ensures Xor(Xor(a, b), c) == Xor(a, Xor(b, c))
  {
    XorRegroup(a, b, c);
  }

  lemma XorThree(b: bv16, c: bv16, d: bv16)
    ensures Xor(Xor(Xor(c, d), b), c) == Xor(b, d)
  {
    XorAssociates(c, d, b);
    XorFacts(c, Xor(d, b), b);
    XorFacts(Xor(d, b), c, b);
    XorFacts(d, b, b);
  }

  lemma FourXor(a: bv16, b: bv16, c: bv16, d: bv16)
    requires Xor(a, b) == Xor(c, d)
    ensures Xor(a, c) == Xor(b, d)
  {
    XorFacts(a, b, b);
    XorThree(b, c, d);
  }

  lemma ShiftOutInjective(x: bv16, y: bv16)
    requires ShiftOut(x) == ShiftOut(y)
    ensures x == y
  {}

  // ---------------------------------------------------------------- parity

  lemma {:induction false} OddXor(r: Reg, q: Reg, i: nat)
    ensures OddFrom(XorReg(r, q), i) == (OddFrom(r, i) != OddFrom(q, i))
    decreases 16 - i
  {
    if i < 16 {
      OddXor(r, q, i + 1);
    }
  }

  lemma OddKept(c: bv16)
    ensures OddFrom(RegOf(ShiftOut(c)), 0) == OddFrom(RegOf(c), 0)
  {
    RegOfShift(c);
    FeedBitParity(RegOf(c), false, 0);
  }

  lemma {:induction false} NothingOdd(r: Reg, i: nat)
    requires forall k :: i <= k < 16 ==> !r[k]
    ensures !OddFrom(r, i)
    decreases 16 - i
  {
    if i < 16 {
      NothingOdd(r, i + 1);
    }
  }

  /** Every register a shift leaves alone is zero or has three ones. */
  lemma FixedPoints(r: Reg)
    requires FeedBit(r, false) == r
    ensures r == ZeroReg() || OddFrom(r, 0)
  {
    var q := FeedBit(r, false);
    if r[0] {
      assert q[15] && q[14] && !q[13];
      StayZero(r, 1);
      assert OddFrom(r, 14) == (r[14] != (r[15] != OddFrom(r, 16)));
      EvenDown(r, 1);
    } else {
      StayZero(r, 0);
      assert !q[15] && !q[14];
    }
  }

  lemma {:induction false} StayZero(r: Reg, i: nat)
    requires FeedBit(r, false) == r && i <= 13 && (i == 0 ==> !r[0])
    requires !FeedBit(r, false)[13]
    ensures forall k :: i <= k <= 13 ==> !r[k]
    decreases 13 - i
  {
    if i < 13 {
      StayZero(r, i + 1);
      assert FeedBit(r, false)[i] == (r[i + 1] != (r[0] && Tap(i)));
    }
  }

  lemma {:induction false} EvenDown(r: Reg, i: nat)
    requires 1 <= i <= 14 && forall k :: i <= k < 14 ==> !r[k]
    ensures OddFrom(r, i) == OddFrom(r, 14)
    decreases 14 - i
  {
    if i < 14 {
      EvenDown(r, i + 1);
    }
  }

  // ---------------------------------------------------------------- the sequence and its recurrence

  /** The register after one flipped bit and `n` more bits, one bit before it is fed. */
  function Unit(n: nat): bv16 { if n == 0 then 1 else ShiftOut(Unit(n - 1)) }

  /** The difference of two neighbours: without the factor x + 1 of the polynomial. */
  function X(n: nat): bv16 { if n == 0 then 0xa000 else ShiftOut(X(n - 1)) }

  lemma {:induction false} XIsDifference(n: nat)
    ensures X(n) == Xor(Unit(n + 1), Unit(n))
  {
    if n == 0 {
      assert Unit(1) == ShiftOut(Unit(0));
    } else {
      XIsDifference(n - 1);
      ShiftOutLinear(Unit(n), Unit(n - 1));
    }
  }

  /** What x^15 + x + 1 says of the sequence, at the step `p`. */
  predicate RecursAt(p: nat, n: nat) { X(n + 15 * p) == Xor(X(n + p), X(n)) }

  ghost predicate Recurs(p: nat) { forall n: nat :: RecursAt(p, n) }

  lemma FirstValues()
    ensures X(1) == 0x5000
    ensures X(7) == 0x0140 && X(9) == 0x0050 && X(11) == 0x0014 && X(13) == 0x0005
    ensures X(15) == 0xf000 && X(16) == 0x7800 && X(17) == 0x3c00 && X(18) == 0x1e00 && X(19) == 0x0f00
    ensures X(20) == 0x0780 && X(21) == 0x03c0 && X(22) == 0x01e0 && X(23) == 0x00f0 && X(25) == 0x003c
    ensures X(26) == 0x001e && X(29) == 0x5003 && X(33) == 0x1100
  {
    assert X(1) == 0x5000 && X(2) == 0x2800 && X(3) == 0x1400 && X(4) == 0x0a00;
    assert X(5) == 0x0500 && X(6) == 0x0280 && X(7) == 0x0140 && X(8) == 0x00a0;
    assert X(9) == 0x0050 && X(10) == 0x0028 && X(11) == 0x0014 && X(12) == 0x000a;
    assert X(13) == 0x0005 && X(14) == 0xa003 && X(15) == 0xf000 && X(16) == 0x7800;
    assert X(17) == 0x3c00 && X(18) == 0x1e00 && X(19) == 0x0f00 && X(20) == 0x0780;
    assert X(21) == 0x03c0 && X(22) == 0x01e0 && X(23) == 0x00f0 && X(24) == 0x0078;
    assert X(25) == 0x003c && X(26) == 0x001e && X(27) == 0x000f && X(28) == 0xa006;
    assert X(29) == 0x5003 && X(30) == 0x8800 && X(31) == 0x4400 && X(32) == 0x2200;
    assert X(33) == 0x1100;
  }

  lemma {:induction false} RecursAtOne(n: nat)
    ensures X(n + 15) == Xor(X(n + 1), X(n))
  {
    if n == 0 {
      FirstValues();
    } else {
      RecursAtOne(n - 1);
      ShiftOutLinear(X(n), X(n - 1));
    }
  }

  /** Squaring: a recurrence at a step is one at twice the step. */
  lemma Doubled(p: nat)
    requires Recurs(p)
    ensures Recurs(2 * p)
  {
    forall n: nat ensures RecursAt(2 * p, n) {
      assert (n + 15 * p) + p == (n + p) + 15 * p && (n + p) + p == n + 2 * p;
      assert (n + 15 * p) + 15 * p == n + 15 * (2 * p);
      assert RecursAt(p, n) && RecursAt(p, n + p) && RecursAt(p, n + 15 * p);
      XorFacts(X(n + 2 * p), X(n + p), X(n));
    }
  }

  /** So sixteen steps are two and one. */
  lemma Sixteen(p: nat, n: nat)
    requires Recurs(p)
    ensures X(n + 16 * p) == Xor(X(n + 2 * p), X(n + p))
  {
    assert RecursAt(p, n + p);
    assert (n + p) + 15 * p == n + 16 * p && (n + p) + p == n + 2 * p;
  }

  ghost predicate AllRecur() {
    && Recurs(1) && Recurs(2) && Recurs(4) && Recurs(8) && Recurs(16) && Recurs(32)
    && Recurs(64) && Recurs(128) && Recurs(256) && Recurs(512) && Recurs(1024) && Recurs(2048)
  }

  lemma AllSquares()
    ensures AllRecur()
  {
    forall n: nat ensures RecursAt(1, n) {
      RecursAtOne(n);
    }
    Doubled(1); Doubled(2); Doubled(4); Doubled(8); Doubled(16); Doubled(32);
    Doubled(64); Doubled(128); Doubled(256); Doubled(512); Doubled(1024);
  }

  // ---------------------------------------------------------------- the period

  /** The powers of two, expressed by the first four. */
  lemma LowPowers(n: nat)
    requires AllRecur()
    ensures X(n + 16) == Xor(X(n + 2), X(n + 1))
    ensures X(n + 32) == Xor(X(n + 4), X(n + 2))
    ensures X(n + 64) == Xor(X(n + 8), X(n + 4))
    ensures X(n + 128) == Xor(X(n + 16), X(n + 8))
    ensures X(n + 256) == Xor(X(n + 4), X(n + 1))
    ensures X(n + 512) == Xor(X(n + 8), X(n + 2))
  {
    Sixteen(1, n); Sixteen(2, n); Sixteen(4, n); Sixteen(8, n); Sixteen(16, n); Sixteen(32, n);
    XorFacts(X(n + 4), X(n + 2), X(n + 1));
    XorFacts(X(n + 8), X(n + 4), X(n + 2));
  }

  lemma HighPowers(n: nat)
    requires AllRecur()
    ensures X(n + 4096) == Xor(X(n + 512), X(n + 256))
    ensures X(n + 8192) == Xor(X(n + 1024), X(n + 512))
    ensures X(n + 16384) == Xor(X(n + 2048), X(n + 1024))
    ensures X(n + 1024) == Xor(X(n + 128), X(n + 64))
    ensures X(n + 2048) == Xor(X(n + 256), X(n + 128))
    ensures X(n + 32768) == Xor(X(n + 4096), X(n + 2048))
  {
    Sixteen(64, n); Sixteen(128, n); Sixteen(256, n); Sixteen(512, n); Sixteen(1024, n); Sixteen(2048, n);
  }

  /** The sequence comes back after 32767. */
  lemma Returns(n: nat)
    requires AllRecur()
    ensures X(n + 32768) == X(n + 1)
  {
    LowPowers(n);
    HighPowers(n);
    XorFacts(X(n + 512), X(n + 256), X(n + 128));
    assert X(n + 32768) == Xor(X(n + 512), X(n + 128));
    XorFacts(X(n + 8), X(n + 2), X(n + 16));
    XorFacts(X(n + 16), X(n + 8), X(n + 2));
    XorFacts(X(n + 2), X(n + 8), X(n + 16));
    assert X(n + 32768) == Xor(X(n + 2), X(n + 16));
    XorFacts(X(n + 1), X(n + 2), X(n + 2));
    XorFacts(X(n + 2), X(n + 1), X(n + 2));
  }

  lemma {:induction false} SameFrom(a: nat, b: nat, n: nat)
    ensures X(a) == X(b) <==> X(a + n) == X(b + n)
  {
    if n > 0 {
      SameFrom(a, b, n - 1);
      if X(a + n) == X(b + n) {
        ShiftOutInjective(X(a + n - 1), X(b + n - 1));
      }
    }
  }

  predicate Period(k: nat) { X(k) == X(0) }

  lemma Order()
    ensures Period(32767)
  {
    AllSquares();
    Returns(0);
    SameFrom(32767, 0, 1);
  }

  // ---------------------------------------------------------------- and not before

  lemma Not217()
    ensures !Period(217)
  {
    AllSquares();
    FirstValues();
    LowPowers(89); LowPowers(41); LowPowers(33); LowPowers(17); LowPowers(13); LowPowers(9); LowPowers(5);
    assert X(49) == 0x0cc0 && X(45) == 0xcc00;
    assert X(41) == 0x0011 && X(37) == 0x0110;
    assert X(105) == 0xc0c0 && X(97) == 0x0101;
  }

  lemma Not1057()
    ensures !Period(1057)
  {
    AllSquares();
    FirstValues();
    HighPowers(33);
    LowPowers(33); LowPowers(17); LowPowers(9); LowPowers(5);
    assert X(49) == 0x0cc0 && X(41) == 0x0011 && X(37) == 0x0110;
    assert X(161) == 0x0cd1 && X(97) == 0x0101;
  }

  lemma SomeValues()
    requires AllRecur()
    ensures X(89) == 0x4103 && X(81) == 0x03fc && X(25) == 0x003c && X(17) == 0x3c00
    ensures X(85) == 0x503f && X(79) == 0x0ff0 && X(82) == 0x01fe && X(76) == 0x7f80
  {
    FirstValues();
    LowPowers(25); LowPowers(17); LowPowers(21); LowPowers(15); LowPowers(18); LowPowers(12); LowPowers(4);
  }

  lemma MoreValues()
    requires AllRecur()
    ensures X(201) == 0x42ff && X(137) == 0x3c3c && X(589) == 0x5fcf && X(586) == 0x7e7e
  {
    SomeValues();
    LowPowers(73); LowPowers(9); LowPowers(77); LowPowers(74);
  }

  lemma Not4681()
    ensures !Period(4681)
  {
    AllSquares();
    MoreValues();
    HighPowers(585); HighPowers(73); LowPowers(585);
    assert X(1097) == 0x7ec3 && X(841) == 0x21b1;
  }

  lemma PeriodsAdd(a: nat, b: nat)
    requires Period(b)
    ensures Period(a + b) <==> Period(a)
  {
    SameFrom(a, 0, b);
  }

  lemma {:induction false} PeriodsMultiply(k: nat, m: nat)
    requires Period(k)
    ensures Period(m * k)
  {
    if m > 0 {
      PeriodsMultiply(k, m - 1);
      PeriodsAdd((m - 1) * k, k);
      assert (m - 1) * k + k == m * k;
    }
  }

  lemma RemainderIsPeriod(k: nat, p: nat)
    requires Period(k) && Period(p) && p > 0
    ensures Period(k % p)
  {
    PeriodsMultiply(p, k / p);
    assert k == k % p + (k / p) * p;
    PeriodsAdd(k % p, (k / p) * p);
  }

  predicate IsLeast(p: nat) { p > 0 && Period(p) && forall q :: 0 < q < p ==> !Period(q) }

  lemma {:induction false} LeastBelow(k: nat) returns (p: nat)
    requires k > 0 && Period(k)
    ensures IsLeast(p)
    decreases k
  {
    if q :| 0 < q < k && Period(q) {
      p := LeastBelow(q);
    } else {
      p := k;
    }
  }

  lemma LeastDivides(p: nat, k: nat)
    requires IsLeast(p) && Period(k)
    ensures k % p == 0
  {
    RemainderIsPeriod(k, p);
  }

  /** The divisors of 32767 up to a bound. */
  predicate OnlyThese(d: nat) {
    d == 0 || ((32767 % d == 0 ==> d == 1 || d == 7 || d == 31 || d == 151) && OnlyThese(d - 1))
  }

  lemma {:induction false} IsOneOfThese(d: nat, bound: nat)
    requires 0 < d <= bound && OnlyThese(bound) && 32767 % d == 0
    ensures d == 1 || d == 7 || d == 31 || d == 151
    decreases bound
  {
    if d < bound {
      IsOneOfThese(d, bound - 1);
    }
  }

  lemma NoMultipleBetween(d: nat, m: int, r: nat)
    requires d * m == r < d
    ensures m == 0 && r == 0
  {
    assert m >= 1 ==> d * m >= d;
    assert m <= -1 ==> d * m + d <= 0;
  }

  lemma Divides(d: nat, q: nat, n: nat)
    requires d > 0 && d * q == n
    ensures n % d == 0 && n / d == q
  {
    NoMultipleBetween(d, q - n / d, n % d);
  }

  lemma SmallDivisors()
    ensures OnlyThese(75)
  {
    assert OnlyThese(15);
    assert OnlyThese(30);
    assert OnlyThese(45);
    assert OnlyThese(60);
  }

  lemma MoreDivisors()
    ensures OnlyThese(135)
  {
    SmallDivisors();
    assert OnlyThese(90);
    assert OnlyThese(105);
    assert OnlyThese(120);
  }

  lemma AllDivisors()
    ensures OnlyThese(181)
  {
    MoreDivisors();
    assert OnlyThese(150);
    assert OnlyThese(165);
    assert OnlyThese(180);
  }

  lemma OneIsSmall(p: nat, q: nat)
    ensures p > 181 && q > 181 ==> p * q >= 182 * 182
  {
    assert p > 181 && q > 181 ==> p * q >= 182 * q;
  }

  /** 32767 is 7 times 31 times 151. */
  lemma ProperDivisor(p: nat, q: nat)
    requires p * q == 32767 && q > 1
    ensures 0 < p && (217 % p == 0 || 1057 % p == 0 || 4681 % p == 0)
  {
    OneIsSmall(p, q);
    AllDivisors();
    if p <= 181 {
      Divides(p, q, 32767);
      IsOneOfThese(p, 181);
    } else {
      Divides(q, p, 32767);
      IsOneOfThese(q, 181);
    }
  }

  lemma MultipleIsPeriod(p: nat, k: nat)
    requires Period(p) && p > 0 && k % p == 0
    ensures Period(k)
  {
    PeriodsMultiply(p, k / p);
  }

  /** The order of the polynomial. */
  lemma PeriodIff(k: nat)
    ensures Period(k) <==> k % 32767 == 0
  {
    Order();
    if k % 32767 == 0 {
      MultipleIsPeriod(32767, k);
    }
    var p := LeastBelow(32767);
    LeastDivides(p, 32767);
    if p < 32767 {
      ProperDivisor(p, 32767 / p);
      Not217();
      Not1057();
      Not4681();
      if 217 % p == 0 {
        MultipleIsPeriod(p, 217);
      } else if 1057 % p == 0 {
        MultipleIsPeriod(p, 1057);
      } else {
        MultipleIsPeriod(p, 4681);
      }
    } else if Period(k) {
      LeastDivides(32767, k);
    }
  }

  // ---------------------------------------------------------------- one flipped bit, seen from later

  lemma UnitReturns(k: nat)
    ensures Unit(k) == Unit(0) <==> Period(k)
  {
    XIsDifference(k);
    XIsDifference(0);
    if Unit(k) == Unit(0) {
      assert Unit(k + 1) == ShiftOut(Unit(k)) && Unit(1) == ShiftOut(Unit(0));
    }
    if Period(k) {
      var y := Xor(Unit(k), Unit(0));
      FourXor(Unit(k + 1), Unit(k), Unit(1), Unit(0));
      ShiftOutLinear(Unit(k), Unit(0));
      assert ShiftOut(y) == y;
      RegOfShift(y);
      FixedPoints(RegOf(y));
      RegOfXor(Unit(k), Unit(0));
      OddXor(RegOf(Unit(k)), RegOf(Unit(0)), 0);
      UnitIsOdd(k);
      RegOfZero();
      RegInjective(y, 0);
      XorZero(Unit(k), Unit(0));
    }
  }

  lemma {:induction false} UnitIsOdd(n: nat)
    ensures OddFrom(RegOf(Unit(n)), 0) == OddFrom(RegOf(Unit(0)), 0)
  {
    if n > 0 {
      UnitIsOdd(n - 1);
      OddKept(Unit(n - 1));
    }
  }

  lemma {:induction false} ZerosAfter(bits: seq<bool>, m: nat)
    requires forall i :: 0 <= i < |bits| ==> !bits[i]
    ensures Fold(FeedBit, bits, RegOf(Unit(m))) == RegOf(Unit(m + |bits|))
    decreases |bits|
  {
    if bits != [] {
      RegOfShift(Unit(m));
      ZerosAfter(bits[1..], m + 1);
    }
  }

  lemma OneAt(i: nat)
    requires i < 16
    ensures Bit(1, i) == (i == 0)
  {
    match i
    case 0 => case 1 => case 2 => case 3 => case 4 => case 5 => case 6 => case 7 =>
    case 8 => case 9 => case 10 => case 11 => case 12 => case 13 => case 14 => case _ =>
  }

  lemma FirstFlip()
    ensures FeedBit(ZeroReg(), true) == RegOf(Unit(1))
  {
    assert Unit(1) == ShiftOut(Unit(0));
    RegOfShift(1);
    OneAt(0);
    forall i: nat | i < 16 ensures FeedBit(ZeroReg(), true)[i] == FeedBit(RegOf(1), false)[i] {
      if i < 15 {
        OneAt(i + 1);
      }
    }
  }

  lemma SecondFlip(k: nat)
    ensures FeedBit(RegOf(Unit(k)), true) == RegOf(Xor(Unit(k + 1), Unit(1)))
  {
    var r := RegOf(Unit(k));
    FeedBitLinear(r, ZeroReg(), false, true);
    assert XorReg(r, ZeroReg()) == r;
    RegOfShift(Unit(k));
    FirstFlip();
    RegOfXor(Unit(k + 1), Unit(1));
  }

  lemma WordIsZero(a: bv16, b: bv16)
    ensures RegOf(Xor(a, b)) == ZeroReg() <==> a == b
  {
    RegOfZero();
    XorFacts(a, a, a);
    if RegOf(Xor(a, b)) == ZeroReg() {
      RegInjective(Xor(a, b), 0);
      XorZero(a, b);
    }
  }

  // ---------------------------------------------------------------- two flipped bits

  predicate NoOnes(bits: seq<bool>) { forall i :: 0 <= i < |bits| ==> !bits[i] }

  lemma OneFlip(r: Reg, rest: seq<bool>)
    ensures Fold(FeedBit, [true] + rest, r) == Fold(FeedBit, rest, FeedBit(r, true))
  {
    assert ([true] + rest)[1..] == rest;
  }

  lemma FromSecondFlip(middle: seq<bool>, after: seq<bool>)
    requires NoOnes(middle)
    ensures Fold(FeedBit, middle + ([true] + after), RegOf(Unit(1)))
         == Fold(FeedBit, after, RegOf(Xor(Unit(|middle| + 2), Unit(1))))
  {
    FoldConcat(FeedBit, middle, [true] + after, RegOf(Unit(1)));
    ZerosAfter(middle, 1);
    OneFlip(RegOf(Unit(1 + |middle|)), after);
    SecondFlip(|middle| + 1);
  }

  lemma FromFirstFlip(before: seq<bool>, rest: seq<bool>)
    requires NoOnes(before)
    ensures Fold(FeedBit, before + ([true] + rest), ZeroReg()) == Fold(FeedBit, rest, RegOf(Unit(1)))
  {
    FoldConcat(FeedBit, before, [true] + rest, ZeroReg());
    ZeroBits(before);
    OneFlip(ZeroReg(), rest);
    FirstFlip();
  }

  lemma StaysZero(after: seq<bool>, q: Reg)
    requires NoOnes(after)
    ensures Fold(FeedBit, after, q) == ZeroReg() <==> q == ZeroReg()
  {
    ZeroBits(after);
    if Fold(FeedBit, after, q) == ZeroReg() {
      SameStart(after, q, ZeroReg());
    }
  }

  lemma NextUnits(k: nat)
    ensures Unit(k + 1) == Unit(1) <==> Unit(k) == Unit(0)
  {
    assert Unit(k + 1) == ShiftOut(Unit(k)) && Unit(1) == ShiftOut(Unit(0));
    if Unit(k + 1) == Unit(1) {
      ShiftOutInjective(Unit(k), Unit(0));
    }
  }

  /** The pattern of two flipped bits has a zero register exactly if their distance is a period. */
  lemma TwoOnesPattern(before: seq<bool>, middle: seq<bool>, after: seq<bool>)
    requires NoOnes(before) && NoOnes(middle) && NoOnes(after)
    ensures Fold(FeedBit, before + ([true] + (middle + ([true] + after))), ZeroReg()) == ZeroReg()
       <==> Period(|middle| + 1)
  {
    var k := |middle| + 1;
    FromFirstFlip(before, middle + ([true] + after));
    FromSecondFlip(middle, after);
    StaysZero(after, RegOf(Xor(Unit(k + 1), Unit(1))));
    WordIsZero(Unit(k + 1), Unit(1));
    NextUnits(k);
    UnitReturns(k);
  }

  predicate OnlyAt(e: seq<bool>, i: nat, j: nat) {
    i < j < |e| && forall m :: 0 <= m < |e| ==> (e[m] <==> m == i || m == j)
  }

  lemma AroundTheTwo(e: seq<bool>, i: nat, j: nat)
    requires OnlyAt(e, i, j)
    ensures NoOnes(e[..i]) && NoOnes(e[i + 1..j]) && NoOnes(e[j + 1..])
    ensures e == e[..i] + ([true] + (e[i + 1..j] + ([true] + e[j + 1..])))
  {}

  lemma PatternOfTwo(e: seq<bool>, i: nat, j: nat)
    requires OnlyAt(e, i, j)
    ensures Fold(FeedBit, e, ZeroReg()) == ZeroReg() <==> (j - i) % 32767 == 0
  {
    AroundTheTwo(e, i, j);
    TwoOnesPattern(e[..i], e[i + 1..j], e[j + 1..]);
    PeriodIff(j - i);
  }

  /** TWO BITS, exactly. Flipping two bits of a valid frame goes unnoticed if and only if their distance is a
      multiple of 32767. */
  lemma TwoBitsPassIff(f: seq<byte>, g: seq<byte>, i: nat, j: nat)
    requires |f| == |g| && Passes(f) && i < j < 8 * |f|
    requires forall m :: 0 <= m < 8 * |f| ==> (Bits(f)[m] != Bits(g)[m] <==> m == i || m == j)
    ensures Passes(g) <==> (j - i) % 32767 == 0
  {
    PassesIffPatternZero(f, g);
    PatternOfTwo(Differences(Bits(f), Bits(g)), i, j);
  }

  // ---------------------------------------------------------------- up to three flipped bits

  lemma {:induction false} NoOnesAtAll(bits: seq<bool>)
    requires Ones(bits) == 0
    ensures NoOnes(bits)
  {
    if bits != [] {
      NoOnesAtAll(bits[1..]);
      forall i | 0 <= i < |bits| ensures !bits[i] {
        assert i > 0 ==> bits[i] == bits[1..][i - 1];
      }
    }
  }

  lemma {:induction false} TheOne(bits: seq<bool>) returns (i: nat)
    requires Ones(bits) == 1
    ensures i < |bits| && forall m :: 0 <= m < |bits| ==> (bits[m] <==> m == i)
  {
    if bits[0] {
      NoOnesAtAll(bits[1..]);
      i := 0;
      forall m | 0 < m < |bits| ensures !bits[m] {
        assert bits[m] == bits[1..][m - 1];
      }
    } else {
      var k := TheOne(bits[1..]);
      i := k + 1;
      forall m | 0 < m < |bits| ensures bits[m] <==> m == i {
        assert bits[m] == bits[1..][m - 1];
      }
    }
  }

  lemma {:induction false} TheTwo(bits: seq<bool>) returns (i: nat, j: nat)
    requires Ones(bits) == 2
    ensures i < j < |bits| && forall m :: 0 <= m < |bits| ==> (bits[m] <==> m == i || m == j)
  {
    if bits[0] {
      var k := TheOne(bits[1..]);
      i, j := 0, k + 1;
      forall m | 0 < m < |bits| ensures bits[m] <==> m == j {
        assert bits[m] == bits[1..][m - 1];
      }
    } else {
      var a, b := TheTwo(bits[1..]);
      i, j := a + 1, b + 1;
      forall m | 0 < m < |bits| ensures bits[m] <==> m == i || m == j {
        assert bits[m] == bits[1..][m - 1];
      }
    }
  }

  /** DISTANCE FOUR. In a frame of at most 4095 bytes, sixteen times what the protocol allows, any one, two
      or three flipped bits are detected, wherever they are. */
  lemma UpToThreeDetected(f: seq<byte>, g: seq<byte>)
    requires |f| == |g| <= 4095 && Passes(f)
    requires 1 <= Ones(Differences(Bits(f), Bits(g))) <= 3
    ensures !Passes(g)
  {
    var e := Differences(Bits(f), Bits(g));
    if Ones(e) == 2 {
      var i, j := TheTwo(e);
      TwoBitsPassIff(f, g, i, j);
    } else {
      OddErrorsDetected(f, g);
    }
  }
}
