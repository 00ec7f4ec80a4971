/** The RTU checksum: the table-driven loop of the code against the bit-serial algorithm of
    section 6.2.2 of MODBUS over Serial Line V1.02, and what the checksum detects. */
module Crc {
  import opened Bytes

  // ---------------------------------------------------------------- the standard's algorithm

  /** One bit: shift right; if a one fell out, exclusive-or the polynomial 0xA001. */
  function ShiftOut(c: bv16): bv16 {
    if c & 1 == 1 then (c >> 1) ^ 0xa001 else c >> 1
  }

  function Shift8(c: bv16): bv16 {
    ShiftOut(ShiftOut(ShiftOut(ShiftOut(ShiftOut(ShiftOut(ShiftOut(ShiftOut(c))))))))
  }

  /** One byte: exclusive-or it into the low half, then eight bits. */
  function FeedByte(c: bv16, b: byte): bv16 { Shift8(c ^ (b as bv16)) }

  /** The state after a run of items, for any per-item update. */
  function Fold<S, B>(feed: (S, B) -> S, data: seq<B>, seed: S): S
    decreases |data|
  {
    if data == [] then seed else Fold(feed, data[1..], feed(seed, data[0]))
  }

  function BitSerial(data: seq<byte>, seed: bv16): bv16 { Fold(FeedByte, data, seed) }

  function Crc16(data: seq<byte>): bv16 { BitSerial(data, 0xffff) }

  // ---------------------------------------------------------------- the code's algorithm

  function Pick(j: byte, a0: bv16, a1: bv16, a2: bv16, a3: bv16, a4: bv16, a5: bv16, a6: bv16, a7: bv16,
                a8: bv16, a9: bv16, a10: bv16, a11: bv16, a12: bv16, a13: bv16, a14: bv16, a15: bv16): bv16
  {
    if j < 8 then
      (if j < 4 then (if j < 2 then (if j < 1 then a0 else a1) else (if j < 3 then a2 else a3))
       else (if j < 6 then (if j < 5 then a4 else a5) else (if j < 7 then a6 else a7)))
    else
      (if j < 12 then (if j < 10 then (if j < 9 then a8 else a9) else (if j < 11 then a10 else a11))
       else (if j < 14 then (if j < 13 then a12 else a13) else (if j < 15 then a14 else a15)))
  }

  /** The 256 constants of the table, sixteen to a row, in index order. */
  function CrcTable(i: byte): bv16 {
    var j := i & 15;
    match i >> 4
    case 0 => Pick(j, 0x0000, 0xc0c1, 0xc181, 0x0140, 0xc301, 0x03c0, 0x0280, 0xc241,
                     0xc601, 0x06c0, 0x0780, 0xc741, 0x0500, 0xc5c1, 0xc481, 0x0440)
    case 1 => Pick(j, 0xcc01, 0x0cc0, 0x0d80, 0xcd41, 0x0f00, 0xcfc1, 0xce81, 0x0e40,
                     0x0a00, 0xcac1, 0xcb81, 0x0b40, 0xc901, 0x09c0, 0x0880, 0xc841)
    case 2 => Pick(j, 0xd801, 0x18c0, 0x1980, 0xd941, 0x1b00, 0xdbc1, 0xda81, 0x1a40,
                     0x1e00, 0xdec1, 0xdf81, 0x1f40, 0xdd01, 0x1dc0, 0x1c80, 0xdc41)
    case 3 => Pick(j, 0x1400, 0xd4c1, 0xd581, 0x1540, 0xd701, 0x17c0, 0x1680, 0xd641,
                     0xd201, 0x12c0, 0x1380, 0xd341, 0x1100, 0xd1c1, 0xd081, 0x1040)
    case 4 => Pick(j, 0xf001, 0x30c0, 0x3180, 0xf141, 0x3300, 0xf3c1, 0xf281, 0x3240,
                     0x3600, 0xf6c1, 0xf781, 0x3740, 0xf501, 0x35c0, 0x3480, 0xf441)
    case 5 => Pick(j, 0x3c00, 0xfcc1, 0xfd81, 0x3d40, 0xff01, 0x3fc0, 0x3e80, 0xfe41,
                     0xfa01, 0x3ac0, 0x3b80, 0xfb41, 0x3900, 0xf9c1, 0xf881, 0x3840)
    case 6 => Pick(j, 0x2800, 0xe8c1, 0xe981, 0x2940, 0xeb01, 0x2bc0, 0x2a80, 0xea41,
                     0xee01, 0x2ec0, 0x2f80, 0xef41, 0x2d00, 0xedc1, 0xec81, 0x2c40)
    case 7 => Pick(j, 0xe401, 0x24c0, 0x2580, 0xe541, 0x2700, 0xe7c1, 0xe681, 0x2640,
                     0x2200, 0xe2c1, 0xe381, 0x2340, 0xe101, 0x21c0, 0x2080, 0xe041)
    case 8 => Pick(j, 0xa001, 0x60c0, 0x6180, 0xa141, 0x6300, 0xa3c1, 0xa281, 0x6240,
                     0x6600, 0xa6c1, 0xa781, 0x6740, 0xa501, 0x65c0, 0x6480, 0xa441)
    case 9 => Pick(j, 0x6c00, 0xacc1, 0xad81, 0x6d40, 0xaf01, 0x6fc0, 0x6e80, 0xae41,
                     0xaa01, 0x6ac0, 0x6b80, 0xab41, 0x6900, 0xa9c1, 0xa881, 0x6840)
    case 10 => Pick(j, 0x7800, 0xb8c1, 0xb981, 0x7940, 0xbb01, 0x7bc0, 0x7a80, 0xba41,
                     0xbe01, 0x7ec0, 0x7f80, 0xbf41, 0x7d00, 0xbdc1, 0xbc81, 0x7c40)
    case 11 => Pick(j, 0xb401, 0x74c0, 0x7580, 0xb541, 0x7700, 0xb7c1, 0xb681, 0x7640,
                     0x7200, 0xb2c1, 0xb381, 0x7340, 0xb101, 0x71c0, 0x7080, 0xb041)
    case 12 => Pick(j, 0x5000, 0x90c1, 0x9181, 0x5140, 0x9301, 0x53c0, 0x5280, 0x9241,
                     0x9601, 0x56c0, 0x5780, 0x9741, 0x5500, 0x95c1, 0x9481, 0x5440)
    case 13 => Pick(j, 0x9c01, 0x5cc0, 0x5d80, 0x9d41, 0x5f00, 0x9fc1, 0x9e81, 0x5e40,
                     0x5a00, 0x9ac1, 0x9b81, 0x5b40, 0x9901, 0x59c0, 0x5880, 0x9841)
    case 14 => Pick(j, 0x8801, 0x48c0, 0x4980, 0x8941, 0x4b00, 0x8bc1, 0x8a81, 0x4a40,
                     0x4e00, 0x8ec1, 0x8f81, 0x4f40, 0x8d01, 0x4dc0, 0x4c80, 0x8c41)
    case _ => Pick(j, 0x4400, 0x84c1, 0x8581, 0x4540, 0x8701, 0x47c0, 0x4680, 0x8641,
                     0x8201, 0x42c0, 0x4380, 0x8341, 0x4100, 0x81c1, 0x8081, 0x4040)
  }

  method Lookup(i: byte) returns (entry: bv16)
    ensures entry == Shift8(i as bv16)
  {
    TableIsShift8(i);
    entry := CrcTable(i);
  }

  /** One table step is eight bit-serial steps. */
  method TableUpdate(crc: bv16, b: byte) returns (r: bv16)
    ensures r == FeedByte(crc, b)
  {
    var entry := Lookup(LowHalf(crc ^ (b as bv16)));
    r := entry ^ (crc >> 8);
    TableStep(crc, b);
  }

  method CrcWithSeed(data: seq<byte>, seed: bv16) returns (crc: bv16)
    ensures crc == BitSerial(data, seed)
  {
    crc := seed;
    var i := 0;
    while i < |data|
      invariant 0 <= i <= |data|
      invariant Fold(FeedByte, data[i..], crc) == Fold(FeedByte, data, seed)
    {
      assert data[i..][1..] == data[i + 1..];
      crc := TableUpdate(crc, data[i]);
      i := i + 1;
    }
  }

  lemma TableIsShift8(b: byte)
    ensures CrcTable(b) == Shift8(b as bv16)
  {}

  function LowHalf(x: bv16): byte { (x & 0xff) as bv8 }

  lemma SplitHalves(c: bv16, b: byte)
    ensures c ^ (b as bv16) == (LowHalf(c ^ (b as bv16)) as bv16) ^ ((c >> 8) << 8)
  {}

  lemma ShiftWholeRegister(shift8: bv16 -> bv16, c: bv16, b: byte)
    ensures shift8(c ^ (b as bv16)) == shift8(Xor(LowHalf(c ^ (b as bv16)) as bv16, (c >> 8) << 8))
  {
    SplitHalves(c, b);
  }

  lemma TableStep(c: bv16, b: byte)
    ensures Shift8(LowHalf(c ^ (b as bv16)) as bv16) ^ (c >> 8) == FeedByte(c, b)
  {
    var low := LowHalf(c ^ (b as bv16)) as bv16;
    ShiftWholeRegister(Shift8, c, b);
    Shift8Linear(low, (c >> 8) << 8);
    Shift8HighByte(c);
    JoinHalves(Shift8, c ^ (b as bv16), low, (c >> 8) << 8, c >> 8);
  }

  lemma JoinHalves(shift8: bv16 -> bv16, x: bv16, low: bv16, high: bv16, moved: bv16)
    requires shift8(x) == shift8(Xor(low, high)) == Xor(shift8(low), shift8(high))
    requires shift8(high) == moved
    ensures shift8(low) ^ moved == shift8(x)
  {}

  // ---------------------------------------------------------------- linearity and injectivity

  lemma XorShift(x: bv16, y: bv16)
    ensures (x ^ y) >> 1 == (x >> 1) ^ (y >> 1)
    ensures (x ^ y) & 1 == (x & 1) ^ (y & 1)
    ensures x & 1 == 1 || x & 1 == 0
  {}

  lemma XorRegroup(a: bv16, b: bv16, k: bv16)
    ensures (a ^ k) ^ (b ^ k) == a ^ b
    ensures (a ^ k) ^ b == (a ^ b) ^ k
    ensures a ^ (b ^ k) == (a ^ b) ^ k
  {}

  lemma ShiftOutOfXor(x: bv16, y: bv16)
    ensures ShiftOut(x ^ y) == ShiftOut(x) ^ ShiftOut(y)
  {
    XorShift(x, y);
    XorShift(y, x);
    XorRegroup(x >> 1, y >> 1, 0xa001);
    if x & 1 == 1 {
      if y & 1 == 1 {} else {}
    } else {}
  }

  lemma ShiftOutLinear(x: bv16, y: bv16)
    ensures ShiftOut(Xor(x, y)) == Xor(ShiftOut(x), ShiftOut(y))
  {
    assert Xor(x, y) == x ^ y;
    ShiftOutOfXor(x, y);
  }

  function Xor(x: bv16, y: bv16): bv16 { x ^ y }

  ghost predicate Linear<T(!new)>(xor: (T, T) -> T, step: T -> T)
  {
    forall x, y :: step(xor(x, y)) == xor(step(x), step(y))
  }

  /** Eight steps of a linear update are linear, whatever the update. */
  lemma EightLinear<T(!new)>(xor: (T, T) -> T, step: T -> T, eight: T -> T, x: T, y: T)
    requires Linear(xor, step)
    requires forall z :: eight(z) == step(step(step(step(step(step(step(step(z))))))))
    ensures eight(xor(x, y)) == xor(eight(x), eight(y))
  {}

  lemma Shift8Linear(x: bv16, y: bv16)
    ensures Shift8(Xor(x, y)) == Xor(Shift8(x), Shift8(y))
  {
    forall x, y ensures ShiftOut(Xor(x, y)) == Xor(ShiftOut(x), ShiftOut(y)) {
      ShiftOutLinear(x, y);
    }
    EightLinear(Xor, ShiftOut, Shift8, x, y);
  }

  lemma Shift8HighByte(c: bv16)
    ensures Shift8((c >> 8) << 8) == c >> 8
  {}

  // ---------------------------------------------------------------- generic facts about folds

  lemma {:induction false} FoldConcat<S, B>(feed: (S, B) -> S, a: seq<B>, b: seq<B>, seed: S)
    ensures Fold(feed, a + b, seed) == Fold(feed, b, Fold(feed, a, seed))
    decreases |a|
  {
    if a == [] {
      assert a + b == b;
    } else {
      assert (a + b)[1..] == a[1..] + b;
      FoldConcat(feed, a[1..], b, feed(seed, a[0]));
    }
  }

  // ---------------------------------------------------------------- the register as sixteen bits

  /** The word with only bit `i` set. */
  function Mask(i: nat): bv16 {
    match i
    case 0 => 1
    case 1 => 2
    case 2 => 4
    case 3 => 8
    case 4 => 0x10
    case 5 => 0x20
    case 6 => 0x40
    case 7 => 0x80
    case 8 => 0x100
    case 9 => 0x200
    case 10 => 0x400
    case 11 => 0x800
    case 12 => 0x1000
    case 13 => 0x2000
    case 14 => 0x4000
    case _ => 0x8000
  }

  predicate Bit(c: bv16, i: nat) { c & Mask(i) != 0 }

  /** A register, lowest bit first. */
  type Reg = r: seq<bool> | |r| == 16 witness seq(16, _ => false)

  function RegOf(c: bv16): (r: Reg)
    ensures forall i :: 0 <= i < 16 ==> r[i] == Bit(c, i)
  {
    seq(16, i requires 0 <= i < 16 => Bit(c, i))
  }

  /** The bits of a byte in transmission order, least significant first. */
  function BitsOf(b: byte): (bits: seq<bool>)
    ensures |bits| == 8
    ensures forall i :: 0 <= i < 8 ==> bits[i] == Bit(Widen(b), i)
  {
    seq(8, i requires 0 <= i < 8 => Bit(Widen(b), i))
  }

  function Widen(b: byte): bv16 { b as bv16 }

  function Bits(data: seq<byte>): (bits: seq<bool>)
    ensures |bits| == 8 * |data|
  {
    if data == [] then [] else BitsOf(data[0]) + Bits(data[1..])
  }

  /** The ones of the polynomial 0xA001. */
  predicate Tap(i: int) { i == 0 || i == 13 || i == 15 }

  /** The bit above position `i`; zeros come in at the top. */
  predicate Above(r: Reg, i: nat) { i < 15 && r[i + 1] }

  /** One bit into the register: compare it with the bit falling out, shift, flip the taps. */
  function FeedBit(r: Reg, bit: bool): (q: Reg)
    ensures forall i :: 0 <= i < 16 ==> q[i] == (Above(r, i) != ((r[0] != bit) && Tap(i)))
  {
    seq(16, i requires 0 <= i < 16 => Above(r, i) != ((r[0] != bit) && Tap(i)))
  }

  /** Where two equally long bit strings differ. */
  function Differences(a: seq<bool>, b: seq<bool>): (d: seq<bool>)
    requires |a| == |b|
    ensures |d| == |a|
    ensures forall i :: 0 <= i < |a| ==> d[i] == (a[i] != b[i])
  {
    seq(|a|, i requires 0 <= i < |a| => a[i] != b[i])
  }

  function XorReg(r: Reg, q: Reg): (x: Reg) { Differences(r, q) }

  function ZeroReg(): (r: Reg)
    ensures forall i :: 0 <= i < 16 ==> !r[i]
  {
    seq(16, _ => false)
  }

  // ---------------------------------------------------------------- words and their bits

  lemma SomeBitSet(x: bv16) returns (i: nat)
    requires x != 0
    ensures i < 16 && Bit(x, i)
  {
    if x & 1 != 0 { i := 0; } else if x & 2 != 0 { i := 1; }
    else if x & 4 != 0 { i := 2; } else if x & 8 != 0 { i := 3; }
    else if x & 0x10 != 0 { i := 4; } else if x & 0x20 != 0 { i := 5; }
    else if x & 0x40 != 0 { i := 6; } else if x & 0x80 != 0 { i := 7; }
    else if x & 0x100 != 0 { i := 8; } else if x & 0x200 != 0 { i := 9; }
    else if x & 0x400 != 0 { i := 10; } else if x & 0x800 != 0 { i := 11; }
    else if x & 0x1000 != 0 { i := 12; } else if x & 0x2000 != 0 { i := 13; }
    else if x & 0x4000 != 0 { i := 14; } else { i := 15; }
  }

  lemma NoDifference(c: bv16, d: bv16)
    requires c ^ d == 0
    ensures c == d
  {}

  lemma RegInjective(c: bv16, d: bv16)
    requires RegOf(c) == RegOf(d)
    ensures c == d
  {
    if c ^ d != 0 {
      var i := SomeBitSet(c ^ d);
      XorAt(c, d, i);
    } else {
      NoDifference(c, d);
    }
  }

  predicate OneBit(m: bv16) { m != 0 && m & (m - 1) == 0 }

  predicate NextBit(m: bv16, n: bv16) { m < 0x8000 && n == m << 1 }

  lemma MaskIsOneBit(i: nat)
    requires i < 16
    ensures OneBit(Mask(i))
  {
    match i
    case 0 => case 1 => case 2 => case 3 => case 4 => case 5 => case 6 => case 7 =>
    case 8 => case 9 => case 10 => case 11 => case 12 => case 13 => case 14 => case _ =>
  }

  lemma MaskNext(i: nat)
    requires i < 15
    ensures NextBit(Mask(i), Mask(i + 1))
  {
    match i
    case 0 => case 1 => case 2 => case 3 => case 4 => case 5 => case 6 => case 7 =>
    case 8 => case 9 => case 10 => case 11 => case 12 => case 13 => case 14 => case _ =>
  }

  lemma XorUnderMask(c: bv16, d: bv16, m: bv16)
    requires OneBit(m)
    ensures ((c ^ d) & m != 0) == ((c & m != 0) != (d & m != 0))
  {}

  lemma XorAt(c: bv16, d: bv16, i: nat)
    requires i < 16
    ensures Bit(c ^ d, i) == (Bit(c, i) != Bit(d, i))
  {
    MaskIsOneBit(i);
    XorUnderMask(c, d, Mask(i));
  }

  predicate MovedDown(c: bv16, m: bv16, n: bv16) { (c >> 1) & m != 0 <==> c & n != 0 }

  lemma ShiftUnderMask(c: bv16, m: bv16, n: bv16)
    requires OneBit(m) && NextBit(m, n)
    ensures MovedDown(c, m, n)
  {}

  lemma ShiftClearsTop(c: bv16)
    ensures (c >> 1) & 0x8000 == 0
  {}

  lemma ShiftMovesMask(c: bv16, i: nat)
    requires i < 15
    ensures MovedDown(c, Mask(i), Mask(i + 1))
  {
    MaskIsOneBit(i);
    MaskNext(i);
    ShiftUnderMask(c, Mask(i), Mask(i + 1));
  }

  lemma ShiftAt(c: bv16, i: nat)
    requires i < 16
    ensures Bit(c >> 1, i) == (i < 15 && Bit(c, i + 1))
  {
    if i < 15 {
      ShiftMovesMask(c, i);
    } else {
      ShiftClearsTop(c);
    }
  }

  lemma PolynomialAt(i: nat)
    requires i < 16
    ensures Bit(0xa001, i) == Tap(i)
  {
    match i
    case 0 => case 1 => case 2 => case 3 => case 4 => case 5 => case 6 => case 7 =>
    case 8 => case 9 => case 10 => case 11 => case 12 => case 13 => case 14 => case _ =>
  }

  lemma RegOfXor(c: bv16, d: bv16)
    ensures RegOf(c ^ d) == XorReg(RegOf(c), RegOf(d))
  {
    forall i: nat | i < 16 ensures RegOf(c ^ d)[i] == XorReg(RegOf(c), RegOf(d))[i] {
      XorAt(c, d, i);
    }
  }

  /** Shifting the word is feeding a zero bit to the register. */
  lemma RegOfShift(c: bv16)
    ensures RegOf(ShiftOut(c)) == FeedBit(RegOf(c), false)
  {
    forall i: nat | i < 16 ensures RegOf(ShiftOut(c))[i] == FeedBit(RegOf(c), false)[i] {
      ShiftOutAt(c, i);
    }
  }

  lemma ShiftOutAt(c: bv16, i: nat)
    requires i < 16
    ensures Bit(ShiftOut(c), i) == ((i < 15 && Bit(c, i + 1)) != (Bit(c, 0) && Tap(i)))
  {
    ShiftAt(c, i);
    LowestBit(c);
    if c & 1 == 1 {
      PolynomialAt(i);
      XorAt(c >> 1, 0xa001, i);
    }
  }

  lemma LowestBit(c: bv16)
    ensures Bit(c, 0) <==> c & 1 == 1
  {}

  lemma HighBitsOfByte(b: byte, i: nat)
    requires 8 <= i < 16
    ensures !Bit(Widen(b), i)
  {
    MaskIsHigh(i);
    NoHighBits(b, Mask(i));
  }

  lemma MaskIsHigh(i: nat)
    requires 8 <= i < 16
    ensures Mask(i) & 0xff == 0
  {}

  lemma NoHighBits(b: byte, m: bv16)
    requires m & 0xff == 0
    ensures Widen(b) & m == 0
  {}

  lemma ZeroBit(i: nat)
    ensures !Bit(0, i)
  {}

  // ---------------------------------------------------------------- the register runs on bits

  /** The word of a byte: its eight bits, then zeros. */
  lemma RegOfByte(b: byte)
    ensures RegOf(Widen(b)) == Pad(BitsOf(b))
  {
    forall i: nat | i < 16 ensures RegOf(Widen(b))[i] == Pad(BitsOf(b))[i] {
      if i >= 8 {
        HighBitsOfByte(b, i);
      }
    }
  }

  /** A short bit string as a register. */
  function Pad(bits: seq<bool>): (r: Reg)
    requires |bits| <= 16
    ensures forall i :: 0 <= i < 16 ==> r[i] == (i < |bits| && bits[i])
  {
    seq(16, i requires 0 <= i < 16 => i < |bits| && bits[i])
  }

  function ShiftTimes(c: bv16, n: nat): bv16
    decreases n
  {
    if n == 0 then c else ShiftTimes(ShiftOut(c), n - 1)
  }

  /** Shifting a register that still holds bits to come is feeding those bits one by one. */
  lemma {:induction false} ShiftFeeds(c: bv16, r: Reg, bits: seq<bool>)
    requires |bits| <= 16 && RegOf(c) == XorReg(r, Pad(bits))
    ensures RegOf(ShiftTimes(c, |bits|)) == Fold(FeedBit, bits, r)
    decreases |bits|
  {
    if bits == [] {
      assert RegOf(c) == r;
    } else {
      RegOfShift(c);
      assert FeedBit(RegOf(c), false) == XorReg(FeedBit(r, bits[0]), Pad(bits[1..]));
      ShiftFeeds(ShiftOut(c), FeedBit(r, bits[0]), bits[1..]);
    }
  }

  lemma EightTimes(c: bv16)
    ensures ShiftTimes(c, 8) == Shift8(c)
  {}

  lemma ByteIsEightBits(c: bv16, b: byte)
    ensures RegOf(FeedByte(c, b)) == Fold(FeedBit, BitsOf(b), RegOf(c))
  {
    RegOfXor(c, Widen(b));
    RegOfByte(b);
    ShiftFeeds(c ^ Widen(b), RegOf(c), BitsOf(b));
    EightTimes(c ^ Widen(b));
  }

  /** The byte-wise register is the bit-serial register over the transmitted bits. */
  lemma {:induction false} CrcOverBits(data: seq<byte>, seed: bv16)
    ensures RegOf(BitSerial(data, seed)) == Fold(FeedBit, Bits(data), RegOf(seed))
  {
    if data != [] {
      ByteIsEightBits(seed, data[0]);
      FoldConcat(FeedBit, BitsOf(data[0]), Bits(data[1..]), RegOf(seed));
      CrcOverBits(data[1..], FeedByte(seed, data[0]));
    }
  }

  lemma CrcConcat(a: seq<byte>, b: seq<byte>, seed: bv16)
    ensures BitSerial(a + b, seed) == BitSerial(b, BitSerial(a, seed))
  {
    FoldConcat(FeedByte, a, b, seed);
  }

  lemma FeedBitLinear(r: Reg, q: Reg, p: bool, s: bool)
    ensures FeedBit(XorReg(r, q), p != s) == XorReg(FeedBit(r, p), FeedBit(q, s))
  {}

  lemma FeedBitInjective(r: Reg, q: Reg, bit: bool)
    requires FeedBit(r, bit) == FeedBit(q, bit)
    ensures r == q
  {
    var x, y := FeedBit(r, bit), FeedBit(q, bit);
    assert x[15] == (r[0] != bit) && y[15] == (q[0] != bit);
    forall i | 0 <= i < 16 ensures r[i] == q[i] {
      if i > 0 {
        assert x[i - 1] == y[i - 1];
      }
    }
  }

  lemma {:induction false} FoldLinear(a: seq<bool>, b: seq<bool>, r: Reg, q: Reg)
    requires |a| == |b|
    ensures Fold(FeedBit, Differences(a, b), XorReg(r, q)) == XorReg(Fold(FeedBit, a, r), Fold(FeedBit, b, q))
    decreases |a|
  {
    if a != [] {
      var d := Differences(a, b);
      assert d[1..] == Differences(a[1..], b[1..]);
      FeedBitLinear(r, q, a[0], b[0]);
      FoldLinear(a[1..], b[1..], FeedBit(r, a[0]), FeedBit(q, b[0]));
    }
  }

  lemma {:induction false} SameStart(bits: seq<bool>, r: Reg, q: Reg)
    requires Fold(FeedBit, bits, r) == Fold(FeedBit, bits, q)
    ensures r == q
    decreases |bits|
  {
    if bits != [] {
      SameStart(bits[1..], FeedBit(r, bits[0]), FeedBit(q, bits[0]));
      FeedBitInjective(r, q, bits[0]);
    }
  }

  // ---------------------------------------------------------------- the receiver's check

  /** The last two bytes, low byte first, are the checksum of the rest. */
  predicate Passes(frame: seq<byte>) {
    |frame| >= 2 && Register(frame[|frame| - 1], frame[|frame| - 2]) == Crc16(frame[..|frame| - 2])
  }

  lemma OwnChecksumBytes(low: byte, high: byte)
    ensures FeedByte(FeedByte(Register(high, low), low), high) == 0
  {}

  lemma TwoBytes(low: byte, high: byte, w: bv16)
    requires FeedByte(FeedByte(w, low), high) == 0
    ensures BitSerial([low, high], w) == 0
  {
    var s := [low, high];
    assert s[1..] == [high] && s[1..][1..] == [];
    assert Fold(FeedByte, s[1..], FeedByte(w, low)) == Fold(FeedByte, s[1..][1..], FeedByte(FeedByte(w, low), high));
  }

  lemma OwnChecksum(low: byte, high: byte, w: bv16)
    requires w == Register(high, low)
    ensures BitSerial([low, high], w) == 0
  {
    OwnChecksumBytes(low, high);
    TwoBytes(low, high, w);
  }

  /** A frame passes exactly when its checksum, checksum field included, is zero. */
  lemma PassesIffZero(frame: seq<byte>)
    requires |frame| >= 2
    ensures Passes(frame) <==> Crc16(frame) == 0
  {
    var n := |frame| - 2;
    var data, low, high := frame[..n], frame[n], frame[n + 1];
    assert frame == data + [low, high];
    var w := Register(high, low);
    CrcConcat(data, [low, high], 0xffff);
    OwnChecksum(low, high, w);
    if Crc16(frame) == 0 {
      CrcOverBits([low, high], Crc16(data));
      CrcOverBits([low, high], w);
      SameStart(Bits([low, high]), RegOf(Crc16(data)), RegOf(w));
      RegInjective(Crc16(data), w);
    }
  }

  // ---------------------------------------------------------------- what the check detects

  lemma RegOfZero()
    ensures RegOf(0) == ZeroReg()
  {
    forall i: nat | i < 16 ensures !RegOf(0)[i] {
      ZeroBit(i);
    }
  }

  /** A frame as long as one that passes passes exactly if the register of their differences is zero. */
  lemma PassesIffPatternZero(f: seq<byte>, g: seq<byte>)
    requires |f| == |g| && Passes(f)
    ensures Passes(g) <==> Fold(FeedBit, Differences(Bits(f), Bits(g)), ZeroReg()) == ZeroReg()
  {
    var r := RegOf(0xffff);
    FoldLinear(Bits(f), Bits(g), r, r);
    CrcOverBits(f, 0xffff);
    CrcOverBits(g, 0xffff);
    PassesIffZero(f);
    PassesIffZero(g);
    RegOfZero();
    assert XorReg(r, r) == ZeroReg();
    var a, b := RegOf(Crc16(f)), RegOf(Crc16(g));
    assert a == ZeroReg() && XorReg(a, b) == b;
    if b == ZeroReg() {
      RegInjective(Crc16(g), 0);
    }
  }

  lemma {:induction false} ZeroBits(bits: seq<bool>)
    requires forall i :: 0 <= i < |bits| ==> !bits[i]
    ensures Fold(FeedBit, bits, ZeroReg()) == ZeroReg()
    decreases |bits|
  {
    if bits != [] {
      assert FeedBit(ZeroReg(), bits[0]) == ZeroReg();
      ZeroBits(bits[1..]);
    }
  }

  /** Running backwards from zero over at most sixteen bits leaves a register with no more bits
      than that, and a zero register only if every bit was zero. */
  lemma {:induction false} BackFromZero(bits: seq<bool>, r: Reg)
    requires |bits| <= 16 && Fold(FeedBit, bits, r) == ZeroReg()
    ensures forall i :: |bits| <= i < 16 ==> !r[i]
    ensures r == ZeroReg() ==> forall i :: 0 <= i < |bits| ==> !bits[i]
    decreases |bits|
  {
    if bits != [] {
      var q := FeedBit(r, bits[0]);
      BackFromZero(bits[1..], q);
      assert !q[15] && q[15] == (r[0] != bits[0]);
      forall i | |bits| <= i < 16 ensures !r[i] {
        assert !q[i - 1];
      }
      if r == ZeroReg() {
        assert q == ZeroReg();
        assert forall i :: 1 <= i < |bits| ==> bits[i] == bits[1..][i - 1];
      }
    }
  }

  /** A pattern with zero register whose ones lie within sixteen positions has no ones. */
  lemma ShortPatternIsZero(before: seq<bool>, burst: seq<bool>, after: seq<bool>)
    requires |burst| <= 16 && Fold(FeedBit, before + burst + after, ZeroReg()) == ZeroReg()
    requires forall i :: 0 <= i < |before| ==> !before[i]
    requires forall i :: 0 <= i < |after| ==> !after[i]
    ensures forall i :: 0 <= i < |burst| ==> !burst[i]
  {
    FoldConcat(FeedBit, before + burst, after, ZeroReg());
    FoldConcat(FeedBit, before, burst, ZeroReg());
    ZeroBits(before);
    ZeroBits(after);
    SameStart(after, Fold(FeedBit, burst, ZeroReg()), ZeroReg());
    BackFromZero(burst, ZeroReg());
  }

  lemma {:induction false} SameBits(f: seq<byte>, g: seq<byte>)
    requires Bits(f) == Bits(g)
    ensures f == g
  {
    if f != [] {
      assert BitsOf(f[0]) == Bits(f)[..8] == Bits(g)[..8] == BitsOf(g[0]);
      assert Bits(f[1..]) == Bits(f)[8..] == Bits(g)[8..] == Bits(g[1..]);
      SameByteBits(f[0], g[0]);
      SameBits(f[1..], g[1..]);
      assert f == [f[0]] + f[1..] && g == [g[0]] + g[1..];
    }
  }

  lemma SameByteBits(b: byte, c: byte)
    requires BitsOf(b) == BitsOf(c)
    ensures b == c
  {
    RegOfByte(b);
    RegOfByte(c);
    RegInjective(Widen(b), Widen(c));
    WidenInjective(b, c);
  }

  lemma WidenInjective(b: byte, c: byte)
    requires Widen(b) == Widen(c)
    ensures b == c
  {}

  /** Every error burst of at most sixteen bits, checksum field included, is detected. */
  lemma BurstDetected(f: seq<byte>, g: seq<byte>, at: nat)
    requires |f| == |g| && Passes(f) && f != g
    requires forall i :: 0 <= i < 8 * |f| && !(at <= i < at + 16) ==> Bits(f)[i] == Bits(g)[i]
    ensures !Passes(g)
  {
    if Passes(g) {
      PassesIffPatternZero(f, g);
      var k, e := 8 * |f|, Differences(Bits(f), Bits(g));
      var m, n := if at <= k then at else k, if at + 16 <= k then at + 16 else k;
      var before, burst, after := e[..m], e[m..n], e[n..];
      assert e == before + burst + after;
      ShortPatternIsZero(before, burst, after);
      forall i | 0 <= i < k ensures Bits(f)[i] == Bits(g)[i] {
        if m <= i < n {
          assert !burst[i - m];
        }
      }
      SameBits(f, g);
    }
  }

  lemma {:induction false} BitsAt(data: seq<byte>, k: nat, j: nat)
    requires k < |data| && j < 8
    ensures Bits(data)[8 * k + j] == BitsOf(data[k])[j]
  {
    if k > 0 {
      BitsAt(data[1..], k - 1, j);
    }
  }

  /** Altering one byte or two adjacent bytes of a valid frame always makes the check fail. */
  lemma AdjacentBytesDetected(f: seq<byte>, g: seq<byte>, k: nat)
    requires |f| == |g| && Passes(f) && f != g
    requires forall i :: 0 <= i < |f| && i != k && i != k + 1 ==> f[i] == g[i]
    ensures !Passes(g)
  {
    forall i | 0 <= i < 8 * |f| && !(8 * k <= i < 8 * k + 16) ensures Bits(f)[i] == Bits(g)[i] {
      BitsAt(f, i / 8, i % 8);
      BitsAt(g, i / 8, i % 8);
    }
    BurstDetected(f, g, 8 * k);
  }

  /** Bytes in front of a valid frame pass with it exactly if their own checksum is the value the register
      starts from; so a single stray byte of any value never does. */
  lemma StrayBytesPassIff(stray: seq<byte>, f: seq<byte>)
    requires Passes(f)
    ensures Passes(stray + f) <==> Crc16(stray) == 0xffff
  {
    PassesIffZero(f);
    PassesIffZero(stray + f);
    CrcConcat(stray, f, 0xffff);
    CrcOverBits(f, Crc16(stray));
    CrcOverBits(f, 0xffff);
    if Passes(stray + f) {
      SameStart(Bits(f), RegOf(Crc16(stray)), RegOf(0xffff));
      RegInjective(Crc16(stray), 0xffff);
    }
  }

  lemma OneByteMovesOn(b: byte)
    ensures FeedByte(0xffff, b) != 0xffff
  {}

  lemma OneStrayByteIsDetected(b: byte, f: seq<byte>)
    requires Passes(f)
    ensures !Passes([b] + f)
  {
    StrayBytesPassIff([b], f);
    OneByteMovesOn(b);
    var one := [b];
    assert one[1..] == [];
    assert Fold(FeedByte, one, 0xffff) == Fold(FeedByte, one[1..], FeedByte(0xffff, one[0]));
  }

  // ---------------------------------------------------------------- odd errors

  function Ones(bits: seq<bool>): nat {
    if bits == [] then 0 else (if bits[0] then 1 else 0) + Ones(bits[1..])
  }

  /** Whether an odd number of the bits of a register from `i` up are ones. */
  predicate OddFrom(r: Reg, i: nat)
    decreases 16 - i
  {
    i < 16 && r[i] != OddFrom(r, i + 1)
  }

  /** Each bit fed flips the parity: the polynomial is a multiple of x + 1. */
  lemma {:induction false} FeedBitParity(r: Reg, bit: bool, i: nat)
    requires i <= 15
    ensures OddFrom(FeedBit(r, bit), i)
         == (OddFrom(r, i + 1) != ((r[0] != bit) && (i == 0 || 13 < i)))
    decreases 16 - i
  {
    if i < 15 {
      FeedBitParity(r, bit, i + 1);
    }
  }

  lemma {:induction false} FoldParity(bits: seq<bool>, r: Reg)
    ensures OddFrom(Fold(FeedBit, bits, r), 0) == (OddFrom(r, 0) != (Ones(bits) % 2 == 1))
    decreases |bits|
  {
    if bits != [] {
      FeedBitParity(r, bits[0], 0);
      FoldParity(bits[1..], FeedBit(r, bits[0]));
    }
  }

  lemma {:induction false} ZeroIsEven(i: nat)
    ensures !OddFrom(ZeroReg(), i)
    decreases 16 - i
  {
    if i < 16 {
      ZeroIsEven(i + 1);
    }
  }

  /** Any odd number of flipped bits, wherever they are, is detected. */
  lemma OddErrorsDetected(f: seq<byte>, g: seq<byte>)
    requires |f| == |g| && Passes(f) && Ones(Differences(Bits(f), Bits(g))) % 2 == 1
    ensures !Passes(g)
  {
    if Passes(g) {
      PassesIffPatternZero(f, g);
      FoldParity(Differences(Bits(f), Bits(g)), ZeroReg());
      ZeroIsEven(0);
    }
  }
}
