/** Bytes and big-endian 16-bit words. A byte is a bit-vector so that the shifts,
    masks and wrapping additions of the code are the machine operations. */
module Bytes {

  type byte = bv8

  datatype Option<+T> = None | Some(value: T)

  /** An address, a length or a count on the wire: a 16-bit unsigned integer. */
  type u16 = n: nat | n < 0x1_0000

  /** How many addresses there are. */
  const SPACE: nat := 0x1_0000

  /** The sum of two 16-bit numbers: without overflow checks it goes round. */
  function Wrap(n: nat): (r: u16)
    requires n < 2 * SPACE
    ensures r == n % SPACE
  {
    if n < SPACE then n else n - SPACE
  }

  /** How many addresses after `start` an address is, going round after the last one. */
  function Offset(a: u16, start: u16): (r: u16)
    ensures Wrap(start + r) == a
  {
    if start <= a then a - start else a + SPACE - start
  }

  function HighByte(n: u16): byte { (n / 256) as bv8 }

  function LowByte(n: u16): byte { (n % 256) as bv8 }

  function ToBe(n: u16): seq<byte> { [HighByte(n), LowByte(n)] }

  function FromBe(high: byte, low: byte): u16 { (high as nat) * 256 + low as nat }

  lemma NatOfByte(b: byte)
    ensures (b as nat) as bv8 == b
  {}

  lemma DoubleByte(b: byte)
    requires b < 128
    ensures (b << 1) as nat == 2 * (b as nat)
    ensures ((b << 1) | 1) as nat == 2 * (b as nat) + 1
  {}

  lemma SmallByte(b: byte)
    ensures b as nat < 128 <==> b < 128
  {}

  /** Every number below 256 is the value of a byte. */
  lemma {:induction false} ByteWithValue(n: nat) returns (b: byte)
    requires n < 256
    ensures b as nat == n
  {
    if n == 0 {
      b := 0;
    } else {
      var half := ByteWithValue(n / 2);
      SmallByte(half);
      DoubleByte(half);
      b := if n % 2 == 0 then half << 1 else (half << 1) | 1;
    }
  }

  /** Casting a number below 256 to a byte loses nothing. */
  lemma ByteOfNat(n: nat)
    requires n < 256
    ensures (n as bv8) as nat == n
  {
    var b := ByteWithValue(n);
    NatOfByte(b);
  }

  lemma ByteOfEqual(n: nat, b: byte)
    requires n == b as nat
    ensures n as bv8 == b
  {}

  lemma SplitWord(h: nat, l: nat)
    requires l < 256
    ensures (h * 256 + l) / 256 == h && (h * 256 + l) % 256 == l
  {}

  lemma FromToBe(n: u16)
    ensures FromBe(HighByte(n), LowByte(n)) == n
  {
    ByteOfNat(n / 256);
    ByteOfNat(n % 256);
  }

  lemma ToFromBe(high: byte, low: byte)
    ensures HighByte(FromBe(high, low)) == high
    ensures LowByte(FromBe(high, low)) == low
  {
    SplitWord(high as nat, low as nat);
    ByteOfEqual(FromBe(high, low) / 256, high);
    ByteOfEqual(FromBe(high, low) % 256, low);
  }

  /** A 16-bit register as two big-endian bytes. */
  function RegisterHigh(r: bv16): byte { (r >> 8) as bv8 }

  function RegisterLow(r: bv16): byte { (r & 0xff) as bv8 }

  function Register(high: byte, low: byte): bv16 { ((high as bv16) << 8) | (low as bv16) }

  lemma RegisterRoundTrip(r: bv16, high: byte, low: byte)
    ensures Register(RegisterHigh(r), RegisterLow(r)) == r
    ensures RegisterHigh(Register(high, low)) == high
    ensures RegisterLow(Register(high, low)) == low
  {}

  /** The concatenation of a list of byte strings. */
  function Concat(parts: seq<seq<byte>>): seq<byte>
  {
    if parts == [] then [] else parts[0] + Concat(parts[1..])
  }

  lemma {:induction false} ConcatAppend(a: seq<seq<byte>>, b: seq<seq<byte>>)
    ensures Concat(a + b) == Concat(a) + Concat(b)
  {
    if a == [] {
      assert a + b == b;
    } else {
      assert (a + b)[0] == a[0] && (a + b)[1..] == a[1..] + b;
      ConcatAppend(a[1..], b);
    }
  }
}
