/** Coils and registers in the data of a unit. */
module Packing {
  import opened Bytes

  // ---------------------------------------------------------------- a byte as eight coils

  function MaskOf(i: nat): byte {
    match i
    case 0 => 0x01
    case 1 => 0x02
    case 2 => 0x04
    case 3 => 0x08
    case 4 => 0x10
    case 5 => 0x20
    case 6 => 0x40
    case _ => 0x80
  }

  predicate Coil(b: byte, i: nat) { b & MaskOf(i) != 0 }

  /** The test the code makes. */
  lemma ShiftTest(b: byte, i: nat)
    requires i < 8
    ensures (b >> i) & 1 == 1 <==> Coil(b, i)
  {
    assert i == 0 || i == 1 || i == 2 || i == 3 || i == 4 || i == 5 || i == 6 || i == 7;
  }

  lemma ShiftedOne(i: nat)
    requires i < 8
    ensures (1 as byte) << i == MaskOf(i)
  {
    assert i == 0 || i == 1 || i == 2 || i == 3 || i == 4 || i == 5 || i == 6 || i == 7;
  }

  /** The coils of a chunk of at most eight, the first in the lowest bit. */
  function ByteOfCoils(chunk: seq<bool>): byte {
    if chunk == [] then 0
    else
      var n := |chunk| - 1;
      if chunk[n] then ByteOfCoils(chunk[..n]) | MaskOf(n) else ByteOfCoils(chunk[..n])
  }

  lemma OrUnderMask(b: byte, m: byte, k: byte)
    ensures (b | m) & k != 0 <==> b & k != 0 || m & k != 0
  {}

  lemma MasksDistinct(i: nat, j: nat)
    requires i < 8 && j < 8
    ensures MaskOf(i) & MaskOf(j) != 0 <==> i == j
  {}

  lemma NoCoil(i: nat)
    ensures !Coil(0, i)
  {}

  lemma {:induction false} CoilOfByte(chunk: seq<bool>, i: nat)
    requires |chunk| <= 8 && i < 8
    ensures Coil(ByteOfCoils(chunk), i) <==> i < |chunk| && chunk[i]
  {
    if chunk == [] {
      NoCoil(i);
    } else {
      var n := |chunk| - 1;
      CoilOfByte(chunk[..n], i);
      OrUnderMask(ByteOfCoils(chunk[..n]), MaskOf(n), MaskOf(i));
      MasksDistinct(n, i);
    }
  }

  method PackChunk(chunk: seq<bool>) returns (b: byte)
    requires |chunk| <= 8
    ensures b == ByteOfCoils(chunk)
  {
    b := 0;
    for i := 0 to |chunk|
      invariant b == ByteOfCoils(chunk[..i])
    {
      assert chunk[..i + 1][..i] == chunk[..i];
      ShiftedOne(i);
      if chunk[i] {
        b := b | ((1 as byte) << i);
      }
    }
    assert chunk[..|chunk|] == chunk;
  }

  // ---------------------------------------------------------------- any number of coils

  function Spell<B>(join: seq<bool> -> B, coils: seq<bool>): (r: seq<B>)
    ensures |r| == (|coils| + 7) / 8
  {
    if coils == [] then []
    else if |coils| <= 8 then [join(coils)]
    else [join(coils[..8])] + Spell(join, coils[8..])
  }

  lemma {:induction false} SpelledAt<B>(join: seq<bool> -> B, test: (B, nat) -> bool, coils: seq<bool>, i: nat)
    requires i < |coils|
    requires forall chunk: seq<bool>, k: nat :: |chunk| <= 8 && k < |chunk| ==> test(join(chunk), k) == chunk[k]
    ensures test(Spell(join, coils)[i / 8], i % 8) == coils[i]
    decreases |coils|
  {
    if i < 8 {
      assert Spell(join, coils)[0] == join(if |coils| <= 8 then coils else coils[..8]);
    } else {
      SpelledAt(join, test, coils[8..], i - 8);
      assert (i - 8) / 8 == i / 8 - 1 && (i - 8) % 8 == i % 8;
    }
  }

  function CoilsOf<B>(test: (B, nat) -> bool, data: seq<B>, length: nat): (coils: seq<bool>)
    requires |data| >= (length + 7) / 8
    ensures |coils| == length
    ensures forall i :: 0 <= i < length ==> coils[i] == test(data[i / 8], i % 8)
  {
    seq(length, i requires 0 <= i < length => test(data[i / 8], i % 8))
  }

  lemma SpelledBack<B>(join: seq<bool> -> B, test: (B, nat) -> bool, coils: seq<bool>)
    requires forall chunk: seq<bool>, k: nat :: |chunk| <= 8 && k < |chunk| ==> test(join(chunk), k) == chunk[k]
    ensures CoilsOf(test, Spell(join, coils), |coils|) == coils
  {
    var back := CoilsOf(test, Spell(join, coils), |coils|);
    forall i | 0 <= i < |coils| ensures back[i] == coils[i] {
      SpelledAt(join, test, coils, i);
      assert back[i] == test(Spell(join, coils)[i / 8], i % 8);
    }
  }

  function PackBits(coils: seq<bool>): seq<byte> { Spell(ByteOfCoils, coils) }

  function ParseBits(data: seq<byte>, length: nat): (coils: seq<bool>)
    requires |data| >= (length + 7) / 8
    ensures |coils| == length
  {
    CoilsOf(Coil, data, length)
  }

  /** Coils survive packing, whatever their number. */
  lemma CoilsRoundTrip(coils: seq<bool>)
    ensures |PackBits(coils)| == (|coils| + 7) / 8 && ParseBits(PackBits(coils), |coils|) == coils
  {
    forall chunk: seq<bool>, k: nat | |chunk| <= 8 && k < |chunk| ensures Coil(ByteOfCoils(chunk), k) == chunk[k] {
      CoilOfByte(chunk, k);
    }
    SpelledBack(ByteOfCoils, Coil, coils);
  }

  // ---------------------------------------------------------------- registers

  function SpellWords<W, B>(high: W -> B, low: W -> B, words: seq<W>): (r: seq<B>)
    ensures |r| == 2 * |words|
    decreases |words|
  {
    if words == [] then [] else [high(words[0]), low(words[0])] + SpellWords(high, low, words[1..])
  }

  function WordsOf<W, B>(join: (B, B) -> W, data: seq<B>, length: nat): (words: seq<W>)
    requires |data| >= 2 * length
    ensures |words| == length
    ensures forall i :: 0 <= i < length ==> words[i] == join(data[2 * i], data[2 * i + 1])
  {
    seq(length, i requires 0 <= i < length => join(data[2 * i], data[2 * i + 1]))
  }

  lemma {:induction false} SpelledWordAt<W, B>(high: W -> B, low: W -> B, words: seq<W>, i: nat)
    requires i < |words|
    ensures var r := SpellWords(high, low, words); r[2 * i] == high(words[i]) && r[2 * i + 1] == low(words[i])
    decreases |words|
  {
    if i > 0 {
      SpelledWordAt(high, low, words[1..], i - 1);
      var r := SpellWords(high, low, words);
      assert r[2..] == SpellWords(high, low, words[1..]);
      assert r[2 * i] == r[2..][2 * (i - 1)] && r[2 * i + 1] == r[2..][2 * (i - 1) + 1];
    }
  }

  lemma WordBackAt<W(!new), B>(high: W -> B, low: W -> B, join: (B, B) -> W, words: seq<W>, i: nat)
    requires (forall w :: join(high(w), low(w)) == w) && i < |words|
    ensures var r := SpellWords(high, low, words); join(r[2 * i], r[2 * i + 1]) == words[i]
  {
    SpelledWordAt(high, low, words, i);
  }

  lemma WordsBack<W(!new), B>(high: W -> B, low: W -> B, join: (B, B) -> W, words: seq<W>)
    requires forall w :: join(high(w), low(w)) == w
    ensures WordsOf(join, SpellWords(high, low, words), |words|) == words
  {
    var r := SpellWords(high, low, words);
    var back := WordsOf(join, r, |words|);
    forall i | 0 <= i < |words| ensures back[i] == words[i] {
      WordBackAt(high, low, join, words, i);
      assert back[i] == join(r[2 * i], r[2 * i + 1]);
    }
  }

  function PackWords(words: seq<bv16>): (r: seq<byte>)
    ensures |r| == 2 * |words|
  {
    SpellWords(RegisterHigh, RegisterLow, words)
  }

  function ParseWords(data: seq<byte>, length: nat): (words: seq<bv16>)
    requires |data| >= 2 * length
    ensures |words| == length
  {
    WordsOf(Register, data, length)
  }

  /** Registers survive packing, whatever their number. */
  lemma RegistersRoundTrip(words: seq<bv16>)
    ensures |PackWords(words)| == 2 * |words| && ParseWords(PackWords(words), |words|) == words
  {
    forall w: bv16 ensures Register(RegisterHigh(w), RegisterLow(w)) == w {
      RegisterRoundTrip(w, 0, 0);
    }
    WordsBack(RegisterHigh, RegisterLow, Register, words);
  }

  // ---------------------------------------------------------------- with a byte count in front

  /** A count cast to a byte. */
  function CountByte(n: nat): byte { (n % 256) as bv8 }

  lemma CountByteFits(n: nat)
    requires n < 256
    ensures CountByte(n) as nat == n
  {
    ByteOfNat(n);
  }

  /** `pack_coils`: the count comes from the length asked for, the bytes from the coils given. */
  method PackCoils(coils: seq<bool>, length: u16) returns (data: seq<byte>)
    requires length + 7 < 0x1_0000
    ensures data == [CountByte((length + 7) / 8)] + PackBits(coils)
  {
    data := [CountByte((length + 7) / 8)];
    var rest := coils;
    while rest != []
      invariant data + PackBits(rest) == [CountByte((length + 7) / 8)] + PackBits(coils)
      decreases |rest|
    {
      var n := if |rest| < 8 then |rest| else 8;
      var b := PackChunk(rest[..n]);
      assert rest[..n] == rest || n == 8;
      assert PackBits(rest) == [b] + PackBits(rest[n..]);
      assert data + ([b] + PackBits(rest[n..])) == (data + [b]) + PackBits(rest[n..]);
      data := data + [b];
      rest := rest[n..];
    }
    assert data + [] == data;
  }

  /** `parse_coils`, on data with a byte count in front. */
  method ParseCoils(data: seq<byte>, length: u16) returns (coils: seq<bool>)
    requires length + 7 < 0x1_0000 && |data| >= 1 + (length + 7) / 8
    ensures coils == ParseBits(data[1..], length)
  {
    coils := [];
    var byteIdx := 0;
    while byteIdx < (length + 7) / 8
      invariant 0 <= byteIdx <= (length + 7) / 8
      invariant |coils| == (if 8 * byteIdx < length then 8 * byteIdx else length)
      invariant forall i :: 0 <= i < |coils| ==> coils[i] == Coil(data[1..][i / 8], i % 8)
    {
      var b := data[1 + byteIdx];
      var bitIdx := 0;
      while bitIdx < 8 && byteIdx * 8 + bitIdx < length
        invariant 0 <= bitIdx <= 8 && |coils| == byteIdx * 8 + bitIdx <= length
        invariant forall i :: 0 <= i < |coils| ==> coils[i] == Coil(data[1..][i / 8], i % 8)
      {
        ShiftTest(b, bitIdx);
        assert (byteIdx * 8 + bitIdx) / 8 == byteIdx && (byteIdx * 8 + bitIdx) % 8 == bitIdx;
        coils := coils + [(b >> bitIdx) & 1 == 1];
        bitIdx := bitIdx + 1;
      }
      byteIdx := byteIdx + 1;
    }
  }

  lemma {:induction false} SpellWordsConcat<W, B>(high: W -> B, low: W -> B, a: seq<W>, w: W)
    ensures SpellWords(high, low, a + [w]) == SpellWords(high, low, a) + [high(w), low(w)]
    decreases |a|
  {
    if a == [] {
      assert a + [w] == [w] && [w][1..] == [];
    } else {
      assert (a + [w])[0] == a[0] && (a + [w])[1..] == a[1..] + [w];
      SpellWordsConcat(high, low, a[1..], w);
    }
  }

  /** `pack_registers` */
  method PackRegisters(registers: seq<bv16>, length: u16) returns (data: seq<byte>)
    requires 2 * length < 0x1_0000
    ensures data == [CountByte(2 * length)] + PackWords(registers)
  {
    var packed: seq<byte> := [];
    for i := 0 to |registers|
      invariant packed == PackWords(registers[..i])
    {
      SpellWordsConcat(RegisterHigh, RegisterLow, registers[..i], registers[i]);
      assert registers[..i + 1] == registers[..i] + [registers[i]];
      packed := packed + [RegisterHigh(registers[i]), RegisterLow(registers[i])];
    }
    assert registers[..|registers|] == registers;
    data := [CountByte(2 * length)] + packed;
  }

  /** `parse_registers` */
  method ParseRegisters(data: seq<byte>, length: u16) returns (registers: seq<bv16>)
    requires |data| >= 1 + 2 * length
    ensures registers == ParseWords(data[1..], length)
  {
    registers := [];
    for i := 0 to length
      invariant |registers| == i
      invariant forall j :: 0 <= j < i ==> registers[j] == Register(data[1..][2 * j], data[1..][2 * j + 1])
    {
      var idx := 1 + i * 2;
      registers := registers + [Register(data[idx], data[idx + 1])];
    }
  }
}
