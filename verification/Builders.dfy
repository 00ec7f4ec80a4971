/** The master's request builders: a zeroed buffer of the right size, filled in place. */
module Builders {
  import opened Bytes
  import opened Packing
  import opened Pdu
  import opened Streams

  /** Copy a slice into the buffer at an offset; what is before it stays. */
  method Put<T>(buf: array<T>, at: nat, bytes: seq<T>)
    requires at + |bytes| <= buf.Length
    modifies buf
    ensures buf[..at + |bytes|] == old(buf[..at]) + bytes
  {
    forall i | 0 <= i < |bytes| {
      buf[at + i] := bytes[i];
    }
  }

  /** Words one after the other; the first that does not fit ends it in a panic. */
  method PutWords<W, B>(buf: array<B>, at: nat, high: W -> B, low: W -> B, words: seq<W>) returns (ok: bool)
    requires at <= buf.Length
    modifies buf
    ensures ok <==> at + 2 * |words| <= buf.Length
    ensures ok ==> buf[..at + 2 * |words|] == old(buf[..at]) + SpellWords(high, low, words)
  {
    ghost var front := buf[..at];
    for i := 0 to |words|
      invariant at + 2 * i <= buf.Length
      invariant buf[..at + 2 * i] == front + SpellWords(high, low, words[..i])
    {
      if buf.Length < at + 2 * i + 2 {
        return false;
      }
      Put(buf, at + 2 * i, [high(words[i]), low(words[i])]);
      SpellWordsConcat(high, low, words[..i], words[i]);
      assert words[..i + 1] == words[..i] + [words[i]];
    }
    assert words[..|words|] == words;
    return true;
  }

  lemma SpellNext<B>(join: seq<bool> -> B, coils: seq<bool>, n: nat)
    requires coils != [] && n == (if |coils| < 8 then |coils| else 8)
    ensures Spell(join, coils) == [join(coils[..n])] + Spell(join, coils[n..])
  {
    if |coils| <= 8 {
      assert coils[..n] == coils && coils[n..] == [];
    }
  }

  /** Coils eight to a byte; the first byte that does not fit ends it in a panic. */
  method PutCoils(buf: array<byte>, at: nat, coils: seq<bool>) returns (ok: bool)
    requires at <= buf.Length
    modifies buf
    ensures ok <==> at + (|coils| + 7) / 8 <= buf.Length
    ensures ok ==> buf[..at + (|coils| + 7) / 8] == old(buf[..at]) + PackBits(coils)
  {
    var rest, k := coils, at;
    ghost var all := buf[..at] + PackBits(coils);
    while rest != []
      invariant k <= buf.Length && k + (|rest| + 7) / 8 == at + (|coils| + 7) / 8
      invariant buf[..k] + PackBits(rest) == all
      decreases |rest|
    {
      if buf.Length == k {
        return false;
      }
      var n := if |rest| < 8 then |rest| else 8;
      var b := PackChunk(rest[..n]);
      SpellNext(ByteOfCoils, rest, n);
      Regroup(buf[..k], [b], PackBits(rest[n..]));
      Put(buf, k, [b]);
      rest, k := rest[n..], k + 1;
    }
    assert buf[..k] + [] == buf[..k];
    return true;
  }

  lemma WholePrefix<T>(buf: array<T>, n: nat)
    requires n == buf.Length
    ensures buf[..] == buf[..n]
  {}

  method BuildRead(address: u16, length: u16) returns (buf: array<byte>)
    ensures fresh(buf) && buf[..] == ToBe(address) + ToBe(length)
  {
    buf := new byte[4](_ => 0);
    Put(buf, 0, ToBe(address));
    Put(buf, 2, ToBe(length));
    WholePrefix(buf, 4);
  }

  method BuildWriteCoil(address: u16, on: bool) returns (buf: array<byte>)
    ensures fresh(buf) && buf[..] == ToBe(address) + if on then COIL_ON else COIL_OFF
  {
    buf := new byte[4](_ => 0);
    Put(buf, 0, ToBe(address));
    Put(buf, 2, if on then COIL_ON else COIL_OFF);
    WholePrefix(buf, 4);
  }

  method BuildWriteRegister(address: u16, value: bv16) returns (buf: array<byte>)
    ensures fresh(buf) && buf[..] == ToBe(address) + WordBytes(value)
  {
    buf := new byte[4](_ => 0);
    Put(buf, 0, ToBe(address));
    Put(buf, 2, WordBytes(value));
    WholePrefix(buf, 4);
  }

  method BuildMaskWrite(address: u16, andMask: bv16, orMask: bv16) returns (buf: array<byte>)
    ensures fresh(buf) && buf[..] == ToBe(address) + WordBytes(andMask) + WordBytes(orMask)
  {
    buf := new byte[6](_ => 0);
    Put(buf, 0, ToBe(address));
    Put(buf, 2, WordBytes(andMask));
    Put(buf, 4, WordBytes(orMask));
    WholePrefix(buf, 6);
  }

  method PutHead<B>(buf: array<B>, first: seq<B>, second: seq<B>, count: B)
    requires |first| + |second| + 1 <= buf.Length
    modifies buf
    ensures buf[..|first| + |second| + 1] == first + second + [count]
  {
    Put(buf, 0, first);
    Put(buf, |first|, second);
    Put(buf, |first| + |second|, [count]);
  }

  /** Two slices and a byte count, and then the values, in a buffer with `room` bytes for these. */
  method FillWords<W, B>(
    zero: B, first: seq<B>, second: seq<B>, count: B, room: nat, high: W -> B, low: W -> B, words: seq<W>)
    returns (ok: bool, buf: array<B>)
    requires room <= 2 * |words|
    ensures fresh(buf) && (ok <==> room == 2 * |words|)
    ensures ok ==> buf[..] == first + second + ([count] + SpellWords(high, low, words))
  {
    var n := |first| + |second| + 1;
    buf := new B[n + room](_ => zero);
    PutHead(buf, first, second, count);
    ok := PutWords(buf, n, high, low, words);
    if ok {
      WholePrefix(buf, n + 2 * |words|);
      Regroup(first + second, [count], SpellWords(high, low, words));
    }
  }

  method FillCoils(first: seq<byte>, second: seq<byte>, count: byte, room: nat, coils: seq<bool>)
    returns (ok: bool, buf: array<byte>)
    requires room <= (|coils| + 7) / 8
    ensures fresh(buf) && (ok <==> room == (|coils| + 7) / 8)
    ensures ok ==> buf[..] == first + second + ([count] + PackBits(coils))
  {
    var n := |first| + |second| + 1;
    buf := new byte[n + room](_ => 0);
    PutHead(buf, first, second, count);
    ok := PutCoils(buf, n, coils);
    if ok {
      WholePrefix(buf, n + (|coils| + 7) / 8);
      Regroup(first + second, [count], PackBits(coils));
    }
  }

  /** A length cast to sixteen bits. */
  method Cast(n: nat) returns (r: u16)
    ensures n < SPACE ==> r == n
  {
    r := n % SPACE;
  }

  /** A byte count cast to eight bits. */
  method CastCount(n: nat) returns (count: byte, room: nat)
    ensures count == CountByte(n) && room <= n && (room == n <==> n < 256)
  {
    count, room := CountByte(n), n % 256;
  }

  /** The buffer is as long as the byte count, cast to eight bits, says. */
  method BuildWriteCoils(address: u16, coils: seq<bool>) returns (ok: bool, buf: array<byte>)
    ensures fresh(buf) && (ok <==> (|coils| + 7) / 8 < 256)
    ensures ok ==> buf[..] == ToBe(address) + ToBe(|coils|) + Counted((|coils| + 7) / 8, PackBits(coils))
  {
    var count, room := CastCount((|coils| + 7) / 8);
    var length := Cast(|coils|);
    ok, buf := FillCoils(ToBe(address), ToBe(length), count, room, coils);
  }

  method BuildWriteRegisters(address: u16, values: seq<bv16>) returns (ok: bool, buf: array<byte>)
    ensures fresh(buf) && (ok <==> 2 * |values| < 256)
    ensures ok ==> buf[..] == ToBe(address) + ToBe(|values|) + Counted(2 * |values|, PackWords(values))
  {
    var count, room := CastCount(2 * |values|);
    var length := Cast(|values|);
    ok, buf := FillWords(0, ToBe(address), ToBe(length), count, room, RegisterHigh, RegisterLow, values);
  }

  method BuildReadWrite(address: u16, length: u16, writeAddress: u16, values: seq<bv16>)
    returns (ok: bool, buf: array<byte>)
    ensures fresh(buf) && (ok <==> 2 * |values| < 256)
    ensures ok ==> buf[..] == ToBe(address) + ToBe(length) + ToBe(writeAddress) + ToBe(|values|)
                            + Counted(2 * |values|, PackWords(values))
  {
    var count, room := CastCount(2 * |values|);
    var writeLength := Cast(|values|);
    ok, buf := FillWords(0, ToBe(address) + ToBe(length) + ToBe(writeAddress), ToBe(writeLength), count, room,
                         RegisterHigh, RegisterLow, values);
  }

  /** Requests of a fixed size. */
  method BuildFixed(c: Command) returns (buf: array<byte>)
    requires !c.WriteMultipleCoils? && !c.WriteMultipleRegisters? && !c.ReadWriteRegisters?
    ensures fresh(buf) && buf[..] == RequestData(c)
  {
    match c
    case ReadCoils(a, n) => buf := BuildRead(a, n);
    case ReadDiscreteInputs(a, n) => buf := BuildRead(a, n);
    case ReadHoldingRegisters(a, n) => buf := BuildRead(a, n);
    case ReadInputRegisters(a, n) => buf := BuildRead(a, n);
    case WriteSingleCoil(a, on) => buf := BuildWriteCoil(a, on);
    case WriteSingleRegister(a, v) => buf := BuildWriteRegister(a, v);
    case MaskWriteRegister(a, andMask, orMask) => buf := BuildMaskWrite(a, andMask, orMask);
  }

  /** The buffer of a request is the data of the command, whatever the quantity; where the byte count
      would not hold the values, building it panics, and only there. */
  method Build(c: Command) returns (ok: bool, buf: array<byte>)
    ensures fresh(buf) && (ok <==> Buildable(c))
    ensures ok ==> buf[..] == RequestData(c)
  {
    match c
    case WriteMultipleCoils(a, v) => ok, buf := BuildWriteCoils(a, v);
    case WriteMultipleRegisters(a, v) => ok, buf := BuildWriteRegisters(a, v);
    case ReadWriteRegisters(a, n, w, v) => ok, buf := BuildReadWrite(a, n, w, v);
    case _ =>
      buf := BuildFixed(c);
      ok := true;
  }
}
