/** Requests byte by byte: what the slave does with any bytes at all, and that what it understands is what a
    master builds. */
module RequestBytes {
  import opened Bytes
  import opened Adus
  import opened Packing
  import opened Pdu
  import opened Serving

  // ---------------------------------------------------------------- not understood

  /** The data cannot be a request with this code: they are dropped without an answer. */
  predicate WrongLength(fc: byte, data: seq<byte>) {
    match fc
    case 0x0f => |data| < 6 || |data| != 5 + data[4] as nat
    case 0x10 => |data| < 6 || |data| != 5 + data[4] as nat
    case 0x16 => |data| != 6
    case 0x17 => |data| < 10 || |data| != 9 + data[8] as nat
    case _ => |data| != 4
  }

  predicate IsTableCode(fc: byte) { 1 <= fc <= 6 || fc == 0x0f || fc == 0x10 || fc == 0x16 || fc == 0x17 }

  lemma CodesOneToSix(fc: byte)
    requires 1 <= fc <= 6
    ensures fc == 1 || fc == 2 || fc == 3 || fc == 4 || fc == 5 || fc == 6
  {}

  /** DROPPED, exactly: a request to the tables of the wrong length; and unknown are exactly the codes that
      are neither of the tables nor of identification. */
  lemma SilentIff(fc: byte, data: seq<byte>)
    ensures Understand(fc, data) == Silent <==> IsTableCode(fc) && WrongLength(fc, data)
    ensures Understand(fc, data) == UnknownFunction <==> !IsTableCode(fc) && fc != 0x11 && fc != 0x2b
    ensures Understand(fc, data) == Identify <==> fc == 0x11 || fc == 0x2b
  {
    if 1 <= fc <= 6 {
      CodesOneToSix(fc);
    }
  }

  /** The quantities the protocol allows, and the byte count that must go with them. */
  predicate GoodValues(fc: byte, data: seq<byte>)
    requires IsTableCode(fc) && !WrongLength(fc, data)
  {
    match fc
    case 0x01 => 1 <= Word(data, 2) <= 0x07d0
    case 0x02 => 1 <= Word(data, 2) <= 0x07d0
    case 0x03 => 1 <= Word(data, 2) <= 0x007d
    case 0x04 => 1 <= Word(data, 2) <= 0x007d
    case 0x05 => data[2..] == [0xff, 0x00] || data[2..] == [0x00, 0x00]
    case 0x0f => 1 <= Word(data, 2) <= 0x07b0 && data[4] as nat == (Word(data, 2) + 7) / 8
    case 0x10 => 1 <= Word(data, 2) <= 0x007b && data[4] as nat == 2 * Word(data, 2)
    case 0x17 => 1 <= Word(data, 2) <= 0x007d && 1 <= Word(data, 6) <= 0x0079 && data[8] as nat == 2 * Word(data, 6)
    case _ => true
  }

  /** UNDERSTOOD, exactly: a request to the tables of the right length, whose quantities are allowed and whose
      byte count goes with them. With the wrong length it is dropped, with other values refused. */
  lemma KnownIff(fc: byte, data: seq<byte>)
    requires IsTableCode(fc) && !WrongLength(fc, data)
    ensures Understand(fc, data).Known? <==> GoodValues(fc, data)
    ensures Understand(fc, data) == BadValue <==> !GoodValues(fc, data)
  {
    if 1 <= fc <= 6 {
      CodesOneToSix(fc);
    }
  }

  /** ANSWERED. A request dropped has no answer and an exception is the request's code with its highest bit
      set and one byte: 1 for an unknown code, 3 for a bad value, 2 for a command that is not allowed; and in
      none of these cases do the tables change. */
  lemma ExceptionsAre(ranges: Ranges, s: Store, request: Adu)
    requires Whole(s) && Serviceable(request)
    ensures IsTableCode(request.fc) && WrongLength(request.fc, request.data) ==> Serve(ranges, s, request) == (None, s)
    ensures !IsTableCode(request.fc) ==>
      Serve(ranges, s, request) == (Some(Adu(request.transaction, request.unit, request.fc | 0x80, [1])), s)
    ensures Understand(request.fc, request.data) == BadValue ==>
      Serve(ranges, s, request) == (Some(Adu(request.transaction, request.unit, request.fc | 0x80, [3])), s)
    ensures forall c :: Understand(request.fc, request.data) == Known(c) && InLimit(c) && !Allowed(ranges, c) ==>
      Serve(ranges, s, request) == (Some(Adu(request.transaction, request.unit, request.fc | 0x80, [2])), s)
  {
    SilentIff(request.fc, request.data);
  }

  // ---------------------------------------------------------------- understood

  lemma WordIsBytes(d: seq<byte>, at: nat)
    requires at + 2 <= |d|
    ensures ToBe(Word(d, at)) == d[at..at + 2]
  {
    ToFromBe(d[at], d[at + 1]);
  }

  lemma RegisterIsBytes(d: seq<byte>, at: nat)
    requires at + 2 <= |d|
    ensures WordBytes(RegisterAt(d, at)) == d[at..at + 2]
  {
    RegisterRoundTrip(0, d[at], d[at + 1]);
  }

  lemma WordsForth<W, B(!new)>(high: W -> B, low: W -> B, join: (B, B) -> W, data: seq<B>, n: nat)
    requires |data| == 2 * n && forall a, b :: high(join(a, b)) == a && low(join(a, b)) == b
    ensures SpellWords(high, low, WordsOf(join, data, n)) == data
  {
    var words := WordsOf(join, data, n);
    var back := SpellWords(high, low, words);
    forall k | 0 <= k < 2 * n ensures back[k] == data[k] {
      var i := k / 2;
      SpelledWordAt(high, low, words, i);
      assert words[i] == join(data[2 * i], data[2 * i + 1]);
      assert k == 2 * i || k == 2 * i + 1;
    }
  }

  lemma WordsAreBytes(data: seq<byte>, n: nat)
    requires |data| == 2 * n
    ensures PackWords(ParseWords(data, n)) == data
  {
    forall a, b ensures RegisterHigh(Register(a, b)) == a && RegisterLow(Register(a, b)) == b {
      RegisterRoundTrip(0, a, b);
    }
    WordsForth(RegisterHigh, RegisterLow, Register, data, n);
  }

  lemma CountIsByte(b: byte)
    ensures CountByte(b as nat) == b
  {
    ByteOfEqual(b as nat, b);
  }

  predicate IsRequest(fc: byte, d: seq<byte>, c: Command) {
    Understand(fc, d) == Known(c) && InLimit(c)
  }

  /** The bytes at a place are those of a number or of a register. */
  predicate HasWord(d: seq<byte>, at: nat, n: u16) { at + 2 <= |d| && d[at..at + 2] == ToBe(n) }

  predicate HasRegister(d: seq<byte>, at: nat, w: bv16) { at + 2 <= |d| && d[at..at + 2] == WordBytes(w) }

  lemma ReadHas(fc: byte, d: seq<byte>, c: Command)
    requires IsRequest(fc, d, c) && IsRead(c)
    ensures fc == FcOf(c) && |d| == 4 && HasWord(d, 0, c.address) && HasWord(d, 2, c.length)
  {
    WordIsBytes(d, 0);
    WordIsBytes(d, 2);
  }

  lemma CoilHas(fc: byte, d: seq<byte>, c: Command)
    requires IsRequest(fc, d, c) && c.WriteSingleCoil?
    ensures fc == FcOf(c) && |d| == 4 && HasWord(d, 0, c.address)
    ensures d[2..4] == if c.on then COIL_ON else COIL_OFF
  {
    WordIsBytes(d, 0);
    assert d[2..] == d[2..4];
  }

  lemma RegisterHas(fc: byte, d: seq<byte>, c: Command)
    requires IsRequest(fc, d, c) && c.WriteSingleRegister?
    ensures fc == FcOf(c) && |d| == 4 && HasWord(d, 0, c.address) && HasRegister(d, 2, c.value)
  {
    WordIsBytes(d, 0);
    RegisterIsBytes(d, 2);
  }

  lemma MaskHas(fc: byte, d: seq<byte>, c: Command)
    requires IsRequest(fc, d, c) && c.MaskWriteRegister?
    ensures fc == FcOf(c) && |d| == 6
    ensures HasWord(d, 0, c.address) && HasRegister(d, 2, c.andMask) && HasRegister(d, 4, c.orMask)
  {
    WordIsBytes(d, 0);
    RegisterIsBytes(d, 2);
    RegisterIsBytes(d, 4);
  }

  lemma RegistersHave(fc: byte, d: seq<byte>, c: Command)
    requires IsRequest(fc, d, c) && c.WriteMultipleRegisters?
    ensures fc == FcOf(c) && |d| == 5 + 2 * |c.values| && HasWord(d, 0, c.address) && HasWord(d, 2, |c.values|)
    ensures d[4] as nat == 2 * |c.values| && c.values == ParseWords(d[5..], |c.values|)
  {
    WordIsBytes(d, 0);
    WordIsBytes(d, 2);
  }

  lemma BothHave(fc: byte, d: seq<byte>, c: Command)
    requires IsRequest(fc, d, c) && c.ReadWriteRegisters?
    ensures fc == FcOf(c) && |d| == 9 + 2 * |c.values| && HasWord(d, 0, c.address) && HasWord(d, 2, c.length)
    ensures HasWord(d, 4, c.writeAddress) && HasWord(d, 6, |c.values|)
    ensures d[8] as nat == 2 * |c.values| && c.values == ParseWords(d[9..], |c.values|)
  {
    WordIsBytes(d, 0);
    WordIsBytes(d, 2);
    WordIsBytes(d, 4);
    WordIsBytes(d, 6);
  }

  lemma CoilsHave(fc: byte, d: seq<byte>, c: Command)
    requires IsRequest(fc, d, c) && c.WriteMultipleCoils?
    ensures fc == FcOf(c) && |d| == 5 + (|c.coils| + 7) / 8 && HasWord(d, 0, c.address) && HasWord(d, 2, |c.coils|)
    ensures d[4] as nat == (|c.coils| + 7) / 8 && c.coils == ParseBits(d[5..], |c.coils|)
  {
    WordIsBytes(d, 0);
    WordIsBytes(d, 2);
  }

  lemma Pieces<T>(d: seq<T>)
    ensures |d| == 4 ==> d == d[0..2] + d[2..4]
    ensures |d| == 6 ==> d == d[0..2] + d[2..4] + d[4..6]
    ensures |d| >= 5 ==> d == d[0..2] + d[2..4] + ([d[4]] + d[5..])
    ensures |d| >= 9 ==> d == d[0..2] + d[2..4] + d[4..6] + d[6..8] + ([d[8]] + d[9..])
  {}

  lemma RegistersJoined(d: seq<byte>, a: u16, v: seq<bv16>)
    requires |v| < 128 && |d| == 5 + 2 * |v| && HasWord(d, 0, a) && HasWord(d, 2, |v|)
    requires d[4] as nat == 2 * |v| && v == ParseWords(d[5..], |v|)
    ensures d == ToBe(a) + ToBe(|v|) + Counted(2 * |v|, PackWords(v))
  {
    CountIsByte(d[4]);
    WordsAreBytes(d[5..], |v|);
    Pieces(d);
  }

  lemma BothJoined(d: seq<byte>, a: u16, n: u16, w: u16, v: seq<bv16>)
    requires |v| < 128 && |d| == 9 + 2 * |v| && HasWord(d, 0, a) && HasWord(d, 2, n) && HasWord(d, 4, w)
    requires HasWord(d, 6, |v|) && d[8] as nat == 2 * |v| && v == ParseWords(d[9..], |v|)
    ensures d == ToBe(a) + ToBe(n) + ToBe(w) + ToBe(|v|) + Counted(2 * |v|, PackWords(v))
  {
    CountIsByte(d[8]);
    WordsAreBytes(d[9..], |v|);
    Pieces(d);
  }

  lemma FirstFive<T>(a: seq<T>, b: seq<T>, count: T, x: seq<T>, y: seq<T>)
    requires |a| == 2 && |b| == 2
    ensures (a + b + ([count] + x))[..5] == (a + b + ([count] + y))[..5]
  {}

  lemma CoilsJoined(d: seq<byte>, a: u16, v: seq<bool>)
    requires |v| < 2000 && |d| == 5 + (|v| + 7) / 8 && HasWord(d, 0, a) && HasWord(d, 2, |v|)
    requires d[4] as nat == (|v| + 7) / 8 && v == ParseBits(d[5..], |v|)
    ensures var e := ToBe(a) + ToBe(|v|) + Counted((|v| + 7) / 8, PackBits(v)); |e| == |d| && d[..5] == e[..5]
    ensures forall i :: 0 <= i < |v| ==> Coil(d[5 + i / 8], i % 8) == v[i]
  {
    CountIsByte(d[4]);
    Pieces(d);
    FirstFive(ToBe(a), ToBe(|v|), d[4], d[5..], PackBits(v));
    forall i | 0 <= i < |v| ensures Coil(d[5 + i / 8], i % 8) == v[i] {
      assert d[5..][i / 8] == d[5 + i / 8];
    }
  }

  /** UNDERSTOOD IS BUILT. Whatever data the slave takes for a command are those a master builds for it, but
      for the unused bits in the last byte of coils to write. */
  lemma UnderstoodIsBuilt(fc: byte, d: seq<byte>, c: Command)
    requires IsRequest(fc, d, c)
    ensures fc == FcOf(c) && |d| == |RequestData(c)|
    ensures !c.WriteMultipleCoils? ==> d == RequestData(c)
    ensures c.WriteMultipleCoils? ==>
      && d[..5] == RequestData(c)[..5]
      && forall i :: 0 <= i < |c.coils| ==> Coil(d[5 + i / 8], i % 8) == c.coils[i]
  {
    Pieces(d);
    match c
    case WriteMultipleCoils(a, v) =>
      CoilsHave(fc, d, c);
      CoilsJoined(d, a, v);
    case WriteMultipleRegisters(a, v) =>
      RegistersHave(fc, d, c);
      RegistersJoined(d, a, v);
    case ReadWriteRegisters(a, n, w, v) =>
      BothHave(fc, d, c);
      BothJoined(d, a, n, w, v);
    case WriteSingleCoil(_, _) => CoilHas(fc, d, c);
    case WriteSingleRegister(_, _) => RegisterHas(fc, d, c);
    case MaskWriteRegister(_, _, _) => MaskHas(fc, d, c);
    case _ => ReadHas(fc, d, c);
  }

  /** LIMITS. A master can build a request with at most 2040 coils or 127 registers to write, which is more
      than the slave takes. */
  lemma BuildableIff(c: Command)
    ensures c.WriteMultipleCoils? ==> (Buildable(c) <==> |c.coils| <= 2040)
    ensures c.WriteMultipleRegisters? || c.ReadWriteRegisters? ==> (Buildable(c) <==> |c.values| <= 127)
    ensures !c.WriteMultipleCoils? && !c.WriteMultipleRegisters? && !c.ReadWriteRegisters? ==> Buildable(c)
    ensures InLimit(c) ==> Buildable(c)
  {}
}
