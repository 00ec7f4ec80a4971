/** Requests and responses: what the master builds and reads, what the slave understands and answers,
    and the registers and coils in between. */
module Pdu {
  import opened Bytes
  import opened Packing
  import S = Session

  datatype Command =
    | ReadCoils(address: u16, length: u16)
    | ReadDiscreteInputs(address: u16, length: u16)
    | ReadHoldingRegisters(address: u16, length: u16)
    | ReadInputRegisters(address: u16, length: u16)
    | WriteSingleCoil(address: u16, on: bool)
    | WriteSingleRegister(address: u16, value: bv16)
    | WriteMultipleCoils(address: u16, coils: seq<bool>)
    | WriteMultipleRegisters(address: u16, values: seq<bv16>)
    | MaskWriteRegister(address: u16, andMask: bv16, orMask: bv16)
    | ReadWriteRegisters(address: u16, length: u16, writeAddress: u16, values: seq<bv16>)

  function FcOf(c: Command): byte {
    match c
    case ReadCoils(_, _) => 0x01
    case ReadDiscreteInputs(_, _) => 0x02
    case ReadHoldingRegisters(_, _) => 0x03
    case ReadInputRegisters(_, _) => 0x04
    case WriteSingleCoil(_, _) => 0x05
    case WriteSingleRegister(_, _) => 0x06
    case WriteMultipleCoils(_, _) => 0x0f
    case WriteMultipleRegisters(_, _) => 0x10
    case MaskWriteRegister(_, _, _) => 0x16
    case ReadWriteRegisters(_, _, _, _) => 0x17
  }

  predicate Within(n: int, least: int, most: int) { least <= n <= most }

  /** The quantity limits of the protocol. */
  predicate InLimit(c: Command) {
    match c
    case ReadCoils(_, n) => Within(n, 1, 2000)
    case ReadDiscreteInputs(_, n) => Within(n, 1, 2000)
    case ReadHoldingRegisters(_, n) => Within(n, 1, 125)
    case ReadInputRegisters(_, n) => Within(n, 1, 125)
    case WriteSingleCoil(_, _) => true
    case WriteSingleRegister(_, _) => true
    case WriteMultipleCoils(_, v) => Within(|v|, 1, 1968)
    case WriteMultipleRegisters(_, v) => Within(|v|, 1, 123)
    case MaskWriteRegister(_, _, _) => true
    case ReadWriteRegisters(_, n, _, v) => Within(n, 1, 125) && Within(|v|, 1, 121)
  }

  /** The end of every run of addresses is still an address, so that its sum does not wrap. */
  predicate Spans(c: Command) {
    match c
    case ReadCoils(a, n) => a + n <= 0xffff
    case ReadDiscreteInputs(a, n) => a + n <= 0xffff
    case ReadHoldingRegisters(a, n) => a + n <= 0xffff
    case ReadInputRegisters(a, n) => a + n <= 0xffff
    case WriteSingleCoil(_, _) => true
    case WriteSingleRegister(_, _) => true
    case WriteMultipleCoils(a, v) => a + |v| <= 0xffff
    case WriteMultipleRegisters(a, v) => a + |v| <= 0xffff
    case MaskWriteRegister(_, _, _) => true
    case ReadWriteRegisters(a, n, w, v) => a + n <= 0xffff && w + |v| <= 0xffff
  }

  // ---------------------------------------------------------------- what the master sends

  function WordBytes(w: bv16): seq<byte> { [RegisterHigh(w), RegisterLow(w)] }

  const COIL_ON: seq<byte> := [0xff, 0x00]
  const COIL_OFF: seq<byte> := [0x00, 0x00]

  function Counted(count: nat, bytes: seq<byte>): seq<byte> { [CountByte(count)] + bytes }

  /** The values fit the byte count of a request. */
  predicate Buildable(c: Command) {
    match c
    case WriteMultipleCoils(_, v) => (|v| + 7) / 8 < 256
    case WriteMultipleRegisters(_, v) => 2 * |v| < 256
    case ReadWriteRegisters(_, _, _, v) => 2 * |v| < 256
    case _ => true
  }

  /** The data of a request, within the limits of the protocol or beyond. */
  function RequestData(c: Command): seq<byte>
    requires Buildable(c)
  {
    match c
    case ReadCoils(a, n) => ToBe(a) + ToBe(n)
    case ReadDiscreteInputs(a, n) => ToBe(a) + ToBe(n)
    case ReadHoldingRegisters(a, n) => ToBe(a) + ToBe(n)
    case ReadInputRegisters(a, n) => ToBe(a) + ToBe(n)
    case WriteSingleCoil(a, on) => ToBe(a) + if on then COIL_ON else COIL_OFF
    case WriteSingleRegister(a, v) => ToBe(a) + WordBytes(v)
    case WriteMultipleCoils(a, v) => ToBe(a) + ToBe(|v|) + Counted((|v| + 7) / 8, PackBits(v))
    case WriteMultipleRegisters(a, v) => ToBe(a) + ToBe(|v|) + Counted(2 * |v|, PackWords(v))
    case MaskWriteRegister(a, andMask, orMask) => ToBe(a) + WordBytes(andMask) + WordBytes(orMask)
    case ReadWriteRegisters(a, n, w, v) =>
      ToBe(a) + ToBe(n) + ToBe(w) + ToBe(|v|) + Counted(2 * |v|, PackWords(v))
  }

  /** The checks its response must pass. */
  function ResponseChecks(unit: byte, c: Command): seq<S.PreCheck>
    requires InLimit(c)
  {
    [S.CheckUnitFc(unit, FcOf(c))] +
    match c
    case ReadCoils(_, n) => [S.CheckLength(1 + (n + 7) / 8), S.CheckByteCount((n + 7) / 8)]
    case ReadDiscreteInputs(_, n) => [S.CheckLength(1 + (n + 7) / 8), S.CheckByteCount((n + 7) / 8)]
    case ReadHoldingRegisters(_, n) => [S.CheckLength(1 + 2 * n), S.CheckByteCount(2 * n)]
    case ReadInputRegisters(_, n) => [S.CheckLength(1 + 2 * n), S.CheckByteCount(2 * n)]
    case WriteSingleCoil(_, _) => [S.CheckLength(4), S.CheckEcho(RequestData(c))]
    case WriteSingleRegister(_, _) => [S.CheckLength(4), S.CheckEcho(RequestData(c))]
    case WriteMultipleCoils(_, _) => [S.CheckLength(4), S.CheckEcho(RequestData(c)[..4])]
    case WriteMultipleRegisters(_, _) => [S.CheckLength(4), S.CheckEcho(RequestData(c)[..4])]
    case MaskWriteRegister(_, _, _) => [S.CheckLength(6), S.CheckEcho(RequestData(c))]
    case ReadWriteRegisters(_, n, _, _) => [S.CheckLength(1 + 2 * n), S.CheckByteCount(2 * n)]
  }

  // ---------------------------------------------------------------- what the slave understands

  /** A request of the wrong length is dropped, one with a bad value refused. Two codes ask the device
      to identify itself and go to handlers of their own. */
  datatype Understood = Silent | BadValue | UnknownFunction | Identify | Known(command: Command)

  function Word(data: seq<byte>, at: nat): u16
    requires at + 2 <= |data|
  {
    FromBe(data[at], data[at + 1])
  }

  function RegisterAt(data: seq<byte>, at: nat): bv16
    requires at + 2 <= |data|
  {
    Register(data[at], data[at + 1])
  }

  function Limited(c: Command): Understood { if InLimit(c) then Known(c) else BadValue }

  function UnderstandMany(fc: byte, data: seq<byte>): Understood {
    if |data| < 6 || |data| != 5 + data[4] as nat then Silent
    else
      var a, n, count := Word(data, 0), Word(data, 2), data[4] as nat;
      if fc == 0x0f then
        if Within(n, 1, 1968) && count == (n + 7) / 8 then Known(WriteMultipleCoils(a, ParseBits(data[5..], n)))
        else BadValue
      else
        if Within(n, 1, 123) && count == 2 * n then Known(WriteMultipleRegisters(a, ParseWords(data[5..], n)))
        else BadValue
  }

  function UnderstandReadWrite(data: seq<byte>): Understood {
    if |data| < 10 || |data| != 9 + data[8] as nat then Silent
    else
      var a, n, w, m, count := Word(data, 0), Word(data, 2), Word(data, 4), Word(data, 6), data[8] as nat;
      if Within(n, 1, 125) && Within(m, 1, 121) && count == 2 * m then
        Known(ReadWriteRegisters(a, n, w, ParseWords(data[9..], m)))
      else BadValue
  }

  function Understand(fc: byte, data: seq<byte>): Understood {
    match fc
    case 0x01 => if |data| != 4 then Silent else Limited(ReadCoils(Word(data, 0), Word(data, 2)))
    case 0x02 => if |data| != 4 then Silent else Limited(ReadDiscreteInputs(Word(data, 0), Word(data, 2)))
    case 0x03 => if |data| != 4 then Silent else Limited(ReadHoldingRegisters(Word(data, 0), Word(data, 2)))
    case 0x04 => if |data| != 4 then Silent else Limited(ReadInputRegisters(Word(data, 0), Word(data, 2)))
    case 0x05 =>
      if |data| != 4 then Silent
      else if data[2..] == COIL_OFF || data[2..] == COIL_ON then
        Known(WriteSingleCoil(Word(data, 0), data[2..] == COIL_ON))
      else BadValue
    case 0x06 => if |data| != 4 then Silent else Known(WriteSingleRegister(Word(data, 0), RegisterAt(data, 2)))
    case 0x0f => UnderstandMany(fc, data)
    case 0x10 => UnderstandMany(fc, data)
    case 0x16 =>
      if |data| != 6 then Silent else Known(MaskWriteRegister(Word(data, 0), RegisterAt(data, 2), RegisterAt(data, 4)))
    case 0x17 => UnderstandReadWrite(data)
    case 0x11 => Identify
    case 0x2b => Identify
    case _ => UnknownFunction
  }

  lemma ToBeWord(data: seq<byte>, at: nat, n: u16)
    requires at + 2 <= |data| && data[at..at + 2] == ToBe(n)
    ensures Word(data, at) == n
  {
    FromToBe(n);
    assert data[at..at + 2][0] == data[at] && data[at..at + 2][1] == data[at + 1];
  }

  lemma WordBytesRegister(data: seq<byte>, at: nat, w: bv16)
    requires at + 2 <= |data| && data[at..at + 2] == WordBytes(w)
    ensures RegisterAt(data, at) == w
  {
    RegisterRoundTrip(w, 0, 0);
    assert data[at..at + 2][0] == data[at] && data[at..at + 2][1] == data[at + 1];
  }

  /** Where the parts of a concatenation lie. */
  lemma Parts<T>(a: seq<T>, b: seq<T>, c: seq<T>)
    ensures (a + b + c)[..|a|] == a && (a + b + c)[|a|..|a| + |b|] == b && (a + b + c)[|a| + |b|..] == c
  {}

  lemma ReadDataUnderstood(a: u16, n: u16)
    ensures var d := ToBe(a) + ToBe(n); |d| == 4 && Word(d, 0) == a && Word(d, 2) == n
  {
    var d := ToBe(a) + ToBe(n);
    Parts(ToBe(a), ToBe(n), []);
    assert d + [] == d;
    ToBeWord(d, 0, a);
    ToBeWord(d, 2, n);
  }

  lemma ManyDataUnderstood(a: u16, n: u16, count: nat, bytes: seq<byte>)
    requires |bytes| == count < 256 && count > 0
    ensures var d := ToBe(a) + ToBe(n) + Counted(count, bytes);
      |d| == 5 + count && Word(d, 0) == a && Word(d, 2) == n && d[4] as nat == count && d[5..] == bytes
  {
    var d := ToBe(a) + ToBe(n) + Counted(count, bytes);
    Parts(ToBe(a), ToBe(n), Counted(count, bytes));
    ToBeWord(d, 0, a);
    ToBeWord(d, 2, n);
    CountByteFits(count);
    assert d[4..][0] == d[4] && d[4..][1..] == d[5..];
  }

  lemma WordInFront(front: seq<byte>, back: seq<byte>, at: nat)
    requires at + 2 <= |front|
    ensures Word(front + back, at) == Word(front, at)
  {}

  lemma WordInBack(front: seq<byte>, back: seq<byte>, at: nat)
    requires at + 2 <= |back|
    ensures Word(front + back, |front| + at) == Word(back, at)
  {}

  lemma BackOf<T>(front: seq<T>, back: seq<T>, at: nat)
    requires at < |back|
    ensures (front + back)[|front| + at] == back[at] && (front + back)[|front| + at..] == back[at..]
  {}

  lemma Regrouped<T>(a: seq<T>, b: seq<T>, c: seq<T>, d: seq<T>, e: seq<T>)
    ensures a + b + c + d + e == (a + b) + (c + d + e)
  {}

  lemma ReadWriteDataUnderstood(a: u16, n: u16, w: u16, m: u16, count: nat, bytes: seq<byte>)
    requires |bytes| == count < 256 && count > 0
    ensures var d := ToBe(a) + ToBe(n) + ToBe(w) + ToBe(m) + Counted(count, bytes);
      && |d| == 9 + count && Word(d, 0) == a && Word(d, 2) == n && Word(d, 4) == w && Word(d, 6) == m
      && d[8] as nat == count && d[9..] == bytes
  {
    var front, back := ToBe(a) + ToBe(n), ToBe(w) + ToBe(m) + Counted(count, bytes);
    Regrouped(ToBe(a), ToBe(n), ToBe(w), ToBe(m), Counted(count, bytes));
    ReadDataUnderstood(a, n);
    ManyDataUnderstood(w, m, count, bytes);
    WordInFront(front, back, 0);
    WordInFront(front, back, 2);
    WordInBack(front, back, 0);
    WordInBack(front, back, 2);
    BackOf(front, back, 4);
    BackOf(front, back, 5);
  }

  lemma CoilUnderstood(a: u16, on: bool)
    ensures var d := ToBe(a) + if on then COIL_ON else COIL_OFF;
      |d| == 4 && Word(d, 0) == a && (d[2..] == COIL_ON <==> on) && (d[2..] == COIL_OFF <==> !on)
  {
    var value := if on then COIL_ON else COIL_OFF;
    var d := ToBe(a) + value;
    Parts(ToBe(a), value, []);
    assert d == ToBe(a) + value + [];
    ToBeWord(d, 0, a);
    assert COIL_ON[0] == 0xff && COIL_OFF[0] == 0x00;
  }

  lemma RegisterUnderstood(a: u16, v: bv16)
    ensures var d := ToBe(a) + WordBytes(v); |d| == 4 && Word(d, 0) == a && RegisterAt(d, 2) == v
  {
    var d := ToBe(a) + WordBytes(v);
    Parts(ToBe(a), WordBytes(v), []);
    assert d == ToBe(a) + WordBytes(v) + [];
    ToBeWord(d, 0, a);
    WordBytesRegister(d, 2, v);
  }

  lemma MaskUnderstood(a: u16, andMask: bv16, orMask: bv16)
    ensures var d := ToBe(a) + WordBytes(andMask) + WordBytes(orMask);
      |d| == 6 && Word(d, 0) == a && RegisterAt(d, 2) == andMask && RegisterAt(d, 4) == orMask
  {
    var d := ToBe(a) + WordBytes(andMask) + WordBytes(orMask);
    Parts(ToBe(a), WordBytes(andMask), WordBytes(orMask));
    ToBeWord(d, 0, a);
    WordBytesRegister(d, 2, andMask);
    WordBytesRegister(d, 4, orMask);
  }

  predicate IsRead(c: Command) {
    c.ReadCoils? || c.ReadDiscreteInputs? || c.ReadHoldingRegisters? || c.ReadInputRegisters?
  }

  /** The slave understands a request as the command it was built from, and it fits every framing. */
  predicate Faithful(c: Command)
    requires InLimit(c)
  {
    Understand(FcOf(c), RequestData(c)) == Known(c) && 4 <= |RequestData(c)| <= 251
  }

  lemma ReadIsFaithful(c: Command)
    requires InLimit(c) && IsRead(c)
    ensures Faithful(c)
  {
    ReadDataUnderstood(c.address, c.length);
  }

  lemma WriteIsFaithful(c: Command)
    requires c.WriteSingleCoil? || c.WriteSingleRegister? || c.MaskWriteRegister?
    ensures Faithful(c)
  {
    match c
    case WriteSingleCoil(a, on) => CoilUnderstood(a, on);
    case WriteSingleRegister(a, v) => RegisterUnderstood(a, v);
    case MaskWriteRegister(a, andMask, orMask) => MaskUnderstood(a, andMask, orMask);
  }

  lemma CoilsUnderstood(d: seq<byte>, a: u16, n: u16, count: nat, bytes: seq<byte>)
    requires Within(n, 1, 1968) && |bytes| == count == (n + 7) / 8 && |d| == 5 + count
    requires Word(d, 0) == a && Word(d, 2) == n && d[4] as nat == count && d[5..] == bytes
    ensures UnderstandMany(0x0f, d) == Known(WriteMultipleCoils(a, ParseBits(bytes, n)))
  {}

  lemma CoilsDataUnderstood(a: u16, v: seq<bool>)
    requires Within(|v|, 1, 1968)
    ensures var d := ToBe(a) + ToBe(|v|) + Counted((|v| + 7) / 8, PackBits(v));
      UnderstandMany(0x0f, d) == Known(WriteMultipleCoils(a, v)) && 4 <= |d| <= 251
  {
    var count, bytes := (|v| + 7) / 8, PackBits(v);
    CoilsRoundTrip(v);
    ManyDataUnderstood(a, |v|, count, bytes);
    CoilsUnderstood(ToBe(a) + ToBe(|v|) + Counted(count, bytes), a, |v|, count, bytes);
  }

  lemma WriteCoilsIsFaithful(c: Command)
    requires c.WriteMultipleCoils? && InLimit(c)
    ensures Faithful(c)
  {
    CoilsDataUnderstood(c.address, c.coils);
  }

  lemma WriteRegistersIsFaithful(c: Command)
    requires c.WriteMultipleRegisters? && InLimit(c)
    ensures Faithful(c)
  {
    RegistersRoundTrip(c.values);
    ManyDataUnderstood(c.address, |c.values|, 2 * |c.values|, PackWords(c.values));
  }

  lemma BothUnderstood(d: seq<byte>, a: u16, n: u16, w: u16, m: u16, count: nat, bytes: seq<byte>)
    requires Within(n, 1, 125) && Within(m, 1, 121) && |bytes| == count == 2 * m && |d| == 9 + count
    requires Word(d, 0) == a && Word(d, 2) == n && Word(d, 4) == w && Word(d, 6) == m
    requires d[8] as nat == count && d[9..] == bytes
    ensures UnderstandReadWrite(d) == Known(ReadWriteRegisters(a, n, w, ParseWords(bytes, m)))
  {}

  lemma BothDataUnderstood(a: u16, n: u16, w: u16, v: seq<bv16>)
    requires Within(n, 1, 125) && Within(|v|, 1, 121)
    ensures var d := ToBe(a) + ToBe(n) + ToBe(w) + ToBe(|v|) + Counted(2 * |v|, PackWords(v));
      UnderstandReadWrite(d) == Known(ReadWriteRegisters(a, n, w, v)) && 4 <= |d| <= 251
  {
    var count, bytes := 2 * |v|, PackWords(v);
    RegistersRoundTrip(v);
    ReadWriteDataUnderstood(a, n, w, |v|, count, bytes);
    BothUnderstood(ToBe(a) + ToBe(n) + ToBe(w) + ToBe(|v|) + Counted(count, bytes), a, n, w, |v|, count, bytes);
  }

  lemma ReadWriteIsFaithful(c: Command)
    requires c.ReadWriteRegisters? && InLimit(c)
    ensures Faithful(c)
  {
    BothDataUnderstood(c.address, c.length, c.writeAddress, c.values);
  }

  /** The slave understands every request within the limits as the command it was built from. */
  lemma RequestUnderstood(c: Command)
    requires InLimit(c)
    ensures Understand(FcOf(c), RequestData(c)) == Known(c)
    ensures 4 <= |RequestData(c)| <= 251
  {
    assert Faithful(c) by {
      if IsRead(c) {
        ReadIsFaithful(c);
      } else if c.WriteMultipleCoils? {
        WriteCoilsIsFaithful(c);
      } else if c.WriteMultipleRegisters? {
        WriteRegistersIsFaithful(c);
      } else if c.ReadWriteRegisters? {
        ReadWriteIsFaithful(c);
      } else {
        WriteIsFaithful(c);
      }
    }
  }

  /** No values at all. */
  predicate IsBare(c: Command) {
    || (c.WriteMultipleCoils? && c.coils == [])
    || ((c.WriteMultipleRegisters? || c.ReadWriteRegisters?) && c.values == [])
  }

  lemma BareIsSilent(c: Command)
    requires Buildable(c) && IsBare(c)
    ensures Understand(FcOf(c), RequestData(c)) == Silent
  {
    match c
    case WriteMultipleCoils(a, v) => assert |RequestData(c)| == 5 + |PackBits(v)| && PackBits(v) == [];
    case WriteMultipleRegisters(a, v) => assert |RequestData(c)| == 5 + |PackWords(v)| && PackWords(v) == [];
    case ReadWriteRegisters(a, n, w, v) => assert |RequestData(c)| == 9 + |PackWords(v)| && PackWords(v) == [];
  }

  lemma ManyRefused(fc: byte, d: seq<byte>, n: u16, count: nat)
    requires count > 0 && |d| == 5 + count && d[4] as nat == count && Word(d, 2) == n
    requires !Within(n, 1, if fc == 0x0f then 1968 else 123)
    ensures UnderstandMany(fc, d) == BadValue
  {}

  lemma ReadWriteRefused(d: seq<byte>, n: u16, m: u16, count: nat)
    requires count > 0 && |d| == 9 + count && d[8] as nat == count && Word(d, 2) == n && Word(d, 6) == m
    requires !Within(n, 1, 125) || !Within(m, 1, 121)
    ensures UnderstandReadWrite(d) == BadValue
  {}

  predicate HasBadValue(c: Command)
    requires Buildable(c)
  {
    Understand(FcOf(c), RequestData(c)) == BadValue
  }

  lemma CoilsRefused(c: Command)
    requires c.WriteMultipleCoils? && Buildable(c) && !InLimit(c) && c.coils != []
    ensures HasBadValue(c)
  {
    var v := c.coils;
    CoilsRoundTrip(v);
    ManyDataUnderstood(c.address, |v|, (|v| + 7) / 8, PackBits(v));
    ManyRefused(0x0f, RequestData(c), |v|, (|v| + 7) / 8);
  }

  lemma RegistersRefused(c: Command)
    requires c.WriteMultipleRegisters? && Buildable(c) && !InLimit(c) && c.values != []
    ensures HasBadValue(c)
  {
    var v := c.values;
    RegistersRoundTrip(v);
    ManyDataUnderstood(c.address, |v|, 2 * |v|, PackWords(v));
    ManyRefused(0x10, RequestData(c), |v|, 2 * |v|);
  }

  lemma BothRefused(c: Command)
    requires c.ReadWriteRegisters? && Buildable(c) && !InLimit(c) && c.values != []
    ensures HasBadValue(c)
  {
    var v := c.values;
    RegistersRoundTrip(v);
    ReadWriteDataUnderstood(c.address, c.length, c.writeAddress, |v|, 2 * |v|, PackWords(v));
    ReadWriteRefused(RequestData(c), c.length, |v|, 2 * |v|);
  }

  lemma ReadRefused(c: Command)
    requires IsRead(c) && !InLimit(c)
    ensures HasBadValue(c)
  {
    ReadDataUnderstood(c.address, c.length);
  }

  lemma BeyondIsRefused(c: Command)
    requires Buildable(c) && !InLimit(c) && !IsBare(c)
    ensures HasBadValue(c)
  {
    if c.WriteMultipleCoils? {
      CoilsRefused(c);
    } else if c.WriteMultipleRegisters? {
      RegistersRefused(c);
    } else if c.ReadWriteRegisters? {
      BothRefused(c);
    } else {
      ReadRefused(c);
    }
  }

  /** EXACT. Of all requests a master can build, the slave understands those within the limits as the
      commands they were built from, drops those without any values, and refuses all others. */
  lemma EveryRequestUnderstood(c: Command)
    requires Buildable(c)
    ensures Understand(FcOf(c), RequestData(c)) == if InLimit(c) then Known(c) else if IsBare(c) then Silent else BadValue
  {
    if InLimit(c) {
      RequestUnderstood(c);
    } else if IsBare(c) {
      BareIsSilent(c);
    } else {
      BeyondIsRefused(c);
    }
  }

  /** Whatever the slave takes for a command is within the limits. */
  lemma UnderstoodInLimit(fc: byte, data: seq<byte>)
    requires Understand(fc, data).Known?
    ensures InLimit(Understand(fc, data).command) && FcOf(Understand(fc, data).command) == fc
  {}
}
