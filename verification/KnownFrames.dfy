/** The wire formats on examples: one request in every framing, and the packing of coils and registers. */
module KnownFrames {
  import opened Bytes
  import opened Adus
  import opened Packing
  import opened Pdu
  import Crc
  import Rtu
  import Ascii
  import Tcp
  import ServerId

  /** Read one holding register at address 0 of unit 1. */
  const REQUEST := Adu(None, 0x01, 0x03, [0x00, 0x00, 0x00, 0x01])

  lemma CrcStep(data: seq<byte>, b: byte, before: bv16, after: bv16)
    requires Crc.Crc16(data) == before && Crc.FeedByte(before, b) == after
    ensures Crc.Crc16(data + [b]) == after
  {
    Crc.CrcConcat(data, [b], 0xffff);
    var one := [b];
    assert one[1..] == [];
    assert Crc.Fold(Crc.FeedByte, one, before) == Crc.Fold(Crc.FeedByte, one[1..], Crc.FeedByte(before, one[0]));
  }

  lemma ChecksumValues()
    ensures Crc.FeedByte(0xffff, 0x01) == 0x807e
    ensures Crc.FeedByte(0x807e, 0x03) == 0x2140
    ensures Crc.FeedByte(0x2140, 0x00) == 0xf020
    ensures Crc.FeedByte(0xf020, 0x00) == 0xd8f1
    ensures Crc.FeedByte(0xd8f1, 0x00) == 0x8419
    ensures Crc.FeedByte(0x8419, 0x01) == 0x0a84
  {}

  lemma KnownChecksum()
    ensures Crc.Crc16([]) == 0xffff && Crc.Crc16([0x01]) == 0x807e
    ensures Crc.Crc16([0x01, 0x03, 0x00, 0x00, 0x00, 0x01]) == 0x0a84
  {
    ChecksumValues();
    CrcStep([], 0x01, 0xffff, 0x807e);
    CrcStep([0x01], 0x03, 0x807e, 0x2140);
    CrcStep([0x01, 0x03], 0x00, 0x2140, 0xf020);
    CrcStep([0x01, 0x03, 0x00], 0x00, 0xf020, 0xd8f1);
    CrcStep([0x01, 0x03, 0x00, 0x00], 0x00, 0xd8f1, 0x8419);
    CrcStep([0x01, 0x03, 0x00, 0x00, 0x00], 0x01, 0x8419, 0x0a84);
    assert [] + [0x01 as byte] == [0x01];
    assert [0x01 as byte] + [0x03] == [0x01, 0x03];
    assert [0x01 as byte, 0x03] + [0x00] == [0x01, 0x03, 0x00];
    assert [0x01 as byte, 0x03, 0x00] + [0x00] == [0x01, 0x03, 0x00, 0x00];
    assert [0x01 as byte, 0x03, 0x00, 0x00] + [0x00] == [0x01, 0x03, 0x00, 0x00, 0x00];
    assert [0x01 as byte, 0x03, 0x00, 0x00, 0x00] + [0x01] == [0x01, 0x03, 0x00, 0x00, 0x00, 0x01];
  }

  lemma HalvesOf0a84()
    ensures RegisterLow(0x0a84) == 0x84 && RegisterHigh(0x0a84) == 0x0a
  {}

  /** RTU: the checksum follows with its low byte first. */
  lemma KnownRtu()
    ensures Rtu.Encode(REQUEST) == [0x01, 0x03, 0x00, 0x00, 0x00, 0x01, 0x84, 0x0a]
  {
    KnownChecksum();
    HalvesOf0a84();
    assert [0x01 as byte, 0x03] + REQUEST.data == [0x01, 0x03, 0x00, 0x00, 0x00, 0x01];
  }

  /** TCP: transaction, protocol and length, high bytes first, and the length counts unit and code. */
  lemma KnownTcp()
    ensures Tcp.Encode(REQUEST.(transaction := Some(0x0102)), 0)
         == [0x01, 0x02, 0x00, 0x00, 0x00, 0x06, 0x01, 0x03, 0x00, 0x00, 0x00, 0x01]
  {
    assert ToBe(0x0102) == [0x01, 0x02] && ToBe(0x0006) == [0x00, 0x06];
  }

  lemma SumStep(s: seq<byte>, b: byte)
    ensures Ascii.Sum(s + [b]) == Ascii.Plus(Ascii.Sum(s), b)
  {
    assert (s + [b])[..|s|] == s;
  }

  lemma KnownLrc()
    ensures Ascii.Lrc([0x01, 0x03, 0x00, 0x00, 0x00, 0x01]) == 0xfb
  {
    SumStep([], 0x01);
    SumStep([0x01], 0x03);
    SumStep([0x01, 0x03], 0x00);
    SumStep([0x01, 0x03, 0x00], 0x00);
    SumStep([0x01, 0x03, 0x00, 0x00], 0x00);
    SumStep([0x01, 0x03, 0x00, 0x00, 0x00], 0x01);
    assert [] + [0x01 as byte] == [0x01];
    assert [0x01 as byte] + [0x03] == [0x01, 0x03];
    assert [0x01 as byte, 0x03] + [0x00] == [0x01, 0x03, 0x00];
    assert [0x01 as byte, 0x03, 0x00] + [0x00] == [0x01, 0x03, 0x00, 0x00];
    assert [0x01 as byte, 0x03, 0x00, 0x00] + [0x00] == [0x01, 0x03, 0x00, 0x00, 0x00];
    assert [0x01 as byte, 0x03, 0x00, 0x00, 0x00] + [0x01] == [0x01, 0x03, 0x00, 0x00, 0x00, 0x01];
  }

  lemma KnownBody()
    ensures Ascii.Body(REQUEST) == [0x01, 0x03, 0x00, 0x00, 0x00, 0x01, 0xfb]
  {
    KnownLrc();
    assert [0x01 as byte, 0x03] + REQUEST.data == [0x01, 0x03, 0x00, 0x00, 0x00, 0x01];
  }

  lemma HexOne(b: byte, rest: seq<byte>)
    ensures Ascii.Hex([b] + rest) == Ascii.HexPair(b) + Ascii.Hex(rest)
  {
    assert ([b] + rest)[1..] == rest;
  }

  lemma Pairs()
    ensures Ascii.HexPair(0x00) == [0x30, 0x30] && Ascii.HexPair(0x01) == [0x30, 0x31]
    ensures Ascii.HexPair(0x03) == [0x30, 0x33] && Ascii.HexPair(0xfb) == [0x46, 0x42]
  {}

  /** ASCII: ":010300000001FB" and the line end. */
  lemma KnownAscii()
    ensures Ascii.Encode(REQUEST)
         == [0x3a, 0x30, 0x31, 0x30, 0x33, 0x30, 0x30, 0x30, 0x30, 0x30, 0x30, 0x30, 0x31, 0x46, 0x42, 0x0d, 0x0a]
  {
    KnownBody();
    Pairs();
    HexOne(0xfb, []);
    HexOne(0x01, [0xfb]);
    HexOne(0x00, [0x01, 0xfb]);
    HexOne(0x00, [0x00, 0x01, 0xfb]);
    HexOne(0x00, [0x00, 0x00, 0x01, 0xfb]);
    HexOne(0x03, [0x00, 0x00, 0x00, 0x01, 0xfb]);
    HexOne(0x01, [0x03, 0x00, 0x00, 0x00, 0x01, 0xfb]);
    assert [0x03 as byte] + [0x00, 0x00, 0x00, 0x01, 0xfb] == [0x03, 0x00, 0x00, 0x00, 0x01, 0xfb];
    assert [0x01 as byte] + [0x03, 0x00, 0x00, 0x00, 0x01, 0xfb] == [0x01, 0x03, 0x00, 0x00, 0x00, 0x01, 0xfb];
  }

  // ---------------------------------------------------------------- coils and registers

  lemma KnownBytes()
    ensures ByteOfCoils([true, false, true, false, false, false, false, false]) == 0x05
    ensures ByteOfCoils([true, true]) == 0x03
  {
    var low, high := [true, false, true, false, false, false, false, false], [true, true];
    assert low[..7] == [true, false, true, false, false, false, false] && low[..7][..6] == low[..6];
    assert low[..6][..5] == low[..5] && low[..5][..4] == low[..4] && low[..4][..3] == low[..3];
    assert low[..3][..2] == [true, false] && low[..2][..1] == [true] && [true][..0] == [];
    assert ByteOfCoils(low[..1]) == 1 && ByteOfCoils(low[..2]) == 1 && ByteOfCoils(low[..3]) == 5;
    assert ByteOfCoils(low[..4]) == 5 && ByteOfCoils(low[..5]) == 5 && ByteOfCoils(low[..6]) == 5;
    assert high[..1] == [true] && ByteOfCoils(high[..1]) == 1;
  }

  /** Ten coils: the first in the lowest bit of the first byte. */
  lemma KnownCoils()
    ensures PackBits([true, false, true, false, false, false, false, false, true, true]) == [0x05, 0x03]
  {
    KnownBytes();
    var coils := [true, false, true, false, false, false, false, false, true, true];
    assert coils[..8] == [true, false, true, false, false, false, false, false] && coils[8..] == [true, true];
    assert Spell(ByteOfCoils, coils[8..]) == [0x03];
    assert PackBits(coils) == [0x05] + [0x03];
  }

  lemma KnownHalves()
    ensures RegisterHigh(0x0001) == 0x00 && RegisterLow(0x0001) == 0x01
    ensures RegisterHigh(0xabcd) == 0xab && RegisterLow(0xabcd) == 0xcd
  {}

  /** Two registers: high byte first. */
  lemma KnownRegisters()
    ensures PackWords([0x0001, 0xabcd]) == [0x00, 0x01, 0xab, 0xcd]
  {
    KnownHalves();
    var words: seq<bv16> := [0x0001, 0xabcd];
    assert words[1..] == [0xabcd] && words[1..][1..] == [];
    assert PackWords(words[1..]) == [0xab, 0xcd] + [];
    assert PackWords(words) == [0x00, 0x01] + PackWords(words[1..]);
  }

  // ---------------------------------------------------------------- requests

  predicate Builds(c: Command, fc: byte, data: seq<byte>)
    requires Buildable(c)
  {
    FcOf(c) == fc && RequestData(c) == data
  }

  /** The examples of chapter 6 of MODBUS Application Protocol V1.1b3. */
  lemma KnownReads()
    ensures Builds(ReadCoils(0x0013, 0x0013), 0x01, [0x00, 0x13, 0x00, 0x13])
    ensures Builds(ReadDiscreteInputs(0x00c4, 0x0016), 0x02, [0x00, 0xc4, 0x00, 0x16])
  {}

  lemma KnownRegisterReads()
    ensures Builds(ReadHoldingRegisters(0x006b, 0x0003), 0x03, [0x00, 0x6b, 0x00, 0x03])
    ensures Builds(ReadInputRegisters(0x0008, 0x0001), 0x04, [0x00, 0x08, 0x00, 0x01])
  {}

  lemma KnownWriteCoil()
    ensures Builds(WriteSingleCoil(0x00ac, true), 0x05, [0x00, 0xac, 0xff, 0x00])
    ensures Builds(WriteSingleCoil(0x00ac, false), 0x05, [0x00, 0xac, 0x00, 0x00])
  {}

  lemma KnownWriteRegister()
    ensures Builds(WriteSingleRegister(0x0001, 0x0003), 0x06, [0x00, 0x01, 0x00, 0x03])
  {}

  lemma KnownMaskWrite()
    ensures Builds(MaskWriteRegister(0x0004, 0x00f2, 0x0025), 0x16, [0x00, 0x04, 0x00, 0xf2, 0x00, 0x25])
  {}

  lemma KnownCoilBytes()
    ensures ByteOfCoils([true, false, true, true, false, false, true, true]) == 0xcd
    ensures ByteOfCoils([true, false]) == 0x01
  {
    var low, high := [true, false, true, true, false, false, true, true], [true, false];
    assert low[..7][..6] == low[..6] && low[..6][..5] == low[..5] && low[..5][..4] == low[..4];
    assert low[..4][..3] == low[..3] && low[..3][..2] == low[..2] && low[..2][..1] == [true] && [true][..0] == [];
    assert ByteOfCoils(low[..1]) == 0x01 && ByteOfCoils(low[..2]) == 0x01 && ByteOfCoils(low[..3]) == 0x05;
    assert ByteOfCoils(low[..4]) == 0x0d && ByteOfCoils(low[..5]) == 0x0d && ByteOfCoils(low[..6]) == 0x0d;
    assert ByteOfCoils(low[..7]) == 0x4d;
    assert high[..1] == [true] && ByteOfCoils(high[..1]) == 0x01;
  }

  const TEN := [true, false, true, true, false, false, true, true, true, false]

  lemma KnownTen()
    ensures PackBits(TEN) == [0xcd, 0x01]
  {
    KnownCoilBytes();
    assert TEN[..8] == [true, false, true, true, false, false, true, true] && TEN[8..] == [true, false];
    assert Spell(ByteOfCoils, TEN[8..]) == [0x01];
    assert PackBits(TEN) == [0xcd] + [0x01];
  }

  /** Two numbers, a byte count and the bytes counted. */
  lemma Layout(a: u16, n: u16, k: nat, bytes: seq<byte>, first: seq<byte>, second: seq<byte>, count: byte)
    requires ToBe(a) == first && ToBe(n) == second && CountByte(k) == count
    ensures ToBe(a) + ToBe(n) + Counted(k, bytes) == first + second + ([count] + bytes)
  {}

  lemma Numbers()
    ensures ToBe(1) == [0x00, 0x01] && ToBe(2) == [0x00, 0x02] && ToBe(3) == [0x00, 0x03]
    ensures ToBe(6) == [0x00, 0x06] && ToBe(10) == [0x00, 0x0a] && ToBe(14) == [0x00, 0x0e] && ToBe(0x13) == [0x00, 0x13]
    ensures CountByte(2) == 2 && CountByte(4) == 4 && CountByte(6) == 6
  {}

  lemma KnownWriteCoils()
    ensures Builds(WriteMultipleCoils(0x0013, TEN), 0x0f, [0x00, 0x13, 0x00, 0x0a, 0x02, 0xcd, 0x01])
  {
    KnownTen();
    Numbers();
    Layout(0x0013, 10, 2, [0xcd, 0x01], [0x00, 0x13], [0x00, 0x0a], 0x02);
  }

  lemma PackOne(w: bv16, rest: seq<bv16>)
    ensures PackWords([w] + rest) == [RegisterHigh(w), RegisterLow(w)] + PackWords(rest)
  {
    assert ([w] + rest)[1..] == rest;
  }

  lemma KnownWriteRegisters()
    ensures Builds(WriteMultipleRegisters(0x0001, [0x000a, 0x0102]), 0x10,
                   [0x00, 0x01, 0x00, 0x02, 0x04, 0x00, 0x0a, 0x01, 0x02])
  {
    PackOne(0x000a, [0x0102]);
    PackOne(0x0102, []);
    assert [0x0102 as bv16] + [] == [0x0102] && [0x000a as bv16] + [0x0102] == [0x000a, 0x0102];
    assert PackWords([0x000a, 0x0102]) == [0x00, 0x0a, 0x01, 0x02];
    Numbers();
    Layout(1, 2, 4, [0x00, 0x0a, 0x01, 0x02], [0x00, 0x01], [0x00, 0x02], 0x04);
  }

  lemma KnownThree()
    ensures PackWords([0x00ff, 0x00ff, 0x00ff]) == [0x00, 0xff, 0x00, 0xff, 0x00, 0xff]
  {
    PackOne(0x00ff, [0x00ff, 0x00ff]);
    PackOne(0x00ff, [0x00ff]);
    PackOne(0x00ff, []);
    assert [0x00ff as bv16] + [] == [0x00ff] && [0x00ff as bv16] + [0x00ff] == [0x00ff, 0x00ff];
    assert [0x00ff as bv16] + [0x00ff, 0x00ff] == [0x00ff, 0x00ff, 0x00ff];
  }

  lemma KnownReadWrite()
    ensures Builds(ReadWriteRegisters(0x0003, 0x0006, 0x000e, [0x00ff, 0x00ff, 0x00ff]), 0x17,
                   [0x00, 0x03, 0x00, 0x06, 0x00, 0x0e, 0x00, 0x03, 0x06, 0x00, 0xff, 0x00, 0xff, 0x00, 0xff])
  {
    KnownThree();
    Numbers();
  }

  /** Report Server ID: the count, the id, 0xff for running, and the rest. */
  lemma KnownServerId()
    ensures ServerId.Answer(0x01, ServerId.ServerId([0x01, 0x02, 0x03], true, [0xab, 0xcd]))
         == Some([0x06, 0x01, 0x02, 0x03, 0xff, 0xab, 0xcd])
    ensures ServerId.Answer(0x07, ServerId.ServerId([], false, [])) == Some([0x02, 0x07, 0x00])
  {
    Numbers();
    assert [0x01 as byte, 0x02, 0x03] + [0xff] + [0xab, 0xcd] == [0x01, 0x02, 0x03, 0xff, 0xab, 0xcd];
    assert [0x06 as byte] + [0x01, 0x02, 0x03, 0xff, 0xab, 0xcd] == [0x06, 0x01, 0x02, 0x03, 0xff, 0xab, 0xcd];
    assert [0x07 as byte] + [0x00] + [] == [0x07, 0x00] && [0x02 as byte] + [0x07, 0x00] == [0x02, 0x07, 0x00];
  }
}
