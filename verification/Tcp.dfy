/** TCP framing: the seven-byte header and the receive side. Section 3.1.3 of the MODBUS Messaging
    on TCP/IP Implementation Guide V1.0b. */
module Tcp {
  import opened Bytes
  import opened Adus

  const MAX_TCP_FRAME: nat := 260
  const MIN_TCP_FRAME: nat := 8

  // ---------------------------------------------------------------- one unit

  /** Transaction, protocol 0, the length of what follows, the unit, the code, the data. */
  function Assemble(transaction: seq<byte>, length: seq<byte>, unit: byte, fc: byte, data: seq<byte>): seq<byte> {
    transaction + [0, 0] + length + [unit, fc] + data
  }

  /** The length is cast to 16 bits; `counter` stands in for a transaction the caller did not give. */
  function Encode(adu: Adu, counter: u16): seq<byte> {
    var transaction := if adu.transaction.Some? then adu.transaction.value else counter;
    Assemble(ToBe(transaction), ToBe((|adu.data| + 2) % 0x1_0000), adu.unit, adu.fc, adu.data)
  }

  function LengthField(b: seq<byte>): u16
    requires |b| >= MIN_TCP_FRAME
  {
    FromBe(b[4], b[5])
  }

  function AduOf(b: seq<byte>): Adu
    requires |b| >= MIN_TCP_FRAME
  {
    Adu(Some(FromBe(b[0], b[1])), b[6], b[7], b[8..])
  }

  function Decode(b: seq<byte>): Decoded {
    if |b| < MIN_TCP_FRAME then Err(InsufficientData)
    else if b[2] != 0 || b[3] != 0 then Err(InvalidData)
    else if LengthField(b) + 6 != |b| then Err(InvalidData)
    else Ok(AduOf(b))
  }

  method Fill(transaction: seq<byte>, length: seq<byte>, unit: byte, fc: byte, data: seq<byte>) returns (buf: array<byte>)
    requires |transaction| == 2 && |length| == 2
    ensures fresh(buf) && buf[..] == Assemble(transaction, length, unit, fc, data)
  {
    buf := new byte[|data| + 8](_ => 0);
    buf[0], buf[1] := transaction[0], transaction[1];
    buf[2], buf[3] := 0, 0;
    buf[4], buf[5] := length[0], length[1];
    buf[6], buf[7] := unit, fc;
    forall i | 0 <= i < |data| {
      buf[8 + i] := data[i];
    }
  }

  /** The buffer filled in place. */
  method EncodeFrame(adu: Adu, counter: u16) returns (buf: array<byte>)
    ensures fresh(buf) && buf[..] == Encode(adu, counter)
  {
    var transaction := if adu.transaction.Some? then adu.transaction.value else counter;
    buf := Fill(ToBe(transaction), ToBe((|adu.data| + 2) % 0x1_0000), adu.unit, adu.fc, adu.data);
  }

  lemma AssembleParts(t: seq<byte>, l: seq<byte>, unit: byte, fc: byte, data: seq<byte>)
    requires |t| == 2 && |l| == 2
    ensures var b := Assemble(t, l, unit, fc, data);
      && |b| == |data| + 8 && b[0] == t[0] && b[1] == t[1] && b[2] == 0 && b[3] == 0 && b[4] == l[0] && b[5] == l[1]
      && b[6] == unit && b[7] == fc && b[8..] == data
  {}

  lemma AssembleBytes(b: seq<byte>)
    requires |b| >= MIN_TCP_FRAME && b[2] == 0 && b[3] == 0
    ensures Assemble([b[0], b[1]], [b[4], b[5]], b[6], b[7], b[8..]) == b
  {}

  lemma EncodeParts(adu: Adu, counter: u16)
    ensures var b := Encode(adu, counter);
      && |b| == |adu.data| + 8 && b[2] == 0 && b[3] == 0
      && LengthField(b) == (|adu.data| + 2) % 0x1_0000
      && AduOf(b) == adu.(transaction := Some(if adu.transaction.Some? then adu.transaction.value else counter))
  {
    var transaction: u16 := if adu.transaction.Some? then adu.transaction.value else counter;
    var length: u16 := (|adu.data| + 2) % 0x1_0000;
    FromToBe(transaction);
    FromToBe(length);
    AssembleParts(ToBe(transaction), ToBe(length), adu.unit, adu.fc, adu.data);
  }

  /** Decoding undoes encoding exactly as long as the length fits its 16 bits. */
  lemma DecodeEncode(adu: Adu, counter: u16)
    requires adu.transaction.Some?
    ensures Decode(Encode(adu, counter)) == if |adu.data| + 2 < 0x1_0000 then Ok(adu) else Err(InvalidData)
  {
    EncodeParts(adu, counter);
    DecodeParts(Encode(adu, counter), adu);
  }

  lemma DecodeParts(b: seq<byte>, adu: Adu)
    requires |b| == |adu.data| + 8 && b[2] == 0 && b[3] == 0
    requires LengthField(b) == (|adu.data| + 2) % 0x1_0000 && AduOf(b) == adu
    ensures Decode(b) == if |adu.data| + 2 < 0x1_0000 then Ok(adu) else Err(InvalidData)
  {
    assert |adu.data| + 2 < 0x1_0000 <==> (|adu.data| + 2) % 0x1_0000 == |adu.data| + 2;
  }

  /** What decodes is exactly the encodings. */
  lemma EncodeDecode(b: seq<byte>, counter: u16)
    requires Decode(b).Ok?
    ensures Encode(Decode(b).adu, counter) == b
  {
    ToBeOfBytes(b[0], b[1]);
    ToBeOfBytes(b[4], b[5]);
    SameEncoding(AduOf(b), counter, FromBe(b[0], b[1]), LengthField(b), [b[0], b[1]], [b[4], b[5]]);
    AssembleBytes(b);
  }

  lemma SameEncoding(adu: Adu, counter: u16, transaction: u16, length: u16, t: seq<byte>, l: seq<byte>)
    requires adu.transaction == Some(transaction) && (|adu.data| + 2) % 0x1_0000 == length
    requires ToBe(transaction) == t && ToBe(length) == l
    ensures Encode(adu, counter) == Assemble(t, l, adu.unit, adu.fc, adu.data)
  {}

  lemma ToBeOfBytes(high: byte, low: byte)
    ensures ToBe(FromBe(high, low)) == [high, low]
  {
    ToFromBe(high, low);
  }

  // ---------------------------------------------------------------- the receive side

  datatype Extract = Frame(total: nat) | Insufficient | Invalid

  type Extractor = seq<byte> -> Extract

  function TryExtractFrame(b: seq<byte>): Extract {
    if |b| < MIN_TCP_FRAME then Insufficient
    else if b[2] != 0 || b[3] != 0 then Invalid
    else Decide(LengthField(b), |b|)
  }

  /** The verdict on `size` bytes whose header is well formed and announces `length`. */
  function Decide(length: u16, size: nat): Extract {
    var total := 6 + length;
    if total > MAX_TCP_FRAME || length < 2 then Invalid
    else if size < total then Insufficient
    else Frame(total)
  }

  predicate IsEncoding(frame: seq<byte>, counter: u16) {
    MIN_TCP_FRAME <= |frame| <= MAX_TCP_FRAME && Encode(AduOf(frame), counter) == frame
  }

  /** What is extracted is the encoding of a unit. */
  lemma ExtractedIsEncoding(b: seq<byte>, counter: u16)
    requires TryExtractFrame(b).Frame?
    ensures MIN_TCP_FRAME <= TryExtractFrame(b).total <= |b|
    ensures IsEncoding(b[..TryExtractFrame(b).total], counter)
  {
    var f := b[..TryExtractFrame(b).total];
    assert Decode(f) == Ok(AduOf(f));
    EncodeDecode(f, counter);
  }

  /** Fewer bytes than the longest frame wait for more. */
  lemma WaitingIsShort(b: seq<byte>)
    requires TryExtractFrame(b) == Insufficient
    ensures |b| < MAX_TCP_FRAME
  {}

  lemma SameHeader(b: seq<byte>, more: seq<byte>)
    requires |b| >= MIN_TCP_FRAME
    ensures LengthField(b + more) == LengthField(b)
  {}

  /** A unit is taken whole out of any buffer that begins with its encoding exactly if it has at most
      252 data bytes. */
  lemma EncodingIsExtracted(adu: Adu, counter: u16, more: seq<byte>)
    ensures TryExtractFrame(Encode(adu, counter) + more) == Frame(|adu.data| + 8) <==> |adu.data| <= 252
  {
    EncodeParts(adu, counter);
    ExtractParts(Encode(adu, counter), |adu.data|, more);
  }

  lemma ExtractParts(b: seq<byte>, n: nat, more: seq<byte>)
    requires |b| == n + 8 && b[2] == 0 && b[3] == 0 && LengthField(b) == (n + 2) % 0x1_0000
    ensures TryExtractFrame(b + more) == Frame(n + 8) <==> n <= 252
  {
    SameHeader(b, more);
    DecideLength(n, |b + more|);
  }

  lemma DecideLength(n: nat, size: nat)
    ensures size >= n + 8 ==> (Decide((n + 2) % 0x1_0000, size) == Frame(n + 8) <==> n <= 252)
    ensures size < n + 8 && n <= 252 ==> Decide((n + 2) % 0x1_0000, size) == Insufficient
  {}

  lemma ExtractPart(b: seq<byte>, n: nat, k: nat)
    requires |b| == n + 8 && b[2] == 0 && b[3] == 0 && LengthField(b) == (n + 2) % 0x1_0000
    requires n <= 252 && k < |b|
    ensures TryExtractFrame(b[..k]) == Insufficient
  {
    if k >= MIN_TCP_FRAME {
      SameHeader(b[..k], b[k..]);
      assert b[..k] + b[k..] == b;
      DecideLength(n, k);
    }
  }

  /** No proper part of such an encoding decides anything. */
  lemma PartDecidesNothing(adu: Adu, counter: u16, k: nat)
    requires |adu.data| <= 252 && k < |Encode(adu, counter)|
    ensures TryExtractFrame(Encode(adu, counter)[..k]) == Insufficient
  {
    EncodeParts(adu, counter);
    ExtractPart(Encode(adu, counter), |adu.data|, k);
  }
}
