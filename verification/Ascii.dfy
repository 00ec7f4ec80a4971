/** ASCII framing: the reception automaton, the payload codec and the longitudinal check. Section
    2.5.2 of MODBUS over Serial Line V1.02. */
module Ascii {
  import opened Bytes
  import opened Adus

  const COLON: byte := 0x3a
  const CR: byte := 0x0d
  const LF: byte := 0x0a
  const MAX_ASCII_PAYLOAD: nat := 512

  // ---------------------------------------------------------------- hexadecimal characters

  /** The sixteen characters used to send. */
  function HexDigit(n: byte): byte {
    match n
    case 0 => 0x30
    case 1 => 0x31
    case 2 => 0x32
    case 3 => 0x33
    case 4 => 0x34
    case 5 => 0x35
    case 6 => 0x36
    case 7 => 0x37
    case 8 => 0x38
    case 9 => 0x39
    case 10 => 0x41
    case 11 => 0x42
    case 12 => 0x43
    case 13 => 0x44
    case 14 => 0x45
    case _ => 0x46
  }

  function HexValue(c: byte): Option<byte> {
    if 0x30 <= c <= 0x39 then Some(c - 0x30)
    else if 0x41 <= c <= 0x46 then Some(c - 0x41 + 10)
    else if 0x61 <= c <= 0x66 then Some(c - 0x61 + 10)
    else None
  }

  function HexDecodeByte(hi: byte, lo: byte): Option<byte> {
    if HexValue(hi).None? || HexValue(lo).None? then None
    else Some((HexValue(hi).value << 4) | HexValue(lo).value)
  }

  predicate IsHexChar(c: byte, lenient: bool) {
    0x30 <= c <= 0x39 || 0x41 <= c <= 0x46 || (lenient && 0x61 <= c <= 0x66)
  }

  predicate AllHex(s: seq<byte>, lenient: bool) {
    forall i :: 0 <= i < |s| ==> IsHexChar(s[i], lenient)
  }

  /** The capital of a lower-case hexadecimal letter, and any other character itself. */
  function Capital(c: byte): byte { if 0x61 <= c <= 0x66 then c - 0x20 else c }

  function Capitals(s: seq<byte>): (r: seq<byte>)
    ensures |r| == |s| && forall i :: 0 <= i < |s| ==> r[i] == Capital(s[i])
  {
    seq(|s|, i requires 0 <= i < |s| => Capital(s[i]))
  }

  lemma DigitsOfByte(b: byte)
    ensures HexDecodeByte(HexDigit(b >> 4), HexDigit(b & 0x0f)) == Some(b)
    ensures IsHexChar(HexDigit(b >> 4), false) && IsHexChar(HexDigit(b & 0x0f), false)
  {}

  lemma ByteOfDigits(hi: byte, lo: byte)
    requires IsHexChar(hi, true) && IsHexChar(lo, true)
    ensures HexDecodeByte(hi, lo).Some?
    ensures HexDigit(HexDecodeByte(hi, lo).value >> 4) == Capital(hi)
    ensures HexDigit(HexDecodeByte(hi, lo).value & 0x0f) == Capital(lo)
  {}

  lemma HexIsNotFraming(c: byte)
    requires IsHexChar(c, true)
    ensures c != COLON && c != CR && c != LF
  {}

  lemma HexValueIffChar(c: byte)
    ensures HexValue(c).Some? <==> IsHexChar(c, true)
  {}

  /** Two characters to a byte, the high half first. */
  function HexPair(b: byte): seq<byte> { [HexDigit(b >> 4), HexDigit(b & 0x0f)] }

  function Flat<A, B>(spell: A -> seq<B>, s: seq<A>): seq<B> {
    if s == [] then [] else spell(s[0]) + Flat(spell, s[1..])
  }

  function Hex(bytes: seq<byte>): seq<byte> { Flat(HexPair, bytes) }

  function Unpair<A, B>(read: (A, A) -> Option<B>, s: seq<A>): Option<seq<B>>
    requires |s| % 2 == 0
    decreases |s|
  {
    if s == [] then Some([])
    else if read(s[0], s[1]).None? then None
    else
      match Unpair(read, s[2..])
      case None => None
      case Some(rest) => Some([read(s[0], s[1]).value] + rest)
  }

  /** The bytes written by an even number of characters, unless one of them is not hexadecimal. */
  function Unhex(s: seq<byte>): Option<seq<byte>>
    requires |s| % 2 == 0
  {
    Unpair(HexDecodeByte, s)
  }

  lemma {:induction false} HexIsHex(bytes: seq<byte>)
    ensures |Hex(bytes)| == 2 * |bytes| && AllHex(Hex(bytes), false)
    ensures Unhex(Hex(bytes)) == Some(bytes)
  {
    if bytes != [] {
      var h, pair := Hex(bytes), HexPair(bytes[0]);
      HexIsHex(bytes[1..]);
      DigitsOfByte(bytes[0]);
      assert h == pair + Hex(bytes[1..]);
      assert h[2..] == Hex(bytes[1..]) && h[0] == pair[0] && h[1] == pair[1];
      assert [bytes[0]] + bytes[1..] == bytes;
    }
  }

  lemma FlatCons<A, B>(spell: A -> seq<B>, a: A, rest: seq<A>)
    ensures Flat(spell, [a] + rest) == spell(a) + Flat(spell, rest)
  {
    assert ([a] + rest)[1..] == rest;
  }

  lemma {:induction false} UnpairIsPair<A(!new), B>(
    read: (A, A) -> Option<B>, spell: B -> seq<A>, good: A -> bool, canon: A -> A, s: seq<A>, t: seq<A>)
    requires |s| % 2 == 0 && (forall i :: 0 <= i < |s| ==> good(s[i]))
    requires |t| == |s| && (forall i :: 0 <= i < |s| ==> t[i] == canon(s[i]))
    requires forall a, b :: good(a) && good(b) ==> read(a, b).Some? && spell(read(a, b).value) == [canon(a), canon(b)]
    ensures Unpair(read, s).Some? && Flat(spell, Unpair(read, s).value) == t
    decreases |s|
  {
    if s != [] {
      UnpairIsPair(read, spell, good, canon, s[2..], t[2..]);
      var b, rest := read(s[0], s[1]).value, Unpair(read, s[2..]).value;
      FlatCons(spell, b, rest);
      assert t == [t[0], t[1]] + t[2..];
    }
  }

  /** Hexadecimal characters always decode, and writing the result again gives their capitals. */
  lemma UnhexIsHex(s: seq<byte>)
    requires |s| % 2 == 0 && AllHex(s, true)
    ensures Unhex(s).Some? && Hex(Unhex(s).value) == Capitals(s)
  {
    forall a, b | IsHexChar(a, true) && IsHexChar(b, true)
      ensures HexDecodeByte(a, b).Some? && HexPair(HexDecodeByte(a, b).value) == [Capital(a), Capital(b)]
    {
      ByteOfDigits(a, b);
    }
    UnpairIsPair(HexDecodeByte, HexPair, c => IsHexChar(c, true), Capital, s, Capitals(s));
  }

  /** Only hexadecimal characters decode. */
  lemma {:induction false} UnhexNeedsHex(s: seq<byte>)
    requires |s| % 2 == 0 && Unhex(s).Some?
    ensures AllHex(s, true)
  {
    if s != [] {
      UnhexNeedsHex(s[2..]);
      HexValueIffChar(s[0]);
      HexValueIffChar(s[1]);
      forall i | 0 <= i < |s| ensures IsHexChar(s[i], true) {
        if i >= 2 {
          assert s[i] == s[2..][i - 2];
        }
      }
    }
  }

  // ---------------------------------------------------------------- the longitudinal check

  function Plus(x: byte, b: byte): byte { x + b }

  function Total<T>(add: (T, T) -> T, zero: T, data: seq<T>): T {
    if data == [] then zero else add(Total(add, zero, data[..|data| - 1]), data[|data| - 1])
  }

  /** The sum of the bytes, without carry. */
  function Sum(data: seq<byte>): byte { Total(Plus, 0, data) }

  function Lrc(data: seq<byte>): byte { 0 - Sum(data) }

  method ComputeLrc(data: seq<byte>) returns (lrc: byte)
    ensures lrc == Lrc(data)
  {
    var sum: byte := 0;
    for i := 0 to |data|
      invariant sum == Sum(data[..i])
    {
      assert data[..i + 1][..i] == data[..i];
      sum := Plus(sum, data[i]);
    }
    assert data[..|data|] == data;
    lrc := 0 - sum;
  }

  lemma Negation(sum: byte, b: byte)
    ensures b == 0 - sum <==> sum + b == 0
  {}

  /** A message ends in its check byte exactly when all its bytes add up to nothing. */
  lemma LrcMatchesIffZero(message: seq<byte>)
    requires message != []
    ensures message[|message| - 1] == Lrc(message[..|message| - 1]) <==> Sum(message) == 0
  {
    Negation(Sum(message[..|message| - 1]), message[|message| - 1]);
  }

  ghost predicate Cancels<T(!new)>(add: (T, T) -> T) {
    && (forall x, y, b :: add(x, b) == add(y, b) ==> x == y)
    && (forall x, b, c :: add(x, b) == add(x, c) ==> b == c)
  }

  lemma PlusCancels()
    ensures Cancels(Plus)
  {}

  lemma {:induction false} OneChangeChangesTotal<T(!new)>(add: (T, T) -> T, zero: T, f: seq<T>, g: seq<T>, k: nat)
    requires Cancels(add) && |f| == |g| && k < |f| && f[k] != g[k]
    requires forall i :: 0 <= i < |f| && i != k ==> f[i] == g[i]
    ensures Total(add, zero, f) != Total(add, zero, g)
  {
    var n := |f| - 1;
    if k == n {
      assert f[..n] == g[..n];
    } else {
      OneChangeChangesTotal(add, zero, f[..n], g[..n], k);
    }
  }

  /** Changing one byte of a message, its check byte included, always makes the check fail. */
  lemma OneByteDetected(f: seq<byte>, g: seq<byte>, k: nat)
    requires |f| == |g| && k < |f| && f[k] != g[k]
    requires forall i :: 0 <= i < |f| && i != k ==> f[i] == g[i]
    requires f[|f| - 1] == Lrc(f[..|f| - 1])
    ensures g[|g| - 1] != Lrc(g[..|g| - 1])
  {
    LrcMatchesIffZero(f);
    LrcMatchesIffZero(g);
    PlusCancels();
    OneChangeChangesTotal(Plus, 0, f, g, k);
  }

  // ---------------------------------------------------------------- the payload codec

  datatype Decoding = Delivered(adu: Adu, raw: seq<byte>) | Refused(error: FramingError)

  function Framed(payload: seq<byte>): seq<byte> { [COLON] + payload + [CR, LF] }

  function Body(adu: Adu): seq<byte> {
    var message := [adu.unit, adu.fc] + adu.data;
    message + [Lrc(message)]
  }

  function Encode(adu: Adu): seq<byte> { Framed(Hex(Body(adu))) }

  function DecodeBytes(bytes: seq<byte>, payload: seq<byte>): Decoding {
    var n := |bytes|;
    if n < 3 then Refused(InsufficientData)
    else if bytes[n - 1] != Lrc(bytes[..n - 1]) then Refused(LrcCheckFailed)
    else Delivered(Adu(None, bytes[0], bytes[1], bytes[2..n - 1]), Framed(payload))
  }

  function DecodePayload(payload: seq<byte>): Decoding {
    if |payload| % 2 != 0 then Refused(InvalidData)
    else
      match Unhex(payload)
      case None => Refused(InvalidHex)
      case Some(bytes) => DecodeBytes(bytes, payload)
  }

  function Decode(data: seq<byte>): Decoded {
    var n := |data|;
    if n < 10 then Err(InsufficientData)
    else if data[0] != COLON || data[n - 2] != CR || data[n - 1] != LF then Err(InvalidData)
    else
      match DecodePayload(data[1..n - 2])
      case Refused(e) => Err(e)
      case Delivered(adu, _) => Ok(adu)
  }

  lemma {:induction false} FlatStep<A, B>(spell: A -> seq<B>, s: seq<A>, i: nat)
    requires i < |s|
    ensures Flat(spell, s[..i + 1]) == Flat(spell, s[..i]) + spell(s[i])
    decreases i
  {
    if i == 0 {
      assert s[..1][1..] == [];
    } else {
      FlatStep(spell, s[1..], i - 1);
      assert s[..i + 1][1..] == s[1..][..i] && s[..i][1..] == s[1..][..i - 1];
    }
  }

  method PushHex(buf: seq<byte>) returns (frame: seq<byte>)
    ensures frame == Hex(buf)
  {
    frame := [];
    for i := 0 to |buf|
      invariant frame == Hex(buf[..i])
    {
      FlatStep(HexPair, buf, i);
      frame := frame + [HexDigit(buf[i] >> 4), HexDigit(buf[i] & 0x0f)];
    }
    assert buf[..|buf|] == buf;
  }

  method EncodeFrame(adu: Adu) returns (frame: seq<byte>)
    ensures frame == Encode(adu)
  {
    var buf := [adu.unit, adu.fc] + adu.data;
    var lrc := ComputeLrc(buf);
    buf := buf + [lrc];
    var pairs := PushHex(buf);
    frame := [COLON] + pairs + [CR, LF];
  }

  /** What decoding amounts to once the first characters have given `bytes`. */
  function Unhexed(bytes: seq<byte>, rest: Option<seq<byte>>): Option<seq<byte>> {
    match rest
    case None => None
    case Some(more) => Some(bytes + more)
  }

  lemma UnhexStep(s: seq<byte>, bytes: seq<byte>)
    requires |s| % 2 == 0 && s != []
    ensures var b := HexDecodeByte(s[0], s[1]);
      Unhexed(bytes, Unhex(s)) == if b.None? then None else Unhexed(bytes + [b.value], Unhex(s[2..]))
  {
    var b, rest := HexDecodeByte(s[0], s[1]), Unhex(s[2..]);
    if b.Some? && rest.Some? {
      assert bytes + ([b.value] + rest.value) == (bytes + [b.value]) + rest.value;
    }
  }

  method DecodeFrame(payload: seq<byte>) returns (d: Decoding)
    ensures d == DecodePayload(payload)
  {
    if |payload| % 2 != 0 {
      return Refused(InvalidData);
    }
    var bytes: seq<byte> := [];
    var i := 0;
    assert payload[0..] == payload;
    assert Unhex(payload).Some? ==> [] + Unhex(payload).value == Unhex(payload).value;
    while i < |payload|
      invariant 0 <= i <= |payload| && i % 2 == 0
      invariant Unhexed(bytes, Unhex(payload[i..])) == Unhex(payload)
    {
      UnhexStep(payload[i..], bytes);
      assert payload[i..][2..] == payload[i + 2..];
      var b := HexDecodeByte(payload[i], payload[i + 1]);
      if b.None? {
        return Refused(InvalidHex);
      }
      bytes := bytes + [b.value];
      i := i + 2;
    }
    assert payload[i..] == [] && bytes + [] == bytes;
    d := DecodeBytes(bytes, payload);
  }

  lemma BodyDecodes(adu: Adu, payload: seq<byte>)
    ensures |Body(adu)| == |adu.data| + 3
    ensures DecodeBytes(Body(adu), payload) == Delivered(adu.(transaction := None), Framed(payload))
  {
    var message := [adu.unit, adu.fc] + adu.data;
    var body := Body(adu);
    assert body[..|body| - 1] == message;
    assert body[2..|body| - 1] == adu.data;
  }

  lemma EncodeDelivered(adu: Adu)
    ensures DecodePayload(Hex(Body(adu))) == Delivered(adu.(transaction := None), Encode(adu))
  {
    HexIsHex(Body(adu));
    BodyDecodes(adu, Hex(Body(adu)));
  }

  /** Stand-alone decoding undoes encoding except on a unit without data, which is refused for its
      length alone. */
  lemma DecodeEncode(adu: Adu)
    ensures Decode(Encode(adu)) == if adu.data == [] then Err(InsufficientData) else Ok(adu.(transaction := None))
  {
    var payload := Hex(Body(adu));
    EncodeDelivered(adu);
    HexIsHex(Body(adu));
    assert Encode(adu)[1..|Encode(adu)| - 2] == payload;
  }

  /** A payload is delivered with the frame it came in, which is the encoding of the unit up to
      the case of its letters. */
  lemma DeliveredIsEncoding(payload: seq<byte>)
    requires DecodePayload(payload).Delivered?
    ensures DecodePayload(payload).raw == Framed(payload)
    ensures Encode(DecodePayload(payload).adu) == Framed(Capitals(payload))
  {
    var bytes := Unhex(payload).value;
    UnhexNeedsHex(payload);
    UnhexIsHex(payload);
    var n := |bytes|;
    var adu := DecodePayload(payload).adu;
    assert [adu.unit, adu.fc] + adu.data == bytes[..n - 1];
    assert Body(adu) == bytes;
  }

  lemma DecodedIsEncoding(data: seq<byte>)
    requires Decode(data).Ok?
    ensures Encode(Decode(data).adu) == Capitals(data)
  {
    var payload := data[1..|data| - 2];
    DeliveredIsEncoding(payload);
    assert data == Framed(payload);
    assert Capitals(data) == Framed(Capitals(payload));
  }
}
