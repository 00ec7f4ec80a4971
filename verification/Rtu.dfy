/** RTU frames: encoding, decoding, and the stream theorems for the real checksum. */
module Rtu {
  import opened Bytes
  import opened Adus
  import opened Streams
  import opened Crc
  import opened RtuPredict
  import opened RtuFramer
  import opened RtuStream
  import opened RtuFragments

  /** Unit, function code, data, and the checksum with its low byte first. */
  function Encode(adu: Adu): seq<byte> { Signed([adu.unit, adu.fc] + adu.data) }

  function Signed(body: seq<byte>): seq<byte> {
    var c := Crc16(body);
    body + [RegisterLow(c), RegisterHigh(c)]
  }

  function AduOf(frame: seq<byte>): Adu
    requires |frame| >= MIN_FRAME_LENGTH
  {
    Adu(None, frame[0], frame[1], frame[2..|frame| - 2])
  }

  function Decode(data: seq<byte>): Decoded {
    if |data| < MIN_FRAME_LENGTH then Err(InsufficientData)
    else if !Passes(data) then Err(CrcCheckFailed)
    else Ok(AduOf(data))
  }

  /** The buffer filled in place. */
  method EncodeFrame(adu: Adu) returns (buf: array<byte>)
    ensures fresh(buf) && buf[..] == Encode(adu)
  {
    var payload := |adu.data| + 2;
    buf := new byte[payload + 2](_ => 0);
    buf[0], buf[1] := adu.unit, adu.fc;
    forall i | 0 <= i < |adu.data| {
      buf[2 + i] := adu.data[i];
    }
    assert buf[..payload] == [adu.unit, adu.fc] + adu.data;
    var c := CrcWithSeed(buf[..payload], 0xffff);
    buf[payload], buf[payload + 1] := RegisterLow(c), RegisterHigh(c);
    assert buf[..payload] == [adu.unit, adu.fc] + adu.data;
    assert buf[..] == buf[..payload] + [RegisterLow(c), RegisterHigh(c)];
  }

  lemma SignedPasses(body: seq<byte>)
    ensures Passes(Signed(body)) && Signed(body)[..|body|] == body && |Signed(body)| == |body| + 2
  {
    RegisterRoundTrip(Crc16(body), 0, 0);
  }

  /** A string that passes the check ends in the checksum of the rest. */
  lemma PassesIsSigned(f: seq<byte>)
    requires |f| >= 2 && Passes(f)
    ensures Signed(f[..|f| - 2]) == f
  {
    var n := |f| - 2;
    RegisterRoundTrip(0, f[n + 1], f[n]);
    assert f == f[..n] + [f[n], f[n + 1]];
  }

  /** Decoding what was encoded. RTU carries no transaction. */
  lemma DecodeEncode(adu: Adu)
    ensures Decode(Encode(adu)) == Ok(adu.(transaction := None))
    ensures Passes(Encode(adu)) && |Encode(adu)| == |adu.data| + 4
  {
    var body := [adu.unit, adu.fc] + adu.data;
    SignedPasses(body);
    assert Encode(adu)[2..|body|] == body[2..] == adu.data;
    assert Encode(adu)[0] == body[0] && Encode(adu)[1] == body[1];
  }

  /** Encoding what was decoded: what decodes is exactly the encodings. */
  lemma EncodeDecode(f: seq<byte>)
    ensures Decode(f).Ok? <==> |f| >= MIN_FRAME_LENGTH && Passes(f)
    ensures Decode(f).Ok? ==> Encode(Decode(f).adu) == f
  {
    if Decode(f).Ok? {
      PassesIsSigned(f);
      assert [f[0], f[1]] + f[2..|f| - 2] == f[..|f| - 2];
    }
  }

  // ---------------------------------------------------------------- what a receiver emits

  function Receiver(isResponse: bool, custom: map<byte, CustomFc>): Env { Env(isResponse, custom, Passes) }

  /** `raw == encode(adu)` */
  predicate IsEncoding(raw: seq<byte>) { |raw| >= MIN_FRAME_LENGTH && Encode(AduOf(raw)) == raw }

  lemma ReceiverYieldsEncodings(isResponse: bool, custom: map<byte, CustomFc>)
    ensures Sound(ExtractorOf(Receiver(isResponse, custom)))
    ensures Yields(ExtractorOf(Receiver(isResponse, custom)), IsEncoding)
  {
    var env := Receiver(isResponse, custom);
    ExtractorIsSound(env);
    forall b | TryExtract(env, b).Frame? && TryExtract(env, b).length <= |b|
      ensures IsEncoding(b[..TryExtract(env, b).length])
    {
      EncodeDecode(b[..TryExtract(env, b).length]);
    }
  }

  /** Whatever arrives, in whatever state, with whatever predictors registered: every frame emitted
      is 4 to 256 bytes long and is the encoding of the unit sent on with it, and frames, discarded
      bytes and what is held are, in order, the bytes received. */
  lemma EmittedIsEncoding(
    isResponse: bool, custom: map<byte, CustomFc>, strict: bool, t15: bool, b: seq<byte>, data: seq<byte>)
    requires |b| <= POOL_SIZE
    ensures Sound(ExtractorOf(Receiver(isResponse, custom)))
    ensures var o := DataEvent(ExtractorOf(Receiver(isResponse, custom)), strict, t15, b, data);
      AllChecked(IsEncoding, o.events) && AllBytes(o) == b + data && |o.rest| < MAX_FRAME_LENGTH
  {
    var extract := ExtractorOf(Receiver(isResponse, custom));
    ReceiverYieldsEncodings(isResponse, custom);
    DataEventEmitsChecked(extract, IsEncoding, strict, t15, b, data);
    DataEventConserves(extract, strict, t15, b, data);
  }

  // ---------------------------------------------------------------- units in, units out

  /** A unit whose frame the built-in predictor measures right. */
  predicate Predictable(isResponse: bool, custom: map<byte, CustomFc>, adu: Adu) {
    && adu.fc !in custom && |adu.data| + 4 <= MAX_FRAME_LENGTH
    && PredictFrameLength(Encode(adu), isResponse) == Length(|adu.data| + 4)
  }

  function EncodeAll(adus: seq<Adu>): (frames: seq<seq<byte>>)
    ensures |frames| == |adus|
  {
    seq(|adus|, i requires 0 <= i < |adus| => Encode(adus[i]))
  }

  lemma EncodingIsRecognised(isResponse: bool, custom: map<byte, CustomFc>, adu: Adu)
    requires Predictable(isResponse, custom, adu)
    ensures Recognised(ExtractorOf(Receiver(isResponse, custom)), Encode(adu))
  {
    DecodeEncode(adu);
    assert Encode(adu)[1] == adu.fc;
    BuiltInIsRecognised(Receiver(isResponse, custom), Encode(adu));
  }

  /** Units encoded one after the other and cut anyhow are emitted as their encodings, in order. */
  lemma UnitsSurviveCutting(
    isResponse: bool, custom: map<byte, CustomFc>, adus: seq<Adu>, next: Adu, part: seq<byte>, chunks: seq<seq<byte>>)
    requires forall a :: a in adus + [next] ==> Predictable(isResponse, custom, a)
    requires part < Encode(next) && Concat(chunks) == Concat(EncodeAll(adus)) + part
    ensures Sound(ExtractorOf(Receiver(isResponse, custom)))
    ensures NetRun(ExtractorOf(Receiver(isResponse, custom)), [], chunks) == Outcome(Emits(EncodeAll(adus)), part, false)
  {
    ReceiverYieldsEncodings(isResponse, custom);
    var extract := ExtractorOf(Receiver(isResponse, custom));
    var frames := EncodeAll(adus);
    forall i | 0 <= i < |frames + [Encode(next)]| ensures Recognised(extract, (frames + [Encode(next)])[i]) {
      var a := if i < |adus| then adus[i] else next;
      assert a in adus + [next];
      EncodingIsRecognised(isResponse, custom, a);
    }
    AnyCutting(extract, frames, Encode(next), part, chunks);
  }

  /** A frame damaged in one byte or in two adjacent bytes is not taken for a frame of its length. */
  lemma DamageIsRefused(env: Env, adu: Adu, damaged: seq<byte>, more: seq<byte>, k: nat)
    requires env.passes == Passes && |damaged| == |Encode(adu)| && damaged != Encode(adu)
    requires forall i :: 0 <= i < |damaged| && i != k && i != k + 1 ==> damaged[i] == Encode(adu)[i]
    ensures CheckExpected(env, damaged + more, |damaged|) in {Skip, Invalid}
  {
    DecodeEncode(adu);
    AdjacentBytesDetected(Encode(adu), damaged, k);
    assert (damaged + more)[..|damaged|] == damaged;
  }
}
