/** A request and its response between master and slave, the framing left aside; and the lengths an
    RTU receiver predicts for both. */
module Exchange {
  import opened Bytes
  import opened Adus
  import opened Packing
  import opened Pdu
  import opened Serving
  import P = RtuPredict
  import S = Session

  function RequestOf(transaction: Option<u16>, unit: byte, c: Command): Adu
    requires InLimit(c)
  {
    Adu(transaction, unit, FcOf(c), RequestData(c))
  }

  predicate ReadsCoils(c: Command) { c.ReadCoils? || c.ReadDiscreteInputs? }

  predicate ReadsRegisters(c: Command) { c.ReadHoldingRegisters? || c.ReadInputRegisters? || c.ReadWriteRegisters? }

  /** How many bytes the values read take. */
  function ValueBytes(c: Command): nat
    requires InLimit(c) && (ReadsCoils(c) || ReadsRegisters(c))
  {
    if ReadsCoils(c) then (c.length + 7) / 8 else 2 * c.length
  }

  function ResponseLength(c: Command): nat
    requires InLimit(c)
  {
    if ReadsCoils(c) || ReadsRegisters(c) then 1 + ValueBytes(c) else if c.MaskWriteRegister? then 6 else 4
  }

  /** What the master returns from a response that passed the checks. */
  function ReadFrom(c: Command, data: seq<byte>): Values
    requires InLimit(c) && |data| == ResponseLength(c)
  {
    if ReadsCoils(c) then Coils(ParseBits(data[1..], c.length))
    else if ReadsRegisters(c) then Registers(ParseWords(data[1..], c.length))
    else Nothing
  }

  function Reply(c: Command, s: Store): seq<byte>
    requires InLimit(c) && Whole(s)
  {
    ResponseData(c, Read(c, Written(c, s)), RequestData(c))
  }

  lemma CountedBack(bytes: seq<byte>)
    requires |bytes| < 256
    ensures Counted(|bytes|, bytes)[0] as nat == |bytes| && Counted(|bytes|, bytes)[1..] == bytes
  {
    CountByteFits(|bytes|);
  }

  /** Values, their bytes and the values read back from these. */
  lemma CoilsReply(v: seq<bool>)
    requires |v| <= 2000
    ensures var d := Counted((|v| + 7) / 8, PackBits(v));
      |d| == 1 + (|v| + 7) / 8 && d[0] as nat == (|v| + 7) / 8 && ParseBits(d[1..], |v|) == v
  {
    CoilsRoundTrip(v);
    CountedBack(PackBits(v));
  }

  lemma RegistersReply(v: seq<bv16>)
    requires |v| <= 125
    ensures var d := Counted(2 * |v|, PackWords(v));
      |d| == 1 + 2 * |v| && d[0] as nat == 2 * |v| && ParseWords(d[1..], |v|) == v
  {
    RegistersRoundTrip(v);
    CountedBack(PackWords(v));
  }

  predicate ValuesFit(c: Command, values: Values) {
    && (ReadsCoils(c) ==> values.Coils? && |values.coils| == c.length)
    && (ReadsRegisters(c) ==> values.Registers? && |values.registers| == c.length)
    && (!ReadsCoils(c) && !ReadsRegisters(c) ==> values.Nothing?)
  }

  lemma ReadFits(c: Command, s: Store)
    requires InLimit(c) && Whole(s)
    ensures ValuesFit(c, Read(c, Written(c, s)))
  {}

  lemma ReadReply(c: Command, values: Values, request: seq<byte>)
    requires InLimit(c) && (ReadsCoils(c) || ReadsRegisters(c)) && ValuesFit(c, values)
    ensures var d := ResponseData(c, values, request);
      |d| == ResponseLength(c) && d[0] as nat == ValueBytes(c) && ReadFrom(c, d) == values
  {
    if ReadsCoils(c) {
      CoilsReply(values.coils);
    } else {
      RegistersReply(values.registers);
    }
  }

  /** The reply to a read holds exactly the values read, after their byte count. */
  lemma ReplyToRead(c: Command, s: Store)
    requires InLimit(c) && Whole(s) && (ReadsCoils(c) || ReadsRegisters(c))
    ensures |Reply(c, s)| == ResponseLength(c) && Reply(c, s)[0] as nat == ValueBytes(c)
    ensures ReadFrom(c, Reply(c, s)) == Read(c, Written(c, s))
  {
    ReadFits(c, s);
    ReadReply(c, Read(c, Written(c, s)), RequestData(c));
  }

  lemma WriteLength(c: Command)
    requires c.WriteSingleCoil? || c.WriteSingleRegister? || c.MaskWriteRegister?
    ensures |RequestData(c)| == ResponseLength(c)
  {
    match c
    case WriteSingleCoil(a, on) => CoilUnderstood(a, on);
    case WriteSingleRegister(a, v) => RegisterUnderstood(a, v);
    case MaskWriteRegister(a, andMask, orMask) => MaskUnderstood(a, andMask, orMask);
  }

  lemma FirstFour(a: u16, n: u16, more: seq<byte>)
    ensures var d := ToBe(a) + ToBe(n) + more; |d| >= 4 && d[..4] == ToBe(a) + ToBe(n)
  {
    assert |ToBe(a)| == 2 && |ToBe(n)| == 2;
  }

  lemma MultipleReply(c: Command, n: u16, more: seq<byte>)
    requires c.WriteMultipleCoils? || c.WriteMultipleRegisters?
    requires InLimit(c) && n == (if c.WriteMultipleCoils? then |c.coils| else |c.values|)
    requires RequestData(c) == ToBe(c.address) + ToBe(n) + more
    ensures 4 <= |RequestData(c)| && ResponseData(c, Nothing, RequestData(c)) == RequestData(c)[..4]
  {
    FirstFour(c.address, n, more);
  }

  lemma WriteReply(c: Command)
    requires InLimit(c) && !ReadsCoils(c) && !ReadsRegisters(c)
    ensures ResponseLength(c) <= |RequestData(c)|
    ensures ResponseData(c, Nothing, RequestData(c)) == RequestData(c)[..ResponseLength(c)]
  {
    if c.WriteMultipleCoils? {
      MultipleReply(c, |c.coils|, Counted((|c.coils| + 7) / 8, PackBits(c.coils)));
    } else if c.WriteMultipleRegisters? {
      MultipleReply(c, |c.values|, Counted(2 * |c.values|, PackWords(c.values)));
    } else {
      WriteLength(c);
      var d := RequestData(c);
      assert d[..|d|] == d;
    }
  }

  /** The reply to a write is the request, or its first four bytes. */
  lemma ReplyToWrite(c: Command, s: Store)
    requires InLimit(c) && Whole(s) && !ReadsCoils(c) && !ReadsRegisters(c)
    ensures ResponseLength(c) <= |RequestData(c)| && Reply(c, s) == RequestData(c)[..ResponseLength(c)]
    ensures ReadFrom(c, Reply(c, s)) == Read(c, Written(c, s))
  {
    ReadFits(c, s);
    WriteReply(c);
  }

  // ---------------------------------------------------------------- the exchange

  lemma ThreeChecks(a: S.PreCheck, b: S.PreCheck, c: S.PreCheck, adu: Adu)
    requires S.Judge(a, adu) == S.Judge(b, adu) == S.Judge(c, adu) == S.Accept
    ensures S.Verdicts([a] + [b, c], adu) == S.Accept
  {
    var checks := [a] + [b, c];
    assert checks[1..] == [b, c] && checks[1..][1..] == [c] && checks[1..][1..][1..] == [];
    assert S.Verdicts([c], adu) == S.Accept;
    assert S.Verdicts([b, c], adu) == S.Accept;
  }

  lemma ReadAccepted(c: Command, adu: Adu)
    requires InLimit(c) && (ReadsCoils(c) || ReadsRegisters(c)) && adu.fc == FcOf(c)
    requires |adu.data| == ResponseLength(c) && adu.data[0] as nat == ValueBytes(c)
    ensures S.Verdicts(ResponseChecks(adu.unit, c), adu) == S.Accept
  {
    var n := ValueBytes(c);
    ThreeChecks(S.CheckUnitFc(adu.unit, FcOf(c)), S.CheckLength(1 + n), S.CheckByteCount(n), adu);
    assert ResponseChecks(adu.unit, c)
        == [S.CheckUnitFc(adu.unit, FcOf(c))] + [S.CheckLength(1 + n), S.CheckByteCount(n)];
  }

  lemma WriteAccepted(c: Command, adu: Adu)
    requires InLimit(c) && !ReadsCoils(c) && !ReadsRegisters(c) && adu.fc == FcOf(c)
    requires ResponseLength(c) <= |RequestData(c)| && adu.data == RequestData(c)[..ResponseLength(c)]
    ensures S.Verdicts(ResponseChecks(adu.unit, c), adu) == S.Accept
  {
    var n := ResponseLength(c);
    ThreeChecks(S.CheckUnitFc(adu.unit, FcOf(c)), S.CheckLength(n), S.CheckEcho(adu.data), adu);
    if !c.WriteMultipleCoils? && !c.WriteMultipleRegisters? {
      WriteLength(c);
      assert adu.data == RequestData(c);
    }
    assert ResponseChecks(adu.unit, c) == [S.CheckUnitFc(adu.unit, FcOf(c))] + [S.CheckLength(n), S.CheckEcho(adu.data)];
  }

  /** EXCHANGE. A command within the limits and the ranges is carried out exactly; its response passes
      every check of the master, and the master reads from it exactly what the tables held. */
  lemma CarriedOut(transaction: Option<u16>, unit: byte, c: Command, ranges: Ranges, s: Store)
    requires InLimit(c) && Whole(s) && Allowed(ranges, c)
    ensures var request := RequestOf(transaction, unit, c);
      && Serviceable(request)
      && var (response, t) := Serve(ranges, s, request);
         && t == Written(c, s)
         && response == Some(request.(data := Reply(c, s)))
         && S.Verdicts(ResponseChecks(unit, c), response.value) == S.Accept
         && |response.value.data| == ResponseLength(c)
         && ReadFrom(c, response.value.data) == Read(c, Written(c, s))
  {
    RequestUnderstood(c);
    var request := RequestOf(transaction, unit, c);
    var response := request.(data := Reply(c, s));
    assert Serve(ranges, s, request) == (Some(response), Written(c, s));
    if ReadsCoils(c) || ReadsRegisters(c) {
      ReplyToRead(c, s);
      ReadAccepted(c, response);
    } else {
      ReplyToWrite(c, s);
      WriteAccepted(c, response);
    }
  }

  lemma FunctionCodesAreLow(c: Command)
    ensures FcOf(c) | 0x80 != FcOf(c) && !P.IsException(FcOf(c))
  {}

  /** A command outside the ranges changes nothing, and the master rejects the answer. */
  lemma Refused(transaction: Option<u16>, unit: byte, c: Command, ranges: Ranges, s: Store)
    requires InLimit(c) && Whole(s) && !Allowed(ranges, c)
    ensures var request := RequestOf(transaction, unit, c);
      && Serviceable(request)
      && Serve(ranges, s, request) == (Some(Refusal(request, ILLEGAL_DATA_ADDRESS)), s)
      && S.Verdicts(ResponseChecks(unit, c), Refusal(request, ILLEGAL_DATA_ADDRESS)) == S.Reject(S.InvalidResponse)
  {
    RequestUnderstood(c);
    FunctionCodesAreLow(c);
    var refusal := Refusal(RequestOf(transaction, unit, c), ILLEGAL_DATA_ADDRESS);
    assert ResponseChecks(unit, c)[0] == S.CheckUnitFc(unit, FcOf(c));
    assert S.Judge(ResponseChecks(unit, c)[0], refusal) == S.Reject(S.InvalidResponse);
  }

  // ---------------------------------------------------------------- predicted lengths

  /** A frame with this code and these data, whatever its unit and its checksum. */
  predicate Frames(frame: seq<byte>, fc: byte, data: seq<byte>) {
    |frame| == |data| + 4 && frame[1] == fc && forall i :: 0 <= i < |data| ==> frame[i + 2] == data[i]
  }

  lemma PredictsFixed(frame: seq<byte>, isResponse: bool, n: nat)
    requires |frame| >= 2 && !(isResponse && P.IsException(frame[1]))
    requires P.FixedLength(frame[1], isResponse) == Some(n)
    ensures P.PredictFrameLength(frame, isResponse) == P.Length(n)
  {}

  /** Data that count themselves, from the byte after the count on. */
  lemma CountedPredicted(frame: seq<byte>, isResponse: bool, fc: byte, data: seq<byte>, at: nat)
    requires Frames(frame, fc, data) && |data| > at && data[at] as nat == |data| - at - 1
    requires !(isResponse && P.IsException(fc))
    requires P.FixedLength(fc, isResponse).None? && P.ByteCountAt(fc, isResponse) == Some((at + 2, at + 5))
    ensures P.PredictFrameLength(frame, isResponse) == P.Length(|frame|)
  {
    assert frame[at + 2] == data[at];
  }

  /** Where the byte count of a request is, and its value. */
  lemma RequestCount(c: Command)
    requires InLimit(c) && (c.WriteMultipleCoils? || c.WriteMultipleRegisters? || c.ReadWriteRegisters?)
    ensures var d, at := RequestData(c), if c.ReadWriteRegisters? then 8 else 4;
      |d| > at && d[at] as nat == |d| - at - 1
  {
    match c
    case WriteMultipleCoils(a, v) =>
      CoilsRoundTrip(v);
      ManyDataUnderstood(a, |v|, (|v| + 7) / 8, PackBits(v));
    case WriteMultipleRegisters(a, v) =>
      ManyDataUnderstood(a, |v|, 2 * |v|, PackWords(v));
    case ReadWriteRegisters(a, n, w, v) =>
      ReadWriteDataUnderstood(a, n, w, |v|, 2 * |v|, PackWords(v));
  }

  lemma FixedRequestPredicted(frame: seq<byte>, c: Command)
    requires InLimit(c) && !c.WriteMultipleCoils? && !c.WriteMultipleRegisters? && !c.ReadWriteRegisters?
    requires |frame| == (if c.MaskWriteRegister? then 10 else 8) && frame[1] == FcOf(c)
    ensures P.PredictFrameLength(frame, false) == P.Length(|frame|)
  {
    PredictsFixed(frame, false, |frame|);
  }

  lemma ShortRequest(c: Command)
    requires InLimit(c) && !c.WriteMultipleCoils? && !c.WriteMultipleRegisters? && !c.ReadWriteRegisters?
    ensures |RequestData(c)| == if c.MaskWriteRegister? then 6 else 4
  {
    if IsRead(c) {
      ReadDataUnderstood(c.address, c.length);
    } else {
      WriteLength(c);
    }
  }

  lemma CountedRequestPredicted(frame: seq<byte>, c: Command)
    requires InLimit(c) && (c.WriteMultipleCoils? || c.WriteMultipleRegisters? || c.ReadWriteRegisters?)
    requires Frames(frame, FcOf(c), RequestData(c))
    ensures P.PredictFrameLength(frame, false) == P.Length(|frame|)
  {
    RequestCount(c);
    CountedPredicted(frame, false, FcOf(c), RequestData(c), if c.ReadWriteRegisters? then 8 else 4);
  }

  /** EXACT. The RTU receiver of a slave measures every request a master builds right. */
  lemma RequestPredicted(frame: seq<byte>, c: Command)
    requires InLimit(c) && Frames(frame, FcOf(c), RequestData(c))
    ensures P.PredictFrameLength(frame, false) == P.Length(|frame|)
  {
    if c.WriteMultipleCoils? || c.WriteMultipleRegisters? || c.ReadWriteRegisters? {
      CountedRequestPredicted(frame, c);
    } else {
      ShortRequest(c);
      FixedRequestPredicted(frame, c);
    }
  }

  lemma FixedReplyPredicted(frame: seq<byte>, c: Command)
    requires !ReadsCoils(c) && !ReadsRegisters(c)
    requires |frame| == (if c.MaskWriteRegister? then 10 else 8) && frame[1] == FcOf(c)
    ensures P.PredictFrameLength(frame, true) == P.Length(|frame|)
  {
    FunctionCodesAreLow(c);
    PredictsFixed(frame, true, |frame|);
  }

  lemma CountedReplyPredicted(frame: seq<byte>, c: Command, data: seq<byte>)
    requires InLimit(c) && (ReadsCoils(c) || ReadsRegisters(c)) && Frames(frame, FcOf(c), data)
    requires |data| == ResponseLength(c) && data[0] as nat == ValueBytes(c)
    ensures P.PredictFrameLength(frame, true) == P.Length(|frame|)
  {
    FunctionCodesAreLow(c);
    CountedPredicted(frame, true, FcOf(c), data, 0);
  }

  /** EXACT. The RTU receiver of a master measures every reply to a command right. */
  lemma ReplyPredicted(frame: seq<byte>, c: Command, s: Store)
    requires InLimit(c) && Whole(s) && Frames(frame, FcOf(c), Reply(c, s))
    ensures P.PredictFrameLength(frame, true) == P.Length(|frame|)
  {
    var data := Reply(c, s);
    if ReadsCoils(c) || ReadsRegisters(c) {
      ReplyToRead(c, s);
      CountedReplyPredicted(frame, c, data);
    } else {
      ReplyToWrite(c, s);
      FixedReplyPredicted(frame, c);
    }
  }

  /** EXACT. And every refusal. */
  lemma RefusalPredicted(frame: seq<byte>, fc: byte, code: byte)
    requires Frames(frame, fc | 0x80, [code])
    ensures P.PredictFrameLength(frame, true) == P.Length(|frame|)
  {
    HighBitStays(fc);
  }

  lemma HighBitStays(fc: byte)
    ensures (fc | 0x80) & 0x80 != 0
  {}
}
