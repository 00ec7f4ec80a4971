/** From the master's command to the slave's tables and back, through every framing and any cutting
    of the byte streams. */
module EndToEnd {
  import opened Bytes
  import opened Adus
  import opened Streams
  import opened Pdu
  import opened Serving
  import opened Exchange
  import B = Dispatch
  import S = Session
  import F = RtuFramer
  import RtuFragments
  import RtuLine
  import Rtu
  import Ascii
  import AsciiStream
  import Tcp
  import TcpStream
  import D = DeviceIdWire
  import DeviceId
  import DeviceObjects
  import I = ServerId

  /** RTU on a network or on a serial line, with the function codes registered at the receiver; ASCII,
      strict or lenient; and TCP. */
  datatype Framing =
    | RtuNet(custom: map<byte, F.CustomFc>)
    | RtuSerial(custom: map<byte, F.CustomFc>)
    | AsciiLine(lenient: bool)
    | TcpNet

  /** The bytes of a unit. */
  function Wire(f: Framing, adu: Adu): seq<byte> {
    match f
    case RtuNet(_) => Rtu.Encode(adu)
    case RtuSerial(_) => Rtu.Encode(adu)
    case AsciiLine(_) => Ascii.Encode(adu)
    case TcpNet => Tcp.Encode(adu, 0)
  }

  /** The chunks, received from an idle connection and on a serial line followed by a silence, bring
      exactly one unit, with no error and nothing held back. */
  ghost predicate Brings(f: Framing, isResponse: bool, chunks: seq<seq<byte>>, adu: Adu) {
    match f
    case RtuNet(custom) =>
      var extract := F.ExtractorOf(Rtu.Receiver(isResponse, custom));
      exists raw :: F.Sound(extract) && |raw| >= F.MIN_FRAME_LENGTH && Rtu.AduOf(raw) == adu
                 && RtuFragments.NetRun(extract, [], chunks) == F.Outcome([Emit(raw)], [], false)
    case RtuSerial(custom) =>
      var extract := F.ExtractorOf(Rtu.Receiver(isResponse, custom));
      exists raw :: F.Sound(extract) && |raw| >= F.MIN_FRAME_LENGTH && Rtu.AduOf(raw) == adu
                 && RtuLine.Transmission(extract, [], chunks) == F.Outcome([Emit(raw)], [], false)
    case AsciiLine(lenient) =>
      var r := AsciiStream.DriveAll(lenient, AsciiStream.IDLE, chunks);
      && r.0 == AsciiStream.IDLE
      && (exists raw :: AsciiStream.Frames(r.1) == [AsciiStream.Frame(adu, raw)])
      && forall e :: AsciiStream.Count(r.1, e) == 0
    case TcpNet =>
      exists raw :: TcpStream.Sound(Tcp.TryExtractFrame) && |raw| >= Tcp.MIN_TCP_FRAME && Tcp.AduOf(raw) == adu
                 && TcpStream.Run(Tcp.TryExtractFrame, [], chunks) == TcpStream.Received([Emit(raw)], [])
  }

  /** What a framing needs of a unit to carry it. */
  predicate Carriable(f: Framing, isResponse: bool, adu: Adu) {
    && |adu.data| <= 252
    && (f.TcpNet? <==> adu.transaction.Some?)
    && (f.RtuNet? || f.RtuSerial? ==> Rtu.Predictable(isResponse, f.custom, adu))
  }

  lemma RtuNetCarries(isResponse: bool, custom: map<byte, F.CustomFc>, adu: Adu, chunks: seq<seq<byte>>)
    requires Carriable(RtuNet(custom), isResponse, adu) && Concat(chunks) == Rtu.Encode(adu)
    ensures Brings(RtuNet(custom), isResponse, chunks, adu)
  {
    var extract := F.ExtractorOf(Rtu.Receiver(isResponse, custom));
    var raw := Rtu.Encode(adu);
    Rtu.DecodeEncode(adu);
    Rtu.ReceiverYieldsEncodings(isResponse, custom);
    Rtu.EncodingIsRecognised(isResponse, custom, adu);
    RtuFragments.OneFrameAnyCutting(extract, raw, chunks);
    assert Rtu.AduOf(raw) == adu && |raw| >= F.MIN_FRAME_LENGTH;
  }

  lemma RtuSerialCarries(isResponse: bool, custom: map<byte, F.CustomFc>, adu: Adu, chunks: seq<seq<byte>>)
    requires Carriable(RtuSerial(custom), isResponse, adu) && Concat(chunks) == Rtu.Encode(adu)
    ensures Brings(RtuSerial(custom), isResponse, chunks, adu)
  {
    var extract := F.ExtractorOf(Rtu.Receiver(isResponse, custom));
    var raw := Rtu.Encode(adu);
    Rtu.DecodeEncode(adu);
    Rtu.ReceiverYieldsEncodings(isResponse, custom);
    Rtu.EncodingIsRecognised(isResponse, custom, adu);
    assert [] + Concat(chunks) == raw;
    RtuLine.FrameThenSilence(extract, raw, [], chunks);
    assert Rtu.AduOf(raw) == adu && |raw| >= F.MIN_FRAME_LENGTH;
  }

  lemma AsciiCarries(isResponse: bool, lenient: bool, adu: Adu, chunks: seq<seq<byte>>)
    requires Carriable(AsciiLine(lenient), isResponse, adu) && Concat(chunks) == Ascii.Encode(adu)
    ensures Brings(AsciiLine(lenient), isResponse, chunks, adu)
  {
    var r := AsciiStream.DriveAll(lenient, AsciiStream.IDLE, chunks);
    AsciiStream.EncodingIsDelivered(lenient, AsciiStream.IDLE, adu);
    forall e ensures r.0 == AsciiStream.IDLE && AsciiStream.Count(r.1, e) == 0
                  && AsciiStream.Frames(r.1) == [AsciiStream.Frame(adu, Ascii.Encode(adu))]
    {
      AsciiStream.AnyCutting(lenient, AsciiStream.IDLE, chunks, e);
      OneReport(AsciiStream.Frame(adu, Ascii.Encode(adu)), e);
    }
    AsciiStream.AnyCutting(lenient, AsciiStream.IDLE, chunks, InvalidData);
    OneReport(AsciiStream.Frame(adu, Ascii.Encode(adu)), InvalidData);
  }

  lemma OneReport(event: AsciiStream.Event, e: FramingError)
    requires event.Frame?
    ensures AsciiStream.Frames([event]) == [event] && AsciiStream.Count([event], e) == 0
  {
    assert [event][1..] == [] && [event] + [] == [event];
  }

  lemma TcpCarries(isResponse: bool, adu: Adu, chunks: seq<seq<byte>>)
    requires Carriable(TcpNet, isResponse, adu) && Concat(chunks) == Tcp.Encode(adu, 0)
    ensures Brings(TcpNet, isResponse, chunks, adu)
  {
    var raw := Tcp.Encode(adu, 0);
    Tcp.EncodeParts(adu, 0);
    TcpStream.ExtractionIsSound();
    TcpStream.EncodingIsRecognised(adu);
    TcpStream.WaitsForTheFirst();
    TcpStream.OneFrameAnyCutting(Tcp.TryExtractFrame, raw, chunks);
    assert Tcp.AduOf(raw) == adu && |raw| >= Tcp.MIN_TCP_FRAME;
  }

  /** Every framing brings a unit it can carry through any cutting of its bytes. */
  lemma Carries(f: Framing, isResponse: bool, adu: Adu, chunks: seq<seq<byte>>)
    requires Carriable(f, isResponse, adu) && Concat(chunks) == Wire(f, adu)
    ensures Brings(f, isResponse, chunks, adu)
  {
    match f
    case RtuNet(custom) => RtuNetCarries(isResponse, custom, adu, chunks);
    case RtuSerial(custom) => RtuSerialCarries(isResponse, custom, adu, chunks);
    case AsciiLine(lenient) => AsciiCarries(isResponse, lenient, adu, chunks);
    case TcpNet => TcpCarries(isResponse, adu, chunks);
  }

  // ---------------------------------------------------------------- requests, replies and refusals

  predicate StandardCodes(f: Framing, fc: byte) { f.RtuNet? || f.RtuSerial? ==> fc !in f.custom }

  lemma EncodingFrames(adu: Adu)
    ensures Frames(Rtu.Encode(adu), adu.fc, adu.data)
  {
    Rtu.DecodeEncode(adu);
    var e := Rtu.Encode(adu);
    assert Rtu.AduOf(e).data == e[2..|e| - 2];
    forall i | 0 <= i < |adu.data| ensures e[i + 2] == adu.data[i] {
      assert e[2..|e| - 2][i] == e[i + 2];
    }
  }

  lemma RequestCarriable(f: Framing, transaction: Option<u16>, unit: byte, c: Command)
    requires InLimit(c) && StandardCodes(f, FcOf(c)) && (f.TcpNet? <==> transaction.Some?)
    ensures Carriable(f, false, RequestOf(transaction, unit, c))
  {
    var request := RequestOf(transaction, unit, c);
    RequestUnderstood(c);
    if f.RtuNet? || f.RtuSerial? {
      EncodingFrames(request);
      RequestPredicted(Rtu.Encode(request), c);
    }
  }

  lemma ReplyCarriable(f: Framing, transaction: Option<u16>, unit: byte, c: Command, s: Store)
    requires InLimit(c) && Whole(s) && StandardCodes(f, FcOf(c)) && (f.TcpNet? <==> transaction.Some?)
    ensures Carriable(f, true, RequestOf(transaction, unit, c).(data := Reply(c, s)))
  {
    var reply := RequestOf(transaction, unit, c).(data := Reply(c, s));
    if ReadsCoils(c) || ReadsRegisters(c) {
      ReplyToRead(c, s);
    } else {
      ReplyToWrite(c, s);
    }
    if f.RtuNet? || f.RtuSerial? {
      EncodingFrames(reply);
      ReplyPredicted(Rtu.Encode(reply), c, s);
    }
  }

  lemma RefusalCarriable(f: Framing, request: Adu, code: byte)
    requires StandardCodes(f, request.fc | 0x80) && (f.TcpNet? <==> request.transaction.Some?)
    ensures Carriable(f, true, Refusal(request, code))
  {
    if f.RtuNet? || f.RtuSerial? {
      EncodingFrames(Refusal(request, code));
      RefusalPredicted(Rtu.Encode(Refusal(request, code)), request.fc, code);
    }
  }

  // ---------------------------------------------------------------- end to end

  /** END TO END. A master's command to one unit, within the limits and the declared ranges, encoded in any framing
      and cut anyhow on the way there and anyhow on the way back: the slave receives exactly the
      request and carries it out on its tables; the master receives exactly the response, every check
      accepts it, and what the master reads is what the tables held. */
  lemma CommandCarriedOut(
    to: Framing, back: Framing, transaction: Option<u16>, unit: byte, c: Command, ranges: Ranges, s: Store,
    there: seq<seq<byte>>, home: seq<seq<byte>>)
    requires InLimit(c) && Whole(s) && Allowed(ranges, c) && unit != 0
    requires StandardCodes(to, FcOf(c)) && StandardCodes(back, FcOf(c))
    requires (to.TcpNet? <==> transaction.Some?) && (back.TcpNet? <==> transaction.Some?)
    requires Concat(there) == Wire(to, RequestOf(transaction, unit, c))
    requires Concat(home) == Wire(back, RequestOf(transaction, unit, c).(data := Reply(c, s)))
    ensures var request := RequestOf(transaction, unit, c);
      && Brings(to, false, there, request) && Serviceable(request)
      && var (response, t) := Serve(ranges, s, request);
         && response.Some? && t == Written(c, s)
         && Brings(back, true, home, response.value)
         && S.KeyOf(response.value) == S.KeyOf(request)
         && S.Verdicts(ResponseChecks(unit, c), response.value) == S.Accept
         && |response.value.data| == ResponseLength(c)
         && ReadFrom(c, response.value.data) == Read(c, Written(c, s))
  {
    RequestCarriable(to, transaction, unit, c);
    Carries(to, false, RequestOf(transaction, unit, c), there);
    ReplyCarriable(back, transaction, unit, c, s);
    Carries(back, true, RequestOf(transaction, unit, c).(data := Reply(c, s)), home);
    CarriedOut(transaction, unit, c, ranges, s);
  }

  /** And a command outside the ranges changes nothing and comes back as a rejection. */
  lemma CommandRefused(
    to: Framing, back: Framing, transaction: Option<u16>, unit: byte, c: Command, ranges: Ranges, s: Store,
    there: seq<seq<byte>>, home: seq<seq<byte>>)
    requires InLimit(c) && Whole(s) && !Allowed(ranges, c) && unit != 0
    requires StandardCodes(to, FcOf(c)) && StandardCodes(back, FcOf(c) | 0x80)
    requires (to.TcpNet? <==> transaction.Some?) && (back.TcpNet? <==> transaction.Some?)
    requires Concat(there) == Wire(to, RequestOf(transaction, unit, c))
    requires Concat(home) == Wire(back, Refusal(RequestOf(transaction, unit, c), ILLEGAL_DATA_ADDRESS))
    ensures var request := RequestOf(transaction, unit, c);
      && Brings(to, false, there, request) && Serviceable(request)
      && Serve(ranges, s, request) == (Some(Refusal(request, ILLEGAL_DATA_ADDRESS)), s)
      && Brings(back, true, home, Refusal(request, ILLEGAL_DATA_ADDRESS))
      && S.Verdicts(ResponseChecks(unit, c), Refusal(request, ILLEGAL_DATA_ADDRESS)) == S.Reject(S.InvalidResponse)
  {
    RequestCarriable(to, transaction, unit, c);
    Carries(to, false, RequestOf(transaction, unit, c), there);
    RefusalCarriable(back, RequestOf(transaction, unit, c), ILLEGAL_DATA_ADDRESS);
    Carries(back, true, Refusal(RequestOf(transaction, unit, c), ILLEGAL_DATA_ADDRESS), home);
    Refused(transaction, unit, c, ranges, s);
  }

  /** END TO END. A broadcast in any framing and any cutting is carried out by exactly the models whose ranges
      allow it, and nothing is sent back. */
  lemma BroadcastCarried(
    to: Framing, transaction: Option<u16>, c: Command, stations: map<B.UnitId, B.Station>,
    response: Option<Adu>, after: map<B.UnitId, B.Station>, there: seq<seq<byte>>)
    requires InLimit(c) && B.AllWhole(stations) && StandardCodes(to, FcOf(c)) && (to.TcpNet? <==> transaction.Some?)
    requires Concat(there) == Wire(to, RequestOf(transaction, 0, c))
    requires Serviceable(RequestOf(transaction, 0, c))
    requires B.Processed(stations, RequestOf(transaction, 0, c), response, after)
    ensures Brings(to, false, there, RequestOf(transaction, 0, c))
    ensures response == None && forall u :: u in after <==> u in stations
    ensures forall u :: u in stations ==>
      after[u].store == if Allowed(stations[u].ranges, c) then Written(c, stations[u].store) else stations[u].store
  {
    RequestCarriable(to, transaction, 0, c);
    Carries(to, false, RequestOf(transaction, 0, c), there);
    B.BroadcastCarriedOut(transaction, c, stations, response, after);
  }

  // ---------------------------------------------------------------- device identification

  function DeviceRequest(transaction: Option<u16>, unit: byte, code: byte, id: byte): Adu {
    Adu(transaction, unit, 0x2b, [D.MEI, code, id])
  }

  lemma DeviceRequestCarriable(f: Framing, transaction: Option<u16>, unit: byte, code: byte, id: byte)
    requires StandardCodes(f, 0x2b) && (f.TcpNet? <==> transaction.Some?)
    ensures Carriable(f, false, DeviceRequest(transaction, unit, code, id))
  {
    if f.RtuNet? || f.RtuSerial? {
      EncodingFrames(DeviceRequest(transaction, unit, code, id));
      PredictsFixed(Rtu.Encode(DeviceRequest(transaction, unit, code, id)), false, 7);
    }
  }

  lemma DeviceReplyCarriable(f: Framing, reply: Adu)
    requires StandardCodes(f, 0x2b) && (f.TcpNet? <==> reply.transaction.Some?)
    requires reply.fc == 0x2b && D.WellFormed(reply.data) && reply.data[0] == D.MEI && |reply.data| <= 249
    ensures Carriable(f, true, reply)
  {
    if f.RtuNet? || f.RtuSerial? {
      EncodingFrames(reply);
      D.PredictedExactly(Rtu.Encode(reply), reply.data);
    }
  }

  /** END TO END. A page of the device's objects, asked for and sent in any framing and any cutting:
      the master reads exactly the objects of the page and where the next one starts. */
  lemma PageCarried(
    to: Framing, back: Framing, transaction: Option<u16>, unit: byte, code: byte, id: byte,
    objects: seq<DeviceObjects.Object>, data: seq<byte>, there: seq<seq<byte>>, home: seq<seq<byte>>)
    requires StandardCodes(to, 0x2b) && StandardCodes(back, 0x2b)
    requires (to.TcpNet? <==> transaction.Some?) && (back.TcpNet? <==> transaction.Some?)
    requires D.Handle([D.MEI, code, id], objects) == D.Data(data)
    requires Concat(there) == Wire(to, DeviceRequest(transaction, unit, code, id))
    requires Concat(home) == Wire(back, DeviceRequest(transaction, unit, code, id).(data := data))
    ensures var request := DeviceRequest(transaction, unit, code, id);
      && Brings(to, false, there, request)
      && Brings(back, true, home, request.(data := data))
      && S.Judge(D.CheckDeviceId(code), request.(data := data)) == S.Accept && D.WellFormed(data)
      && var page := DeviceId.PageFrom(D.NatOf(code), objects, DeviceId.Effective(D.NatOf(code), objects, D.NatOf(id)));
         page.Page? && D.Parsed(data).objects == page.picked && D.NatOf(D.Parsed(data).next) == page.next
  {
    var request := DeviceRequest(transaction, unit, code, id);
    var reply := request.(data := data);
    DeviceRequestCarriable(to, transaction, unit, code, id);
    Carries(to, false, request, there);
    D.MasterReadsPage(reply, code, id, objects);
    D.AcceptedIsWellFormed(code, reply);
    DeviceReplyCarriable(back, reply);
    Carries(back, true, reply, home);
  }

  // ---------------------------------------------------------------- server id

  function ServerIdRequest(transaction: Option<u16>, unit: byte): Adu { Adu(transaction, unit, 0x11, []) }

  lemma ServerIdCarriable(f: Framing, transaction: Option<u16>, unit: byte, id: I.ServerId)
    requires StandardCodes(f, 0x11) && (f.TcpNet? <==> transaction.Some?) && I.ByteCount(unit, id) <= 251
    ensures Carriable(f, false, ServerIdRequest(transaction, unit))
    ensures I.Answer(unit, id).Some?
    ensures Carriable(f, true, ServerIdRequest(transaction, unit).(data := I.Answer(unit, id).value))
  {
    var request := ServerIdRequest(transaction, unit);
    var reply := request.(data := I.Answer(unit, id).value);
    if f.RtuNet? || f.RtuSerial? {
      EncodingFrames(request);
      PredictsFixed(Rtu.Encode(request), false, 4);
      EncodingFrames(reply);
      I.AnswerPredicted(unit, id, Rtu.Encode(reply));
    }
  }

  /** END TO END. A server id whose byte count is at most 251, in any framing and any cutting. */
  lemma ServerIdCarried(
    to: Framing, back: Framing, transaction: Option<u16>, unit: byte, id: I.ServerId,
    there: seq<seq<byte>>, home: seq<seq<byte>>)
    requires StandardCodes(to, 0x11) && StandardCodes(back, 0x11) && I.ByteCount(unit, id) <= 251
    requires (to.TcpNet? <==> transaction.Some?) && (back.TcpNet? <==> transaction.Some?)
    requires Concat(there) == Wire(to, ServerIdRequest(transaction, unit))
    requires I.Answer(unit, id).Some?
    requires Concat(home) == Wire(back, ServerIdRequest(transaction, unit).(data := I.Answer(unit, id).value))
    ensures var request := ServerIdRequest(transaction, unit);
      var reply := request.(data := I.Answer(unit, id).value);
      && Brings(to, false, there, request) && Brings(back, true, home, reply)
      && S.Judge(I.CheckServerId(), reply) == S.Accept
      && I.Parse(reply.data, |I.IdBytes(unit, id)|) == Some(id.(id := I.IdBytes(unit, id)))
  {
    var request := ServerIdRequest(transaction, unit);
    var reply := request.(data := I.Answer(unit, id).value);
    ServerIdCarriable(to, transaction, unit, id);
    Carries(to, false, request, there);
    ServerIdCarriable(back, transaction, unit, id);
    Carries(back, true, reply, home);
    I.MasterReads(unit, id, reply);
  }
}
