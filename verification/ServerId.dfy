/** Report Server ID: the slave's answer, the master's check of it, what the master reads, and the
    sizes that the framings can carry. Section 6.17 of MODBUS Application Protocol V1.1b3. */
module ServerId {
  import opened Bytes
  import opened Adus
  import opened Packing
  import S = Session
  import P = RtuPredict
  import F = RtuFramer

  datatype ServerId = ServerId(id: seq<byte>, running: bool, additional: seq<byte>)

  /** An empty id stands for the unit. */
  function IdBytes(unit: byte, s: ServerId): seq<byte> { if s.id == [] then [unit] else s.id }

  function ByteCount(unit: byte, s: ServerId): nat { |IdBytes(unit, s)| + 1 + |s.additional| }

  /** The data of the answer, or none if its byte count does not fit a byte. */
  function Answer(unit: byte, s: ServerId): Option<seq<byte>> {
    var count := ByteCount(unit, s);
    if count > 255 then None
    else Some([CountByte(count)] + (IdBytes(unit, s) + [if s.running then 0xff else 0x00] + s.additional))
  }

  /** There is an answer exactly if the id, the status and the rest are at most 255 bytes. */
  lemma AnswersIff(unit: byte, s: ServerId)
    ensures Answer(unit, s).Some? <==> (if s.id == [] then 1 else |s.id|) + 1 + |s.additional| <= 255
  {}

  function CheckServerId(): S.PreCheck {
    (adu: Adu) => if adu.data != [] then S.NeedLength(1 + adu.data[0] as nat) else S.NotEnough
  }

  /** What the master reads, told how long the id is. */
  function Parse(data: seq<byte>, idLength: nat): Option<ServerId> {
    var status := 1 + idLength;
    if |data| < status + 1 then None
    else Some(ServerId(data[1..status], data[status] == 0xff, data[status + 1..]))
  }

  lemma Pieces(count: byte, id: seq<byte>, status: byte, additional: seq<byte>)
    ensures var d := [count] + (id + [status] + additional);
      && |d| == 1 + |id| + 1 + |additional| && d[0] == count
      && d[1..1 + |id|] == id && d[1 + |id|] == status && d[2 + |id|..] == additional
  {}

  /** ROUND TRIP. An answer passes the check, and a master that knows the length of the id reads what
      the slave reported. */
  lemma MasterReads(unit: byte, s: ServerId, adu: Adu)
    requires Answer(unit, s) == Some(adu.data)
    ensures S.Judge(CheckServerId(), adu) == S.Accept
    ensures Parse(adu.data, |IdBytes(unit, s)|) == Some(s.(id := IdBytes(unit, s)))
  {
    CountByteFits(ByteCount(unit, s));
    Pieces(CountByte(ByteCount(unit, s)), IdBytes(unit, s), if s.running then 0xff else 0x00, s.additional);
  }

  /** EXACT. The RTU receiver of a master measures every answer right. */
  lemma AnswerPredicted(unit: byte, s: ServerId, frame: seq<byte>)
    requires Answer(unit, s).Some?
    requires var data := Answer(unit, s).value;
      |frame| == |data| + 4 && frame[1] == 0x11 && frame[2] == data[0]
    ensures P.PredictFrameLength(frame, true) == P.Length(|frame|)
  {
    CountByteFits(ByteCount(unit, s));
  }

  /** The slave answers byte counts up to 255, but the RTU receiver of the master takes the frame of
      an answer exactly if the byte count is at most 251; any other it calls invalid. */
  lemma ReceivedIffFits(unit: byte, s: ServerId, frame: seq<byte>, env: F.Env)
    requires Answer(unit, s).Some? && env.isResponse && 0x11 !in env.custom && env.passes(frame)
    requires var data := Answer(unit, s).value;
      |frame| == |data| + 4 && frame[1] == 0x11 && frame[2] == data[0]
    ensures F.TryExtract(env, frame) == if ByteCount(unit, s) <= 251 then F.Frame(|frame|) else F.Invalid
  {
    AnswerPredicted(unit, s, frame);
    assert frame[..|frame|] == frame;
  }
}
