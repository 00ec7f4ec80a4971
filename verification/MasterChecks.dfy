/** What a master makes of a response to its command, said of the response's bytes: accepted, or which
    error. */
module MasterChecks {
  import opened Bytes
  import opened Adus
  import opened Pdu
  import opened Exchange
  import S = Session

  /** The content a response must have, its length being right: the byte count of the values asked for, or
      the beginning of the request. */
  predicate ContentFits(c: Command, data: seq<byte>)
    requires InLimit(c) && |data| == ResponseLength(c)
  {
    if ReadsCoils(c) || ReadsRegisters(c) then data[0] as nat == ValueBytes(c) else data <= RequestData(c)
  }

  lemma LengthOfEcho(c: Command)
    requires InLimit(c) && !ReadsCoils(c) && !ReadsRegisters(c)
    ensures ResponseLength(c) <= |RequestData(c)|
    ensures !c.WriteMultipleCoils? && !c.WriteMultipleRegisters? ==> ResponseLength(c) == |RequestData(c)|
  {
    WriteReply(c);
    if !c.WriteMultipleCoils? && !c.WriteMultipleRegisters? {
      WriteLength(c);
    }
  }

  function Three(unit: byte, fc: byte, n: nat, last: S.PreCheck): seq<S.PreCheck> {
    [S.CheckUnitFc(unit, fc)] + [S.CheckLength(n), last]
  }

  lemma ThreeVerdicts(unit: byte, fc: byte, n: nat, last: S.PreCheck, adu: Adu)
    requires last(adu) == S.Pass || last(adu) == S.Fail(S.InvalidResponse)
    ensures S.Verdicts(Three(unit, fc, n, last), adu) ==
      if adu.unit != unit || adu.fc != fc then S.Reject(S.InvalidResponse)
      else if |adu.data| < n then S.Reject(S.Framing(InsufficientData))
      else if |adu.data| > n || last(adu) != S.Pass then S.Reject(S.InvalidResponse)
      else S.Accept
  {
    var checks := Three(unit, fc, n, last);
    assert checks[0] == S.CheckUnitFc(unit, fc);
    assert checks[1..] == [S.CheckLength(n), last] && checks[1..][1..] == [last] && checks[1..][1..][1..] == [];
    assert S.Verdicts([], adu) == S.Accept;
    assert S.Verdicts([last], adu) == S.Judge(last, adu);
  }

  lemma ReadVerdict(c: Command, unit: byte, adu: Adu)
    requires InLimit(c) && (ReadsCoils(c) || ReadsRegisters(c))
    ensures S.Verdicts(ResponseChecks(unit, c), adu) ==
      if adu.unit != unit || adu.fc != FcOf(c) then S.Reject(S.InvalidResponse)
      else if |adu.data| < ResponseLength(c) then S.Reject(S.Framing(InsufficientData))
      else if |adu.data| > ResponseLength(c) || !ContentFits(c, adu.data) then S.Reject(S.InvalidResponse)
      else S.Accept
  {
    var n := ValueBytes(c);
    assert ResponseChecks(unit, c) == Three(unit, FcOf(c), 1 + n, S.CheckByteCount(n));
    ThreeVerdicts(unit, FcOf(c), 1 + n, S.CheckByteCount(n), adu);
  }

  lemma WriteVerdict(c: Command, unit: byte, adu: Adu)
    requires InLimit(c) && !ReadsCoils(c) && !ReadsRegisters(c)
    ensures S.Verdicts(ResponseChecks(unit, c), adu) ==
      if adu.unit != unit || adu.fc != FcOf(c) then S.Reject(S.InvalidResponse)
      else if |adu.data| < ResponseLength(c) then S.Reject(S.Framing(InsufficientData))
      else if |adu.data| > ResponseLength(c) || !ContentFits(c, adu.data) then S.Reject(S.InvalidResponse)
      else S.Accept
  {
    var n := ResponseLength(c);
    LengthOfEcho(c);
    var echo := RequestData(c)[..n];
    if !c.WriteMultipleCoils? && !c.WriteMultipleRegisters? {
      assert echo == RequestData(c);
    }
    assert ResponseChecks(unit, c) == Three(unit, FcOf(c), n, S.CheckEcho(echo));
    ThreeVerdicts(unit, FcOf(c), n, S.CheckEcho(echo), adu);
  }

  /** VERDICT, exactly. A response from another unit or with another code is invalid; a shorter one has not
      enough data; a longer one is invalid, and one of the right length exactly if it does not begin with the
      byte count of what was asked for, or is not the beginning of the request. Every other is accepted. */
  lemma ResponseVerdict(c: Command, unit: byte, adu: Adu)
    requires InLimit(c)
    ensures S.Verdicts(ResponseChecks(unit, c), adu) ==
      if adu.unit != unit || adu.fc != FcOf(c) then S.Reject(S.InvalidResponse)
      else if |adu.data| < ResponseLength(c) then S.Reject(S.Framing(InsufficientData))
      else if |adu.data| > ResponseLength(c) || !ContentFits(c, adu.data) then S.Reject(S.InvalidResponse)
      else S.Accept
  {
    if ReadsCoils(c) || ReadsRegisters(c) {
      ReadVerdict(c, unit, adu);
    } else {
      WriteVerdict(c, unit, adu);
    }
  }
}
