/** The length of an RTU frame from its first bytes. */
module RtuPredict {
  import opened Bytes

  /** `Length` counts the two checksum bytes. */
  datatype Prediction = Length(n: nat) | NeedMore | Unknown

  const EXCEPTION_BIT: byte := 0x80
  const MEI_READ_DEVICE_ID: byte := 0x0e

  predicate IsException(fc: byte) { fc & EXCEPTION_BIT != 0 }

  function FixedLength(fc: byte, isResponse: bool): Option<nat> {
    if isResponse then
      match fc
      case 0x05 => Some(8)
      case 0x06 => Some(8)
      case 0x0f => Some(8)
      case 0x10 => Some(8)
      case 0x16 => Some(10)
      case _ => None
    else
      match fc
      case 0x01 => Some(8)
      case 0x02 => Some(8)
      case 0x03 => Some(8)
      case 0x04 => Some(8)
      case 0x05 => Some(8)
      case 0x06 => Some(8)
      case 0x11 => Some(4)
      case 0x16 => Some(10)
      case 0x2b => Some(7)
      case _ => None
  }

  /** Where the byte count is, and how many bytes the frame has beside those it counts. */
  function ByteCountAt(fc: byte, isResponse: bool): Option<(nat, nat)> {
    if isResponse then
      match fc
      case 0x01 => Some((2, 5))
      case 0x02 => Some((2, 5))
      case 0x03 => Some((2, 5))
      case 0x04 => Some((2, 5))
      case 0x11 => Some((2, 5))
      case 0x17 => Some((2, 5))
      case _ => None
    else
      match fc
      case 0x0f => Some((6, 9))
      case 0x10 => Some((6, 9))
      case 0x17 => Some((10, 13))
      case _ => None
  }

  /** Walk `count` objects, each an id, a length and that many bytes, from `offset`. */
  function WalkObjects(buffer: seq<byte>, offset: nat, count: nat): Prediction
    decreases count
  {
    if count == 0 then Length(offset + 2)
    else if |buffer| < offset + 2 then NeedMore
    else WalkObjects(buffer, offset + 2 + buffer[offset + 1] as nat, count - 1)
  }

  function PredictDeviceIdentification(buffer: seq<byte>): Prediction {
    if |buffer| < 8 then NeedMore
    else if buffer[2] != MEI_READ_DEVICE_ID then Unknown
    else WalkObjects(buffer, 8, buffer[7] as nat)
  }

  function PredictFrameLength(buffer: seq<byte>, isResponse: bool): Prediction {
    if |buffer| < 2 then NeedMore
    else
      var fc := buffer[1];
      if isResponse && IsException(fc) then Length(5)
      else if FixedLength(fc, isResponse).Some? then Length(FixedLength(fc, isResponse).value)
      else if ByteCountAt(fc, isResponse).Some? then
        var (offset, extra) := ByteCountAt(fc, isResponse).value;
        if |buffer| <= offset then NeedMore else Length(extra + buffer[offset] as nat)
      else if isResponse && fc == 0x2b then PredictDeviceIdentification(buffer)
      else Unknown
  }

  /** The loop of the code over the objects. */
  method WalkDeviceIdentification(buffer: seq<byte>) returns (p: Prediction)
    ensures p == PredictDeviceIdentification(buffer)
  {
    if |buffer| < 8 {
      return NeedMore;
    }
    if buffer[2] != MEI_READ_DEVICE_ID {
      return Unknown;
    }
    var count := buffer[7] as nat;
    var offset: nat := 8;
    var i := 0;
    while i < count
      invariant 0 <= i <= count
      invariant WalkObjects(buffer, offset, count - i) == WalkObjects(buffer, 8, count)
    {
      if |buffer| < offset + 2 {
        return NeedMore;
      }
      offset := offset + 2 + buffer[offset + 1] as nat;
      i := i + 1;
    }
    return Length(offset + 2);
  }

  lemma {:induction false} WalkIsStable(b: seq<byte>, more: seq<byte>, offset: nat, count: nat)
    requires WalkObjects(b, offset, count) != NeedMore
    ensures WalkObjects(b + more, offset, count) == WalkObjects(b, offset, count)
    decreases count
  {
    if count > 0 {
      WalkIsStable(b, more, offset + 2 + b[offset + 1] as nat, count - 1);
    }
  }

  /** A verdict never changes as bytes arrive. */
  lemma PredictionIsStable(b: seq<byte>, more: seq<byte>, isResponse: bool)
    requires PredictFrameLength(b, isResponse) != NeedMore
    ensures PredictFrameLength(b + more, isResponse) == PredictFrameLength(b, isResponse)
  {
    if PredictDeviceIdentification(b) != NeedMore && b[2] == MEI_READ_DEVICE_ID {
      WalkIsStable(b, more, 8, b[7] as nat);
    }
  }

  /** So a prefix of a frame is either undecided or already has the verdict of the frame. */
  lemma PrefixPrediction(f: seq<byte>, k: nat, isResponse: bool)
    requires k <= |f|
    ensures PredictFrameLength(f[..k], isResponse) == NeedMore
         || PredictFrameLength(f[..k], isResponse) == PredictFrameLength(f, isResponse)
  {
    if PredictFrameLength(f[..k], isResponse) != NeedMore {
      PredictionIsStable(f[..k], f[k..], isResponse);
      assert f == f[..k] + f[k..];
    }
  }

  /** `is_standard_fc` */
  predicate IsStandard(fc: byte, isResponse: bool) {
    if isResponse then
      IsException(fc)
      || fc in {0x05, 0x06, 0x0f, 0x10, 0x16, 0x01, 0x02, 0x03, 0x04, 0x11, 0x17, 0x2b}
    else fc in {0x01, 0x02, 0x03, 0x04, 0x05, 0x06, 0x11, 0x16, 0x2b, 0x0f, 0x10, 0x17}
  }

  /** The predictor knows exactly the standard codes: it has no verdict of its own on any other, and on
      a standard one only when an encapsulated response is not a device identification. */
  lemma KnowsStandardCodes(buffer: seq<byte>, isResponse: bool)
    requires |buffer| >= 2
    ensures PredictFrameLength(buffer, isResponse) == Unknown <==>
      !IsStandard(buffer[1], isResponse)
      || (isResponse && buffer[1] == 0x2b && |buffer| >= 8 && buffer[2] != MEI_READ_DEVICE_ID)
  {
    if |buffer| >= 8 {
      WalkIsNeverUnknown(buffer, 8, buffer[7] as nat);
    }
  }

  lemma {:induction false} WalkIsNeverUnknown(buffer: seq<byte>, offset: nat, count: nat)
    ensures WalkObjects(buffer, offset, count) != Unknown
    decreases count
  {
    if count > 0 && |buffer| >= offset + 2 {
      WalkIsNeverUnknown(buffer, offset + 2 + buffer[offset + 1] as nat, count - 1);
    }
  }
}
