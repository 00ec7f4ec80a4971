/** What the ASCII reception automaton takes for a frame, said of the bytes received alone: a colon, at most
    512 hexadecimal characters, a carriage return and a line feed, one right after the other. */
module AsciiFraming {
  import opened Bytes
  import opened Adus
  import opened Ascii
  import opened AsciiStream
  import opened AsciiOrder

  // ---------------------------------------------------------------- the state, from the bytes received

  predicate EndsIn(data: seq<byte>, tail: seq<byte>) { |tail| <= |data| && data[|data| - |tail|..] == tail }

  /** Characters a frame can be made of. */
  predicate Payload(lenient: bool, p: seq<byte>) { AllHex(p, lenient) && |p| <= MAX_ASCII_PAYLOAD }

  function StateAfter(lenient: bool, data: seq<byte>): State { Drive(lenient, Start(IDLE), data).state }

  lemma OneByteMore(lenient: bool, data: seq<byte>, b: byte)
    ensures Drive(lenient, Start(IDLE), data + [b])
         == Note(Drive(lenient, Start(IDLE), data), Step(lenient, StateAfter(lenient, data), b))
  {
    DriveConcat(lenient, Start(IDLE), data, [b]);
    assert [b][1..] == [];
  }

  lemma EndsSame(data: seq<byte>, b: byte, tail: seq<byte>, c: byte)
    ensures EndsIn(data + [b], tail + [c]) <==> b == c && EndsIn(data, tail)
  {
    var d, t := data + [b], tail + [c];
    if |tail| <= |data| {
      assert d[|d| - |t|..] == data[|data| - |tail|..] + [b];
      if d[|d| - |t|..] == t {
        assert t[|tail|] == c && t[..|tail|] == tail;
        assert (data[|data| - |tail|..] + [b])[|tail|] == b;
        assert (data[|data| - |tail|..] + [b])[..|tail|] == data[|data| - |tail|..];
      }
    }
  }

  predicate IsOpen(lenient: bool, data: seq<byte>, p: seq<byte>) {
    Payload(lenient, p) && EndsIn(data, [COLON] + p)
  }

  predicate IsEnding(lenient: bool, data: seq<byte>, p: seq<byte>) {
    Payload(lenient, p) && EndsIn(data, [COLON] + p + [CR])
  }

  /** A whole frame has just been received. */
  predicate IsWhole(lenient: bool, data: seq<byte>, p: seq<byte>) {
    Payload(lenient, p) && EndsIn(data, Framed(p))
  }

  lemma HexIsNoMark(lenient: bool, b: byte)
    requires IsHexChar(b, lenient)
    ensures b != COLON && b != CR && b != LF
  {
    HexIsNotFraming(b);
  }

  lemma OpenGrows(lenient: bool, data: seq<byte>, b: byte, p: seq<byte>)
    ensures p == [] ==> (IsOpen(lenient, data + [b], p) <==> b == COLON)
    ensures p != [] ==> (IsOpen(lenient, data + [b], p) <==>
      b == p[|p| - 1] && Payload(lenient, p) && IsOpen(lenient, data, p[..|p| - 1]))
  {
    if p == [] {
      EndsSame(data, b, [], COLON);
      assert [] + [COLON] == [COLON] + p;
    } else {
      var q := p[..|p| - 1];
      EndsSame(data, b, [COLON] + q, p[|p| - 1]);
      assert [COLON] + q + [p[|p| - 1]] == [COLON] + p;
    }
  }

  lemma EndingGrows(lenient: bool, data: seq<byte>, b: byte, p: seq<byte>)
    ensures IsEnding(lenient, data + [b], p) <==> b == CR && IsOpen(lenient, data, p)
    ensures IsWhole(lenient, data + [b], p) <==> b == LF && IsEnding(lenient, data, p)
  {
    EndsSame(data, b, [COLON] + p, CR);
    EndsSame(data, b, [COLON] + p + [CR], LF);
    assert [COLON] + p + [CR] + [LF] == Framed(p);
  }

  /** A state is receiving, or waiting for the end, exactly if that is how the bytes end. */
  ghost predicate Known(lenient: bool, data: seq<byte>, s: State) {
    && (forall p :: s == State(Reception, p) <==> IsOpen(lenient, data, p))
    && (forall p :: s == State(WaitingEnd, p) <==> IsEnding(lenient, data, p))
    && Clean(lenient, s)
  }

  lemma OpenKept(lenient: bool, data: seq<byte>, s: State, b: byte, p: seq<byte>)
    requires Known(lenient, data, s)
    ensures Step(lenient, s, b).0 == State(Reception, p) <==> IsOpen(lenient, data + [b], p)
  {
    OpenGrows(lenient, data, b, p);
    if p != [] {
      var q := p[..|p| - 1];
      assert p == q + [p[|p| - 1]];
      if IsOpen(lenient, data + [b], p) {
        assert s == State(Reception, q);
        HexIsNoMark(lenient, b);
      }
      assert s.status == Reception && p == s.frame + [b] ==> q == s.frame && IsOpen(lenient, data, q);
    }
  }

  lemma KnownMore(lenient: bool, data: seq<byte>, s: State, b: byte)
    requires Known(lenient, data, s)
    ensures Known(lenient, data + [b], Step(lenient, s, b).0)
  {
    var t := Step(lenient, s, b).0;
    forall p ensures t == State(Reception, p) <==> IsOpen(lenient, data + [b], p) {
      OpenKept(lenient, data, s, b, p);
    }
    forall p ensures t == State(WaitingEnd, p) <==> IsEnding(lenient, data + [b], p) {
      EndingGrows(lenient, data, b, p);
    }
  }

  lemma KnownAtFirst(lenient: bool)
    ensures Known(lenient, [], StateAfter(lenient, []))
  {}

  lemma OneStateMore(lenient: bool, data: seq<byte>, b: byte)
    ensures StateAfter(lenient, data + [b]) == Step(lenient, StateAfter(lenient, data), b).0
  {
    OneByteMore(lenient, data, b);
  }

  /** STATE. Whatever has been received, the state is read off the bytes. */
  lemma {:induction false} StateIsKnown(lenient: bool, data: seq<byte>)
    ensures Known(lenient, data, StateAfter(lenient, data))
    decreases |data|
  {
    if data == [] {
      KnownAtFirst(lenient);
    } else {
      var n := |data| - 1;
      assert data == data[..n] + [data[n]];
      StateIsKnown(lenient, data[..n]);
      OneStateMore(lenient, data[..n], data[n]);
      KnownMore(lenient, data[..n], StateAfter(lenient, data[..n]), data[n]);
    }
  }

  // ---------------------------------------------------------------- the signals, from the bytes received

  lemma {:induction false} TraceAt(lenient: bool, s: State, data: seq<byte>, k: nat)
    requires k < |data|
    ensures Trace(lenient, s, data)[k] == Step(lenient, Drive(lenient, Start(s), data[..k]).state, data[k]).1
    decreases |data|
  {
    if k > 0 {
      var next := Step(lenient, s, data[0]);
      TraceAt(lenient, next.0, data[1..], k - 1);
      assert data[1..][..k - 1] == data[..k][1..] && data[..k][0] == data[0];
      StateAlone(lenient, Note(Start(s), next), Start(next.0), data[..k][1..]);
    }
  }

  lemma {:induction false} StateAlone(lenient: bool, d: Driven, e: Driven, data: seq<byte>)
    requires d.state == e.state
    ensures Drive(lenient, d, data).state == Drive(lenient, e, data).state
    decreases |data|
  {
    if data != [] {
      var next := Step(lenient, d.state, data[0]);
      StateAlone(lenient, Note(d, next), Note(e, next), data[1..]);
    }
  }

  /** A frame has been begun, and this byte can neither go on with it nor begin or end one. */
  predicate IsBroken(lenient: bool, data: seq<byte>, b: byte, p: seq<byte>) {
    IsOpen(lenient, data, p) && b != COLON && b != CR
  }

  /** SIGNALS, exactly. From an idle connection, a byte completes a frame exactly if the bytes received end
      in that frame; it is a bad character exactly if it is none of the characters allowed after a colon and
      fewer than 512 hexadecimal ones; and an overflow exactly if these are 512 and it is neither a colon nor
      a carriage return. */
  lemma SignalIs(lenient: bool, data: seq<byte>, k: nat)
    requires k < |data|
    ensures var g := Trace(lenient, IDLE, data)[k];
      && (forall p :: g == Complete(p) <==> IsWhole(lenient, data[..k + 1], p))
      && (g.BadHex? <==> exists p ::
            IsBroken(lenient, data[..k], data[k], p) && |p| < MAX_ASCII_PAYLOAD && !IsHexChar(data[k], lenient))
      && (g.Overflow? <==> exists p ::
            IsBroken(lenient, data[..k], data[k], p) && |p| == MAX_ASCII_PAYLOAD)
  {
    var d, b := data[..k], data[k];
    assert data[..k + 1] == d + [b];
    TraceAt(lenient, IDLE, data, k);
    StateIsKnown(lenient, d);
    var s := StateAfter(lenient, d);
    forall p ensures Step(lenient, s, b).1 == Complete(p) <==> IsWhole(lenient, d + [b], p) {
      EndingGrows(lenient, d, b, p);
    }
    if s.status == Reception {
      assert IsOpen(lenient, d, s.frame);
    }
  }

  // ---------------------------------------------------------------- the frames, from the bytes received

  ghost function WholeAtEnd(lenient: bool, data: seq<byte>): (r: seq<seq<byte>>)
    ensures forall p :: IsWhole(lenient, data, p) ==> r != []
    ensures r == [] || (|r| == 1 && IsWhole(lenient, data, r[0]))
  {
    if exists p :: IsWhole(lenient, data, p) then
      var p :| IsWhole(lenient, data, p);
      [p]
    else []
  }

  /** All the frames there are among the bytes, in order. */
  ghost function Wholes(lenient: bool, data: seq<byte>): seq<seq<byte>> {
    if data == [] then [] else Wholes(lenient, data[..|data| - 1]) + WholeAtEnd(lenient, data)
  }

  function Completing(g: Signal): seq<seq<byte>> { if g.Complete? then [g.payload] else [] }

  lemma CompletesIff(lenient: bool, data: seq<byte>, b: byte)
    ensures Completing(Step(lenient, StateAfter(lenient, data), b).1) == WholeAtEnd(lenient, data + [b])
  {
    StateIsKnown(lenient, data);
    var s := StateAfter(lenient, data);
    var g := Step(lenient, s, b).1;
    forall p ensures g == Complete(p) <==> IsWhole(lenient, data + [b], p) {
      EndingGrows(lenient, data, b, p);
    }
    if g.Complete? {
      assert IsWhole(lenient, data + [b], g.payload);
    }
  }

  /** COMPLETED, exactly. The automaton completes the frames there are among the bytes, and no others. */
  lemma {:induction false} CompletedAreWholes(lenient: bool, data: seq<byte>)
    ensures Drive(lenient, Start(IDLE), data).completed == Wholes(lenient, data)
    decreases |data|
  {
    if data != [] {
      var n := |data| - 1;
      var d, b := data[..n], data[n];
      assert data == d + [b];
      CompletedAreWholes(lenient, d);
      OneByteMore(lenient, d, b);
      CompletesIff(lenient, d, b);
    }
  }

  /** DELIVERED, exactly. Whatever arrives at an idle connection, in whatever cutting, the frames delivered
      are those there are among the bytes whose payloads decode. */
  lemma DeliveredAreWholes(lenient: bool, chunks: seq<seq<byte>>)
    ensures Frames(DriveAll(lenient, IDLE, chunks).1) == Frames(Deliver(Wholes(lenient, Concat(chunks))))
  {
    AnyCutting(lenient, IDLE, chunks, InvalidData);
    ReportsSplit(Drive(lenient, Start(IDLE), Concat(chunks)), InvalidData);
    CompletedAreWholes(lenient, Concat(chunks));
  }

  // ---------------------------------------------------------------- where they were

  /** The frames are pieces of the bytes, one after the other. */
  ghost predicate Located(frames: seq<Event>, starts: seq<nat>, data: seq<byte>) {
    && |starts| == |frames|
    && (forall i :: 0 <= i < |frames| ==> frames[i].Frame? && IsPiece(frames[i].raw, starts[i], data))
    && (forall i, j :: 0 <= i < j < |frames| ==> starts[i] + |frames[i].raw| <= starts[j])
  }

  predicate IsPiece(raw: seq<byte>, start: nat, data: seq<byte>) {
    start + |raw| <= |data| && data[start..start + |raw|] == raw
  }

  lemma OnlyOneLineFeed(lenient: bool, p: seq<byte>, k: nat)
    requires AllHex(p, lenient) && k < |Framed(p)| && Framed(p)[k] == LF
    ensures k == |Framed(p)| - 1
  {
    assert 0 < k <= |p| ==> Framed(p)[k] == p[k - 1];
    forall i | 0 <= i < |p| ensures p[i] != LF {
      HexIsNoMark(lenient, p[i]);
    }
  }

  /** A piece that ends in a line feed ends before a frame that ends later begins. */
  lemma EndsBefore(lenient: bool, raw: seq<byte>, start: nat, data: seq<byte>, p: seq<byte>)
    requires IsPiece(raw, start, data) && raw != [] && raw[|raw| - 1] == LF && start + |raw| < |data|
    requires IsWhole(lenient, data, p)
    ensures start + |raw| <= |data| - |Framed(p)|
  {
    var from, last := |data| - |Framed(p)|, start + |raw| - 1;
    assert data[start..start + |raw|][|raw| - 1] == data[last];
    if last >= from {
      assert data[from..][last - from] == data[last];
      OnlyOneLineFeed(lenient, p, last - from);
    }
  }

  lemma RawIsFramed(p: seq<byte>)
    ensures EventOf(p).Frame? ==> EventOf(p).raw == Framed(p)
  {}

  predicate EndInLineFeed(frames: seq<Event>) {
    forall i :: 0 <= i < |frames| ==> frames[i].Frame? && frames[i].raw != [] && frames[i].raw[|frames[i].raw| - 1] == LF
  }

  lemma PieceOfMore(raw: seq<byte>, start: nat, data: seq<byte>, b: byte)
    requires IsPiece(raw, start, data)
    ensures IsPiece(raw, start, data + [b])
  {}

  lemma LocatedInMore(frames: seq<Event>, starts: seq<nat>, data: seq<byte>, b: byte)
    requires Located(frames, starts, data)
    ensures Located(frames, starts, data + [b])
  {
    forall i | 0 <= i < |frames| ensures frames[i].Frame? && IsPiece(frames[i].raw, starts[i], data + [b]) {
      PieceOfMore(frames[i].raw, starts[i], data, b);
    }
  }

  /** One more frame, which the bytes now end in. */
  lemma OneMoreLocated(
    lenient: bool, frames: seq<Event>, starts: seq<nat>, data: seq<byte>, b: byte, p: seq<byte>) returns (more: seq<nat>)
    requires Located(frames, starts, data) && EndInLineFeed(frames)
    requires IsWhole(lenient, data + [b], p) && EventOf(p).Frame?
    ensures Located(frames + [EventOf(p)], more, data + [b]) && EndInLineFeed(frames + [EventOf(p)])
  {
    var d, from := data + [b], |data| + 1 - |Framed(p)|;
    RawIsFramed(p);
    LocatedInMore(frames, starts, data, b);
    more := starts + [from];
    forall i | 0 <= i < |frames| ensures starts[i] + |frames[i].raw| <= from {
      EndsBefore(lenient, frames[i].raw, starts[i], d, p);
    }
    assert d[from..from + |Framed(p)|] == d[from..];
  }

  lemma OneDelivered(p: seq<byte>, before: seq<seq<byte>>)
    ensures Frames(Deliver(before + [p])) == Frames(Deliver(before)) + if EventOf(p).Frame? then [EventOf(p)] else []
  {
    DeliverSum(before, [p], InvalidData);
    assert [p][1..] == [] && [EventOf(p)][1..] == [];
    assert Deliver([p]) == [EventOf(p)] + [];
    assert Frames([EventOf(p)][1..]) == [];
  }

  lemma {:induction false} WholesAreLocated(lenient: bool, data: seq<byte>) returns (starts: seq<nat>)
    ensures Located(Frames(Deliver(Wholes(lenient, data))), starts, data)
    ensures EndInLineFeed(Frames(Deliver(Wholes(lenient, data))))
    decreases |data|
  {
    if data == [] {
      starts := [];
    } else {
      var n := |data| - 1;
      var d, b := data[..n], data[n];
      assert data == d + [b];
      starts := WholesAreLocated(lenient, d);
      var frames, last := Frames(Deliver(Wholes(lenient, d))), WholeAtEnd(lenient, data);
      assert frames + [] == frames && Wholes(lenient, d) + [] == Wholes(lenient, d);
      if last != [] {
        assert Wholes(lenient, data) == Wholes(lenient, d) + [last[0]];
        OneDelivered(last[0], Wholes(lenient, d));
      }
      if last != [] && EventOf(last[0]).Frame? {
        starts := OneMoreLocated(lenient, frames, starts, d, b, last[0]);
      } else {
        LocatedInMore(frames, starts, d, b);
        assert Frames(Deliver(Wholes(lenient, data))) == frames;
      }
    }
  }

  /** RECEIVED. Whatever arrives at an idle connection, in whatever cutting, the raw bytes of every frame
      delivered are a piece of the bytes received, and the pieces follow one another. */
  lemma RawWasReceived(lenient: bool, chunks: seq<seq<byte>>) returns (starts: seq<nat>)
    ensures Located(Frames(DriveAll(lenient, IDLE, chunks).1), starts, Concat(chunks))
  {
    DeliveredAreWholes(lenient, chunks);
    starts := WholesAreLocated(lenient, Concat(chunks));
  }

  // ---------------------------------------------------------------- what a frame decodes to

  /** DECODED, exactly. The characters between colon and line end give a bad length if they are odd in number,
      a bad character if one is not hexadecimal, too few bytes below three, a failed check if the bytes do not
      add up to nothing, and otherwise the unit. */
  lemma PayloadIs(p: seq<byte>)
    ensures |p| % 2 != 0 ==> DecodePayload(p) == Refused(InvalidData)
    ensures |p| % 2 == 0 && !AllHex(p, true) ==> DecodePayload(p) == Refused(InvalidHex)
    ensures |p| % 2 == 0 && AllHex(p, true) && |p| < 6 ==> DecodePayload(p) == Refused(InsufficientData)
    ensures |p| % 2 == 0 && AllHex(p, true) && |p| >= 6 ==>
      exists bytes: seq<byte> :: |bytes| >= 3 && Hex(bytes) == Capitals(p)
        && DecodePayload(p) == if Sum(bytes) != 0 then Refused(LrcCheckFailed)
                               else Delivered(Adu(None, bytes[0], bytes[1], bytes[2..|bytes| - 1]), [COLON] + p + [CR, LF])
  {
    if |p| % 2 == 0 {
      if AllHex(p, true) {
        UnhexIsHex(p);
        var bytes := Unhex(p).value;
        HexIsHex(bytes);
        if |p| >= 6 {
          LrcMatchesIffZero(bytes);
          assert |bytes| >= 3 && Hex(bytes) == Capitals(p);
        }
      } else if Unhex(p).Some? {
        UnhexNeedsHex(p);
      }
    }
  }

  /** And alone: fewer than ten bytes are not enough, and others are invalid without the colon in front and
      the line end behind. */
  lemma DecodeIs(data: seq<byte>)
    ensures |data| < 10 ==> Decode(data) == Err(InsufficientData)
    ensures |data| >= 10 && !(data[0] == 0x3a && data[|data| - 2..] == [0x0d, 0x0a]) ==> Decode(data) == Err(InvalidData)
    ensures |data| >= 10 && data[0] == 0x3a && data[|data| - 2..] == [0x0d, 0x0a] ==>
      var d := DecodePayload(data[1..|data| - 2]);
      Decode(data) == if d.Refused? then Err(d.error) else Ok(d.adu)
  {
    if |data| >= 10 {
      var end := data[|data| - 2..];
      assert end[0] == data[|data| - 2] && end[1] == data[|data| - 1];
      assert end == [0x0d, 0x0a] <==> end[0] == 0x0d && end[1] == 0x0a;
    }
  }
}
