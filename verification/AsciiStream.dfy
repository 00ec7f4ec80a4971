/** The ASCII reception automaton over a stream cut into chunks. */
module AsciiStream {
  import opened Bytes
  import opened Adus
  import opened Ascii

  datatype Status = Idle | Reception | WaitingEnd

  /** A connection's state: where the automaton is and the characters after the last colon. */
  datatype State = State(status: Status, frame: seq<byte>)

  /** What one byte brings about. */
  datatype Signal = Quiet | Overflow | BadHex | Complete(payload: seq<byte>)

  const IDLE := State(Idle, [])

  function Step(lenient: bool, s: State, b: byte): (State, Signal) {
    match s.status
    case Idle => (if b == COLON then State(Reception, []) else s, Quiet)
    case Reception =>
      if b == COLON then (State(Reception, []), Quiet)
      else if b == CR then (State(WaitingEnd, s.frame), Quiet)
      else if |s.frame| >= MAX_ASCII_PAYLOAD then (IDLE, Overflow)
      else if !IsHexChar(b, lenient) then (IDLE, BadHex)
      else (State(Reception, s.frame + [b]), Quiet)
    case WaitingEnd =>
      if b == COLON then (State(Reception, []), Quiet)
      else if b == LF then (IDLE, Complete(s.frame))
      else (IDLE, Quiet)
  }

  /** The automaton and what a chunk has brought about so far. */
  datatype Driven = Driven(state: State, overflows: nat, invalidHex: nat, completed: seq<seq<byte>>)

  function Start(s: State): Driven { Driven(s, 0, 0, []) }

  function Note(d: Driven, next: (State, Signal)): Driven {
    match next.1
    case Quiet => d.(state := next.0)
    case Overflow => d.(state := next.0, overflows := d.overflows + 1)
    case BadHex => d.(state := next.0, invalidHex := d.invalidHex + 1)
    case Complete(p) => d.(state := next.0, completed := d.completed + [p])
  }

  function Drive(lenient: bool, d: Driven, data: seq<byte>): Driven
    decreases |data|
  {
    if data == [] then d else Drive(lenient, Note(d, Step(lenient, d.state, data[0])), data[1..])
  }

  // ---------------------------------------------------------------- what is reported

  datatype Event = Frame(adu: Adu, raw: seq<byte>) | Failure(error: FramingError)

  function Failures(n: nat, e: FramingError): seq<Event> {
    if n == 0 then [] else [Failure(e)] + Failures(n - 1, e)
  }

  function EventOf(payload: seq<byte>): Event {
    match DecodePayload(payload)
    case Delivered(adu, raw) => Frame(adu, raw)
    case Refused(e) => Failure(e)
  }

  /** The reports of a chunk: overflows, then bad characters, then the completed frames. */
  function Reports(d: Driven): seq<Event> {
    Failures(d.overflows, InvalidData) + Failures(d.invalidHex, InvalidHex) + Deliver(d.completed)
  }

  function Deliver(payloads: seq<seq<byte>>): seq<Event> {
    if payloads == [] then [] else [EventOf(payloads[0])] + Deliver(payloads[1..])
  }

  class Connection {
    var status: Status
    var frame: seq<byte>

    constructor ()
      ensures State(status, frame) == IDLE
    {
      status, frame := Idle, [];
    }

    /** One byte, updating the state in place. */
    method Take(lenient: bool, b: byte) returns (signal: Signal)
      modifies this
      ensures (State(status, frame), signal) == Step(lenient, old(State(status, frame)), b)
    {
      signal := Quiet;
      match status {
        case Idle =>
          if b == COLON {
            status, frame := Reception, [];
          }
        case Reception =>
          if b == COLON {
            frame := [];
          } else if b == CR {
            status := WaitingEnd;
          } else if |frame| >= MAX_ASCII_PAYLOAD {
            status, frame, signal := Idle, [], Overflow;
          } else if !IsHexChar(b, lenient) {
            status, frame, signal := Idle, [], BadHex;
          } else {
            frame := frame + [b];
          }
        case WaitingEnd =>
          if b == COLON {
            status, frame := Reception, [];
          } else if b == LF {
            signal := Complete(frame);
            status, frame := Idle, [];
          } else {
            status, frame := Idle, [];
          }
      }
    }

    method DriveFsm(lenient: bool, data: seq<byte>) returns (events: seq<Event>)
      modifies this
      ensures var d := Drive(lenient, Start(old(State(status, frame))), data);
        State(status, frame) == d.state && events == Reports(d)
    {
      var completed: seq<seq<byte>>, overflows: nat, invalidHex: nat := [], 0, 0;
      ghost var start := Start(State(status, frame));
      for i := 0 to |data|
        invariant Drive(lenient, Driven(State(status, frame), overflows, invalidHex, completed), data[i..])
               == Drive(lenient, start, data)
      {
        var signal := Take(lenient, data[i]);
        assert data[i..][1..] == data[i + 1..];
        match signal {
          case Quiet =>
          case Overflow => overflows := overflows + 1;
          case BadHex => invalidHex := invalidHex + 1;
          case Complete(payload) => completed := completed + [payload];
        }
      }
      events := Failures(overflows, InvalidData) + Failures(invalidHex, InvalidHex);
      ghost var early := events;
      for i := 0 to |completed|
        invariant events + Deliver(completed[i..]) == early + Deliver(completed)
      {
        assert completed[i..][1..] == completed[i + 1..];
        events := events + [EventOf(completed[i])];
      }
      assert completed[|completed|..] == [] && events + [] == events;
    }
  }

  // ---------------------------------------------------------------- the cutting does not matter

  lemma {:induction false} DriveConcat(lenient: bool, d: Driven, a: seq<byte>, b: seq<byte>)
    ensures Drive(lenient, d, a + b) == Drive(lenient, Drive(lenient, d, a), b)
    decreases |a|
  {
    if a == [] {
      assert a + b == b;
    } else {
      assert (a + b)[0] == a[0] && (a + b)[1..] == a[1..] + b;
      DriveConcat(lenient, Note(d, Step(lenient, d.state, a[0])), a[1..], b);
    }
  }

  /** What was noted before, and then `d`. */
  function Add(before: Driven, d: Driven): Driven {
    Driven(d.state, before.overflows + d.overflows, before.invalidHex + d.invalidHex, before.completed + d.completed)
  }

  lemma {:induction false} DriveAdds(lenient: bool, before: Driven, d: Driven, data: seq<byte>)
    ensures Drive(lenient, Add(before, d), data) == Add(before, Drive(lenient, d, data))
    decreases |data|
  {
    if data != [] {
      var next := Step(lenient, d.state, data[0]);
      if next.1.Complete? {
        var p := [next.1.payload];
        assert before.completed + d.completed + p == before.completed + (d.completed + p);
      }
      DriveAdds(lenient, before, Note(d, next), data[1..]);
    }
  }

  function Frames(events: seq<Event>): seq<Event> {
    if events == [] then []
    else if events[0].Frame? then [events[0]] + Frames(events[1..])
    else Frames(events[1..])
  }

  /** How often an error is reported. */
  function Count(events: seq<Event>, e: FramingError): nat {
    if events == [] then 0 else (if events[0] == Failure(e) then 1 else 0) + Count(events[1..], e)
  }

  lemma {:induction false} ReportsConcat(a: seq<Event>, b: seq<Event>, e: FramingError)
    ensures Frames(a + b) == Frames(a) + Frames(b)
    ensures Count(a + b, e) == Count(a, e) + Count(b, e)
  {
    if a == [] {
      assert a + b == b;
    } else {
      assert (a + b)[0] == a[0] && (a + b)[1..] == a[1..] + b;
      ReportsConcat(a[1..], b, e);
    }
  }

  lemma {:induction false} DeliverConcat(a: seq<seq<byte>>, b: seq<seq<byte>>)
    ensures Deliver(a + b) == Deliver(a) + Deliver(b)
  {
    if a == [] {
      assert a + b == b;
    } else {
      assert (a + b)[0] == a[0] && (a + b)[1..] == a[1..] + b;
      DeliverConcat(a[1..], b);
    }
  }

  function CountIf(kind: FramingError, n: nat, e: FramingError): nat { if kind == e then n else 0 }

  lemma {:induction false} FailuresCount(n: nat, kind: FramingError, e: FramingError)
    ensures Frames(Failures(n, kind)) == [] && Count(Failures(n, kind), e) == CountIf(kind, n, e)
  {
    if n > 0 {
      assert Failures(n, kind)[1..] == Failures(n - 1, kind);
      FailuresCount(n - 1, kind, e);
    }
  }

  lemma ReportsSplit(d: Driven, e: FramingError)
    ensures Frames(Reports(d)) == Frames(Deliver(d.completed))
    ensures Count(Reports(d), e) ==
      CountIf(InvalidData, d.overflows, e) + CountIf(InvalidHex, d.invalidHex, e) + Count(Deliver(d.completed), e)
  {
    var o, h := Failures(d.overflows, InvalidData), Failures(d.invalidHex, InvalidHex);
    ReportsConcat(o, h, e);
    ReportsConcat(o + h, Deliver(d.completed), e);
    FailuresCount(d.overflows, InvalidData, e);
    FailuresCount(d.invalidHex, InvalidHex, e);
  }

  lemma DeliverSum(a: seq<seq<byte>>, b: seq<seq<byte>>, e: FramingError)
    ensures Frames(Deliver(a + b)) == Frames(Deliver(a)) + Frames(Deliver(b))
    ensures Count(Deliver(a + b), e) == Count(Deliver(a), e) + Count(Deliver(b), e)
  {
    DeliverConcat(a, b);
    ReportsConcat(Deliver(a), Deliver(b), e);
  }

  /** Reporting in two pieces what could be reported in one moves errors, and nothing else. */
  lemma ReportsAdd(before: Driven, d: Driven, e: FramingError)
    ensures Frames(Reports(Add(before, d))) == Frames(Reports(before)) + Frames(Reports(d))
    ensures Count(Reports(Add(before, d)), e) == Count(Reports(before), e) + Count(Reports(d), e)
  {
    ReportsSplit(before, e);
    ReportsSplit(d, e);
    ReportsSplit(Add(before, d), e);
    DeliverSum(before.completed, d.completed, e);
  }

  /** A connection receiving chunk after chunk. */
  function DriveAll(lenient: bool, s: State, chunks: seq<seq<byte>>): (State, seq<Event>)
    decreases |chunks|
  {
    if chunks == [] then (s, [])
    else
      var d := Drive(lenient, Start(s), chunks[0]);
      var rest := DriveAll(lenient, d.state, chunks[1..]);
      (rest.0, Reports(d) + rest.1)
  }

  /** FRAGMENTATION. However a stream of arbitrary bytes is cut, from whatever state: the same frames
      come out in the same order, every error comes out as often, and the automaton ends in the same
      state. */
  lemma {:induction false} AnyCutting(lenient: bool, s: State, chunks: seq<seq<byte>>, e: FramingError)
    ensures var whole, cut := Drive(lenient, Start(s), Concat(chunks)), DriveAll(lenient, s, chunks);
      cut.0 == whole.state && Frames(cut.1) == Frames(Reports(whole)) && Count(cut.1, e) == Count(Reports(whole), e)
    decreases |chunks|
  {
    if chunks == [] {
      ReportsSplit(Start(s), e);
    } else {
      var more := Concat(chunks[1..]);
      var d := Drive(lenient, Start(s), chunks[0]);
      DriveConcat(lenient, Start(s), chunks[0], more);
      AddNothing(d);
      DriveAdds(lenient, d, Start(d.state), more);
      ReportsAdd(d, Drive(lenient, Start(d.state), more), e);
      AnyCutting(lenient, d.state, chunks[1..], e);
      ReportsConcat(Reports(d), DriveAll(lenient, d.state, chunks[1..]).1, e);
    }
  }

  lemma AddNothing(d: Driven)
    ensures Add(d, Start(d.state)) == d
  {
    assert d.completed + [] == d.completed;
  }

  /** The order of the errors does depend on the cutting: an odd payload and then a bad character,
      in one chunk and in two. */
  lemma ErrorOrderDependsOnCutting()
    ensures var first, second := [COLON, 0x30, CR, LF], [COLON, 0x47];
      && DriveAll(false, IDLE, [first + second]).1 == [Failure(InvalidHex), Failure(InvalidData)]
      && DriveAll(false, IDLE, [first, second]).1 == [Failure(InvalidData), Failure(InvalidHex)]
  {
    var first, second := [COLON, 0x30, CR, LF], [COLON, 0x47];
    var odd := [0x30 as byte];
    DriveFramed(false, IDLE, odd);
    assert Framed(odd) == first;
    DriveConcat(false, Start(IDLE), first, second);
    BadSecond(Driven(IDLE, 0, 0, [odd]));
    BadSecond(Start(IDLE));
    OddReports(odd);
    assert [second][1..] == [] && [first, second][1..] == [second] && [first + second][1..] == [];
    assert DriveAll(false, IDLE, [second]).1 == [Failure(InvalidHex)] + [];
  }

  lemma OddReports(odd: seq<byte>)
    requires |odd| == 1
    ensures Reports(Driven(IDLE, 0, 1, [odd])) == [Failure(InvalidHex), Failure(InvalidData)]
    ensures Reports(Driven(IDLE, 0, 0, [odd])) == [Failure(InvalidData)]
    ensures Reports(Driven(IDLE, 0, 1, [])) == [Failure(InvalidHex)]
  {
    assert [odd][1..] == [];
    assert Deliver([odd]) == [Failure(InvalidData)] + [];
    assert Failures(1, InvalidHex) == [Failure(InvalidHex)] + [];
  }

  lemma BadSecond(d: Driven)
    requires d.state == IDLE
    ensures Drive(false, d, [COLON, 0x47]) == d.(invalidHex := d.invalidHex + 1)
  {
    assert [COLON, 0x47] == [COLON] + [0x47] && [0x47 as byte] == [0x47] + [];
    DriveOne(false, d, [0x47], COLON);
    DriveOne(false, d.(state := State(Reception, [])), [], 0x47);
  }

  // ---------------------------------------------------------------- what can be held

  /** Only hexadecimal characters are held, no more than the cap, and none when idle. */
  predicate Clean(lenient: bool, s: State) {
    AllHex(s.frame, lenient) && |s.frame| <= MAX_ASCII_PAYLOAD && (s.status == Idle ==> s.frame == [])
  }

  predicate AllClean(lenient: bool, payloads: seq<seq<byte>>) {
    forall i :: 0 <= i < |payloads| ==> AllHex(payloads[i], lenient) && |payloads[i]| <= MAX_ASCII_PAYLOAD
  }

  lemma {:induction false} DriveKeepsClean(lenient: bool, d: Driven, data: seq<byte>)
    requires Clean(lenient, d.state) && AllClean(lenient, d.completed)
    ensures Clean(lenient, Drive(lenient, d, data).state)
    ensures AllClean(lenient, Drive(lenient, d, data).completed)
    decreases |data|
  {
    if data != [] {
      DriveKeepsClean(lenient, Note(d, Step(lenient, d.state, data[0])), data[1..]);
    }
  }

  lemma LenientAcceptsMore(s: seq<byte>, lenient: bool)
    requires AllHex(s, lenient)
    ensures AllHex(s, true)
    ensures !lenient ==> Capitals(s) == s
  {}

  /** The decoder behind the automaton never meets a character it cannot decode, so its own error for
      one is never reported; and what is delivered is the encoding of the unit delivered, to the
      letter when lower-case letters are not accepted. */
  lemma CompletedDecodes(lenient: bool, payload: seq<byte>)
    requires AllHex(payload, lenient)
    ensures DecodePayload(payload) != Refused(InvalidHex)
    ensures EventOf(payload).Frame? ==>
      Encode(EventOf(payload).adu) == if lenient then Capitals(EventOf(payload).raw) else EventOf(payload).raw
  {
    LenientAcceptsMore(payload, lenient);
    if |payload| % 2 == 0 {
      UnhexIsHex(payload);
    }
    if EventOf(payload).Frame? {
      DeliveredIsEncoding(payload);
      assert Capitals(Framed(payload)) == Framed(Capitals(payload));
    }
  }

  predicate IsEncoding(lenient: bool, e: Event) {
    e.Frame? ==> Encode(e.adu) == if lenient then Capitals(e.raw) else e.raw
  }

  lemma {:induction false} DeliverIsEncodings(lenient: bool, payloads: seq<seq<byte>>)
    requires AllClean(lenient, payloads)
    ensures forall i :: 0 <= i < |Deliver(payloads)| ==>
      IsEncoding(lenient, Deliver(payloads)[i]) && Deliver(payloads)[i] != Failure(InvalidHex)
  {
    if payloads != [] {
      CompletedDecodes(lenient, payloads[0]);
      DeliverIsEncodings(lenient, payloads[1..]);
    }
  }

  lemma {:induction false} FailuresAt(n: nat, e: FramingError)
    ensures forall i :: 0 <= i < |Failures(n, e)| ==> Failures(n, e)[i] == Failure(e)
  {
    if n > 0 {
      FailuresAt(n - 1, e);
    }
  }

  /** In every run every delivered frame is the encoding of its unit. */
  lemma {:induction false} RunDeliversEncodings(lenient: bool, s: State, chunks: seq<seq<byte>>)
    requires Clean(lenient, s)
    ensures Clean(lenient, DriveAll(lenient, s, chunks).0)
    ensures forall i :: 0 <= i < |DriveAll(lenient, s, chunks).1| ==>
      IsEncoding(lenient, DriveAll(lenient, s, chunks).1[i])
    decreases |chunks|
  {
    if chunks != [] {
      var d := Drive(lenient, Start(s), chunks[0]);
      DriveKeepsClean(lenient, Start(s), chunks[0]);
      DeliverIsEncodings(lenient, d.completed);
      FailuresAt(d.overflows, InvalidData);
      FailuresAt(d.invalidHex, InvalidHex);
      RunDeliversEncodings(lenient, d.state, chunks[1..]);
    }
  }

  // ---------------------------------------------------------------- a unit comes through

  lemma DriveOne(lenient: bool, d: Driven, data: seq<byte>, b: byte)
    ensures Drive(lenient, d, [b] + data) == Drive(lenient, Note(d, Step(lenient, d.state, b)), data)
  {
    assert ([b] + data)[1..] == data;
  }

  lemma HexHolds(lenient: bool, s: State, b: byte)
    requires s.status == Reception && IsHexChar(b, false)
    ensures |s.frame| < MAX_ASCII_PAYLOAD ==> Step(lenient, s, b) == (State(Reception, s.frame + [b]), Quiet)
    ensures |s.frame| >= MAX_ASCII_PAYLOAD ==> Step(lenient, s, b) == (IDLE, Overflow)
  {
    HexIsNotFraming(b);
  }

  lemma {:induction false} DriveHex(lenient: bool, frame: seq<byte>, payload: seq<byte>)
    requires AllHex(payload, false) && |frame| + |payload| <= MAX_ASCII_PAYLOAD
    ensures Drive(lenient, Start(State(Reception, frame)), payload) == Start(State(Reception, frame + payload))
    decreases |payload|
  {
    if payload == [] {
      assert frame + [] == frame;
    } else {
      HexHolds(lenient, State(Reception, frame), payload[0]);
      assert frame + [payload[0]] + payload[1..] == frame + payload;
      DriveHex(lenient, frame + [payload[0]], payload[1..]);
    }
  }

  lemma {:induction false} DriveIdle(lenient: bool, d: Driven, data: seq<byte>)
    requires d.state == IDLE && forall i :: 0 <= i < |data| ==> data[i] != COLON
    ensures Drive(lenient, d, data) == d
    decreases |data|
  {
    if data != [] {
      DriveIdle(lenient, d, data[1..]);
    }
  }

  lemma {:induction false} DriveTooLong(lenient: bool, frame: seq<byte>, payload: seq<byte>, tail: seq<byte>)
    requires AllHex(payload, false) && |frame| <= MAX_ASCII_PAYLOAD < |frame| + |payload|
    requires forall i :: 0 <= i < |tail| ==> tail[i] != COLON
    ensures Drive(lenient, Start(State(Reception, frame)), payload + tail) == Driven(IDLE, 1, 0, [])
    decreases |payload|
  {
    var more := payload[1..] + tail;
    assert payload + tail == [payload[0]] + more;
    DriveOne(lenient, Start(State(Reception, frame)), more, payload[0]);
    HexHolds(lenient, State(Reception, frame), payload[0]);
    if |frame| >= MAX_ASCII_PAYLOAD {
      forall i | 0 <= i < |more| ensures more[i] != COLON {
        if i < |payload| - 1 {
          HexIsNotFraming(payload[i + 1]);
        }
      }
      DriveIdle(lenient, Driven(IDLE, 1, 0, []), more);
    } else {
      DriveTooLong(lenient, frame + [payload[0]], payload[1..], tail);
    }
  }

  lemma DriveEnd(lenient: bool, payload: seq<byte>)
    ensures Drive(lenient, Start(State(Reception, payload)), [CR, LF]) == Driven(IDLE, 0, 0, [payload])
  {
    DriveOne(lenient, Start(State(Reception, payload)), [LF], CR);
    DriveOne(lenient, Start(State(WaitingEnd, payload)), [], LF);
    assert [CR] + [LF] == [CR, LF] && [LF] + [] == [LF];
    assert [] + [payload] == [payload];
  }

  lemma DriveFramed(lenient: bool, s: State, payload: seq<byte>)
    requires AllHex(payload, false)
    ensures Drive(lenient, Start(s), Framed(payload)) ==
      if |payload| <= MAX_ASCII_PAYLOAD then Driven(IDLE, 0, 0, [payload]) else Driven(IDLE, 1, 0, [])
  {
    var end := [CR, LF];
    assert Framed(payload) == [COLON] + (payload + end);
    DriveOne(lenient, Start(s), payload + end, COLON);
    if |payload| <= MAX_ASCII_PAYLOAD {
      DriveConcat(lenient, Start(State(Reception, [])), payload, end);
      DriveHex(lenient, [], payload);
      assert [] + payload == payload;
      DriveEnd(lenient, payload);
    } else {
      DriveTooLong(lenient, [], payload, end);
    }
  }

  /** DELIVERY. From any state, in either mode, the encoding of a unit brings about exactly the
      delivery of that unit if it has at most 253 data bytes, and exactly one error otherwise. */
  lemma EncodingIsDelivered(lenient: bool, s: State, adu: Adu)
    ensures var d := Drive(lenient, Start(s), Encode(adu));
      && d.state == IDLE
      && Reports(d) == if |adu.data| <= 253 then [Frame(adu.(transaction := None), Encode(adu))]
                       else [Failure(InvalidData)]
  {
    var payload := Hex(Body(adu));
    HexIsHex(Body(adu));
    DriveFramed(lenient, s, payload);
    EncodeDelivered(adu);
    BodyDecodes(adu, payload);
    if |adu.data| <= 253 {
      assert Deliver([payload]) == [EventOf(payload)];
    } else {
      assert Failures(1, InvalidData) == [Failure(InvalidData)] + [];
    }
  }

  function Encodings(adus: seq<Adu>): seq<seq<byte>> {
    if adus == [] then [] else [Encode(adus[0])] + Encodings(adus[1..])
  }

  function AllDelivered(adus: seq<Adu>): seq<Event> {
    if adus == [] then [] else [Frame(adus[0].(transaction := None), Encode(adus[0]))] + AllDelivered(adus[1..])
  }

  lemma {:induction false} EncodingsDelivered(lenient: bool, s: State, adus: seq<Adu>)
    requires forall i :: 0 <= i < |adus| ==> |adus[i].data| <= 253
    ensures DriveAll(lenient, s, Encodings(adus)).1 == AllDelivered(adus)
    decreases |adus|
  {
    if adus != [] {
      EncodingIsDelivered(lenient, s, adus[0]);
      EncodingsDelivered(lenient, IDLE, adus[1..]);
      assert Encodings(adus)[1..] == Encodings(adus[1..]);
    }
  }

  lemma {:induction false} DeliveredAreFrames(adus: seq<Adu>, e: FramingError)
    ensures Frames(AllDelivered(adus)) == AllDelivered(adus) && Count(AllDelivered(adus), e) == 0
  {
    if adus != [] {
      DeliveredAreFrames(adus[1..], e);
      assert AllDelivered(adus)[1..] == AllDelivered(adus[1..]);
    }
  }

  /** Units encoded one after the other and cut anyhow come out in order, with no error, from
      whatever state a previous disturbance has left. */
  lemma UnitsSurviveCutting(lenient: bool, s: State, adus: seq<Adu>, chunks: seq<seq<byte>>, e: FramingError)
    requires forall i :: 0 <= i < |adus| ==> |adus[i].data| <= 253
    requires Concat(chunks) == Concat(Encodings(adus))
    ensures Frames(DriveAll(lenient, s, chunks).1) == AllDelivered(adus)
    ensures Count(DriveAll(lenient, s, chunks).1, e) == 0
  {
    AnyCutting(lenient, s, chunks, e);
    AnyCutting(lenient, s, Encodings(adus), e);
    EncodingsDelivered(lenient, s, adus);
    DeliveredAreFrames(adus, e);
  }
}
