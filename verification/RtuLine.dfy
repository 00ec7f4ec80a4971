/** The RTU receive side on a serial line, where silences delimit frames: section 2.5.1.1 of MODBUS
    over Serial Line V1.02. */
module RtuLine {
  import opened Bytes
  import opened Adus
  import opened Streams
  import opened RtuFramer
  import opened RtuStream
  import opened RtuFragments

  /** A chunk, an expired t1.5 gap, or an expired t3.5 silence. The two timers are events. */
  datatype LineEvent = Data(bytes: seq<byte>) | Gap15 | Silence35

  /** The connection's buffer and its t1.5 flag; and, to state what the receiver does, every byte
      received, every event reported, and how many bytes had been received at each silence. */
  datatype Line = Line(held: seq<byte>, t15: bool, fed: seq<byte>, log: seq<Event>, marks: set<nat>)

  const IDLE := Line([], false, [], [], {})

  predicate Fits(s: Line) { |s.held| <= POOL_SIZE }

  function Step(extract: Extractor, s: Line, e: LineEvent): Line
    requires Sound(extract) && Fits(s)
  {
    match e
    case Data(d) =>
      var o := DataEvent(extract, true, s.t15, s.held, d);
      Line(o.rest, false, s.fed + d, s.log + o.events, s.marks)
    case Gap15 => s.(t15 := s.held != [], marks := s.marks + {|s.fed|})
    case Silence35 =>
      var o := Flush(extract, true, s.t15, s.held);
      Line(o.rest, false, s.fed, s.log + o.events, s.marks + {|s.fed|})
  }

  // ---------------------------------------------------------------- no frame spans a silence

  /** Where in the stream the bytes of an event begin. */
  function Position(log: seq<Event>, i: nat): nat
    requires i <= |log|
  {
    |BytesOf(log[..i])|
  }

  predicate Spans(log: seq<Event>, i: nat, mark: nat)
    requires i < |log|
  {
    log[i].Emit? && Position(log, i) < mark < Position(log, i) + |log[i].frame|
  }

  ghost predicate NoneSpans(log: seq<Event>, marks: set<nat>) {
    forall i, m :: 0 <= i < |log| && m in marks ==> !Spans(log, i, m)
  }

  /** The bytes so far are in the log, in order, and then in the buffer; no frame spans a silence;
      and every silence lies before the bytes held, or is the gap that has just cut them. */
  ghost predicate Inv(s: Line) {
    && |s.held| < MAX_FRAME_LENGTH
    && BytesOf(s.log) + s.held == s.fed
    && NoneSpans(s.log, s.marks)
    && forall m :: m in s.marks ==> m <= |BytesOf(s.log)| || (s.t15 && s.held != [] && m == |s.fed|)
  }

  lemma {:induction false} BytesOfGrows(log: seq<Event>, i: nat)
    requires i <= |log|
    ensures |BytesOf(log[..i])| <= |BytesOf(log)|
    ensures i < |log| ==> |BytesOf(log[..i])| + |BytesOfEvent(log[i])| <= |BytesOf(log)|
  {
    assert log == log[..i] + log[i..];
    BytesOfConcat(log[..i], log[i..]);
  }

  /** Events reported between silences span none of them. */
  lemma AppendBetween(log: seq<Event>, more: seq<Event>, marks: set<nat>)
    requires NoneSpans(log, marks)
    requires forall m :: m in marks ==> m <= |BytesOf(log)| || |BytesOf(log + more)| <= m
    ensures NoneSpans(log + more, marks)
  {
    forall i, m | 0 <= i < |log + more| && m in marks ensures !Spans(log + more, i, m) {
      if i < |log| {
        assert (log + more)[..i] == log[..i] && !Spans(log, i, m);
      } else {
        assert (log + more)[..i] == log + more[..i - |log|];
        BytesOfConcat(log, more[..i - |log|]);
        BytesOfGrows(log + more, i);
      }
    }
  }

  /** Events that are not frames span nothing. */
  lemma AppendDiscards(log: seq<Event>, more: seq<Event>, marks: set<nat>)
    requires NoneSpans(log, marks) && forall e :: e in more ==> !e.Emit?
    ensures NoneSpans(log + more, marks)
  {
    forall i, m | 0 <= i < |log + more| && m in marks ensures !Spans(log + more, i, m) {
      if i < |log| {
        assert (log + more)[..i] == log[..i] && !Spans(log, i, m);
      } else {
        assert (log + more)[i] in more;
      }
    }
  }

  /** A silence after everything reported is spanned by none of it. */
  lemma NewMark(log: seq<Event>, marks: set<nat>, m: nat)
    requires NoneSpans(log, marks) && |BytesOf(log)| <= m
    ensures NoneSpans(log, marks + {m})
  {
    forall i, n | 0 <= i < |log| && n in marks + {m} ensures !Spans(log, i, n) {
      BytesOfGrows(log, i);
      if n in marks {
        assert !Spans(log, i, n);
      }
    }
  }

  lemma DataEventOpens(extract: Extractor, strict: bool, t15: bool, b: seq<byte>, d: seq<byte>)
    returns (later: seq<Event>)
    requires Sound(extract) && |b| <= POOL_SIZE
    ensures DataEvent(extract, strict, t15, b, d).events == Opening(t15, b).events + later
  {
    var open := Opening(t15, b);
    var bare := Outcome([], open.rest, open.t15);
    ConsumeAfter(extract, strict, open.events, bare, d);
    assert After(open.events, bare) == open;
    var fed := Consume(extract, strict, bare, d);
    later := fed.events;
    if !strict || |fed.rest| >= MAX_FRAME_LENGTH {
      var flushed := Flush(extract, strict, fed.t15, fed.rest).events;
      Regroup(open.events, fed.events, flushed);
      later := later + flushed;
    }
  }

  lemma DataKeepsInv(extract: Extractor, s: Line, d: seq<byte>)
    requires Sound(extract) && Inv(s)
    ensures Inv(Step(extract, s, Data(d)))
  {
    var t := Step(extract, s, Data(d));
    var o := DataEvent(extract, true, s.t15, s.held, d);
    var open := Opening(s.t15, s.held);
    DataEventConserves(extract, true, s.t15, s.held, d);
    BytesOfConcat(s.log, o.events);
    Regroup(BytesOf(s.log), BytesOf(o.events), o.rest);
    Regroup(BytesOf(s.log), s.held, d);
    var later := DataEventOpens(extract, true, s.t15, s.held, d);
    AppendDiscards(s.log, open.events, s.marks);
    OpeningConserves(s.t15, s.held);
    BytesOfConcat(s.log, open.events);
    Regroup(s.log, open.events, later);
    AppendBetween(s.log + open.events, later, s.marks);
    BytesOfConcat(s.log + open.events, later);
  }

  lemma SilenceKeepsInv(extract: Extractor, s: Line)
    requires Sound(extract) && Inv(s)
    ensures Inv(Step(extract, s, Silence35))
    ensures Step(extract, s, Silence35).held == [] && !Step(extract, s, Silence35).t15
  {
    var o := Flush(extract, true, s.t15, s.held);
    FlushBound(extract, true, s.t15, s.held);
    FlushConserves(extract, true, s.t15, s.held);
    BytesOfConcat(s.log, o.events);
    AppendBetween(s.log, o.events, s.marks);
    NewMark(s.log + o.events, s.marks, |s.fed|);
  }

  lemma StepKeepsInv(extract: Extractor, s: Line, e: LineEvent)
    requires Sound(extract) && Inv(s)
    ensures Inv(Step(extract, s, e))
  {
    match e
    case Data(d) => DataKeepsInv(extract, s, d);
    case Gap15 => NewMark(s.log, s.marks, |s.fed|);
    case Silence35 => SilenceKeepsInv(extract, s);
  }

  ghost function Run(extract: Extractor, s: Line, events: seq<LineEvent>): Line
    requires Sound(extract) && Inv(s)
    decreases |events|
  {
    if events == [] then s
    else
      StepKeepsInv(extract, s, events[0]);
      Run(extract, Step(extract, s, events[0]), events[1..])
  }

  lemma {:induction false} RunKeepsInv(extract: Extractor, s: Line, events: seq<LineEvent>)
    requires Sound(extract) && Inv(s)
    ensures Inv(Run(extract, s, events))
    decreases |events|
  {
    if events != [] {
      StepKeepsInv(extract, s, events[0]);
      RunKeepsInv(extract, Step(extract, s, events[0]), events[1..]);
    }
  }

  /** SILENCE SAFETY. In every run of arbitrary chunks, gaps and silences, with arbitrary predictors,
      every byte is accounted for in order and no frame has bytes from both sides of a t3.5 silence
      or of an expired t1.5 gap. */
  lemma NoFrameSpansASilence(extract: Extractor, events: seq<LineEvent>)
    requires Sound(extract)
    ensures Inv(IDLE)
    ensures var s := Run(extract, IDLE, events);
      BytesOf(s.log) + s.held == s.fed && NoneSpans(s.log, s.marks)
  {
    RunKeepsInv(extract, IDLE, events);
  }

  // ---------------------------------------------------------------- a frame and a silence

  /** A serial connection receiving the chunks of one transmission and then the silence after it. */
  function Transmission(extract: Extractor, b: seq<byte>, chunks: seq<seq<byte>>): Outcome
    requires Sound(extract) && |b| <= POOL_SIZE
    decreases |chunks|
  {
    if chunks == [] then Flush(extract, true, false, b)
    else
      var o := DataEvent(extract, true, false, b, chunks[0]);
      DataEventConserves(extract, true, false, b, chunks[0]);
      After(o.events, Transmission(extract, o.rest, chunks[1..]))
  }

  lemma ConsumeSmall(extract: Extractor, strict: bool, b: seq<byte>, d: seq<byte>)
    requires Sound(extract) && |b + d| <= POOL_SIZE
    ensures Consume(extract, strict, Outcome([], b, false), d) == Outcome([], b + d, false)
  {
    if d != [] {
      assert d[..|d|] == d && d[|d|..] == [];
    } else {
      assert b + d == b;
    }
  }

  lemma WholeFlush(extract: Extractor, f: seq<byte>)
    requires Sound(extract) && Recognised(extract, f)
    ensures Flush(extract, true, false, f) == Outcome([Emit(f)], [], false)
  {
    assert f + [] == f;
    FlushTakesFrame(extract, true, f, []);
  }

  lemma {:induction false} QuietTransmission(extract: Extractor, chunks: seq<seq<byte>>)
    requires Sound(extract) && Concat(chunks) == []
    ensures Transmission(extract, [], chunks) == Outcome([], [], false)
    decreases |chunks|
  {
    if chunks != [] {
      assert chunks[0] == [] && Concat(chunks[1..]) == [];
      ConsumeSmall(extract, true, [], []);
      assert [] + chunks[0] == [];
      QuietTransmission(extract, chunks[1..]);
    }
  }

  lemma TransmissionStep(extract: Extractor, f: seq<byte>, b: seq<byte>, d: seq<byte>)
    requires Sound(extract) && Recognised(extract, f) && b + d <= f
    ensures var o := DataEvent(extract, true, false, b, d);
      o == Outcome([], b + d, false) || (b + d == f && o == Outcome([Emit(f)], [], false))
  {
    ConsumeSmall(extract, true, b, d);
    if |b + d| >= MAX_FRAME_LENGTH {
      assert b + d == f;
      WholeFlush(extract, f);
    }
  }

  /** DELIVERY. A frame the receiver knows, cut into chunks of any number and size and followed by
      the t3.5 silence, is emitted once, with no error, and nothing is held. */
  lemma {:induction false} FrameThenSilence(extract: Extractor, f: seq<byte>, b: seq<byte>, chunks: seq<seq<byte>>)
    requires Sound(extract) && Recognised(extract, f) && b + Concat(chunks) == f
    ensures Transmission(extract, b, chunks) == Outcome([Emit(f)], [], false)
    decreases |chunks|
  {
    if chunks == [] {
      assert b == f;
      WholeFlush(extract, f);
    } else {
      var d, more := chunks[0], Concat(chunks[1..]);
      Regroup(b, d, more);
      TransmissionStep(extract, f, b, d);
      if DataEvent(extract, true, false, b, d).events == [] {
        FrameThenSilence(extract, f, b + d, chunks[1..]);
        assert [] + [Emit(f)] == [Emit(f)];
      } else {
        assert more == [] by { assert |(b + d) + more| == |b + d|; }
        QuietTransmission(extract, chunks[1..]);
        assert [Emit(f)] + [] == [Emit(f)];
      }
    }
  }

  /** The chunks of one transmission and the silence after it, on the line. */
  function OnLine(chunks: seq<seq<byte>>): seq<LineEvent> {
    if chunks == [] then [Silence35] else [Data(chunks[0])] + OnLine(chunks[1..])
  }

  lemma RunOne(extract: Extractor, s: Line, e: LineEvent, more: seq<LineEvent>)
    requires Sound(extract) && Inv(s)
    ensures Inv(Step(extract, s, e)) && Run(extract, s, [e] + more) == Run(extract, Step(extract, s, e), more)
  {
    StepKeepsInv(extract, s, e);
    assert ([e] + more)[1..] == more;
  }

  lemma {:induction false} LineTransmits(
    extract: Extractor, s: Line, chunks: seq<seq<byte>>, more: seq<LineEvent>) returns (t: Line)
    requires Sound(extract) && Inv(s) && !s.t15
    ensures var o := Transmission(extract, s.held, chunks);
      Inv(t) && t.log == s.log + o.events && t.held == o.rest && !t.t15
    ensures Run(extract, s, OnLine(chunks) + more) == Run(extract, t, more)
    decreases |chunks|
  {
    if chunks == [] {
      RunOne(extract, s, Silence35, more);
      t := Step(extract, s, Silence35);
    } else {
      assert OnLine(chunks) + more == [Data(chunks[0])] + (OnLine(chunks[1..]) + more);
      RunOne(extract, s, Data(chunks[0]), OnLine(chunks[1..]) + more);
      var next := Step(extract, s, Data(chunks[0]));
      t := LineTransmits(extract, next, chunks[1..], more);
      var o := DataEvent(extract, true, false, s.held, chunks[0]);
      Regroup(s.log, o.events, Transmission(extract, o.rest, chunks[1..]).events);
    }
  }

  function AllOnLine(cuttings: seq<seq<seq<byte>>>): seq<LineEvent> {
    if cuttings == [] then [] else OnLine(cuttings[0]) + AllOnLine(cuttings[1..])
  }

  /** IN TURN. Frames the receiver knows, each in any cutting and followed by the silence, on a line with
      nothing held: each is emitted once, in order, with no error, and again nothing is held. */
  lemma {:induction false} FramesInTurn(
    extract: Extractor, s: Line, frames: seq<seq<byte>>, cuttings: seq<seq<seq<byte>>>)
    requires Sound(extract) && Inv(s) && !s.t15 && s.held == [] && AllRecognised(extract, frames)
    requires |cuttings| == |frames| && forall i :: 0 <= i < |frames| ==> Concat(cuttings[i]) == frames[i]
    ensures var t := Run(extract, s, AllOnLine(cuttings));
      t.log == s.log + Emits(frames) && t.held == [] && !t.t15
    decreases |frames|
  {
    if frames == [] {
      assert s.log + [] == s.log;
    } else {
      var t := LineTransmits(extract, s, cuttings[0], AllOnLine(cuttings[1..]));
      assert Recognised(extract, frames[0]) && [] + Concat(cuttings[0]) == frames[0];
      FrameThenSilence(extract, frames[0], [], cuttings[0]);
      FramesInTurn(extract, t, frames[1..], cuttings[1..]);
      Regroup(s.log, [Emit(frames[0])], Emits(frames[1..]));
    }
  }

  // ---------------------------------------------------------------- a silence too early

  /** A silence after a proper part of a known frame: nothing is emitted, the part is given up, and the
      one error says whether a t1.5 gap came first. */
  lemma PartThenSilence(extract: Extractor, f: seq<byte>, part: seq<byte>, t15: bool)
    requires Sound(extract) && Recognised(extract, f) && part < f && part != []
    ensures Flush(extract, true, t15, part)
         == Outcome([Fail(if t15 then T15Exceeded else IncompleteFrame), Discard(part)], [], false)
  {
    assert part == f[..|part|];
  }

  /** A silence after bytes that fail the check: nothing is emitted and the one error says so. */
  lemma FailedCheckThenSilence(extract: Extractor, b: seq<byte>, t15: bool)
    requires Sound(extract) && b != [] && extract(b) == Skip
    ensures Flush(extract, true, t15, b) == Outcome([Fail(CrcCheckFailed), Discard(b)], [], false)
  {}

  /** A chunk after a t1.5 gap inside a frame: the part before the gap is reported and given up, and the
      chunk is received as by an idle connection. */
  lemma GapThenData(extract: Extractor, part: seq<byte>, d: seq<byte>)
    requires Sound(extract) && part != [] && |part| <= POOL_SIZE
    ensures DataEvent(extract, true, true, part, d)
         == After([Fail(T15Exceeded), Discard(part)], DataEvent(extract, true, false, [], d))
  {
    var open := [Fail(T15Exceeded), Discard(part)];
    var bare := Outcome([], [], false);
    ConsumeAfter(extract, true, open, bare, d);
    assert After(open, bare) == Outcome(open, [], false);
    var fed := Consume(extract, true, bare, d);
    if |fed.rest| >= MAX_FRAME_LENGTH {
      Regroup(open, fed.events, Flush(extract, true, fed.t15, fed.rest).events);
    }
  }
}
