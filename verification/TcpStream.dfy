/** The TCP receive side over a stream cut into chunks. */
module TcpStream {
  import opened Bytes
  import opened Adus
  import opened Streams
  import opened Tcp

  /** What is reported of a buffer, and what is kept of it. */
  datatype Received = Received(events: seq<Event>, rest: seq<byte>)

  /** A frame is a nonempty piece of the buffer. The theorems hold for any such extraction. */
  ghost predicate Sound(extract: Extractor) {
    forall b :: extract(b).Frame? ==> 0 < extract(b).total <= |b|
  }

  lemma ExtractionIsSound()
    ensures Sound(TryExtractFrame)
  {
    forall b | TryExtractFrame(b).Frame? ensures 0 < TryExtractFrame(b).total <= |b| {
      ExtractedIsEncoding(b, 0);
    }
  }

  function Process(extract: Extractor, b: seq<byte>): Received
    requires Sound(extract)
    decreases |b|
  {
    match extract(b)
    case Insufficient => Received([], b)
    case Invalid => Received([Fail(InvalidData), Discard(b)], [])
    case Frame(n) => Prepend(b[..n], Process(extract, b[n..]))
  }

  function Prepend(frame: seq<byte>, r: Received): Received { r.(events := [Emit(frame)] + r.events) }

  function After(before: seq<Event>, r: Received): Received { r.(events := before + r.events) }

  lemma AfterFrame(extract: Extractor, events: seq<Event>, b: seq<byte>)
    requires Sound(extract) && extract(b).Frame?
    ensures var n := extract(b).total;
      After(events, Process(extract, b)) == After(events + [Emit(b[..n])], Process(extract, b[n..]))
  {
    Regroup(events, [Emit(b[..extract(b).total])], Process(extract, b[extract(b).total..]).events);
  }

  class Connection {
    var buffer: seq<byte>

    constructor ()
      ensures buffer == []
    {
      buffer := [];
    }

    method ProcessDataEvent(extract: Extractor, data: seq<byte>) returns (events: seq<Event>)
      requires Sound(extract)
      modifies this
      ensures Received(events, buffer) == Process(extract, old(buffer) + data)
    {
      buffer := buffer + data;
      events := [];
      ghost var whole := Process(extract, buffer);
      assert [] + whole.events == whole.events;
      while true
        invariant After(events, Process(extract, buffer)) == whole
        decreases |buffer|
      {
        match extract(buffer) {
          case Frame(total) =>
            AfterFrame(extract, events, buffer);
            events := events + [Emit(buffer[..total])];
            buffer := buffer[total..];
          case Insufficient =>
            assert events + [] == events;
            break;
          case Invalid =>
            events := events + [Fail(InvalidData), Discard(buffer)];
            buffer := [];
            break;
        }
      }
    }
  }

  // ---------------------------------------------------------------- arbitrary bytes

  ghost predicate Yields(extract: Extractor, good: seq<byte> -> bool) {
    forall b :: extract(b).Frame? && extract(b).total <= |b| ==> good(b[..extract(b).total])
  }

  predicate Checked(good: seq<byte> -> bool, events: seq<Event>) {
    forall i :: 0 <= i < |events| && events[i].Emit? ==> good(events[i].frame)
  }

  predicate Conserves(r: Received, b: seq<byte>) { BytesOf(r.events) + r.rest == b }

  lemma PrependConserves(n: nat, b: seq<byte>, r: Received)
    requires n <= |b| && Conserves(r, b[n..])
    ensures Conserves(Prepend(b[..n], r), b)
  {
    assert Prepend(b[..n], r).events[1..] == r.events;
    Regroup(b[..n], BytesOf(r.events), r.rest);
    assert b[..n] + b[n..] == b;
  }

  lemma StopConserves(extract: Extractor, b: seq<byte>)
    requires Sound(extract) && !extract(b).Frame?
    ensures Conserves(Process(extract, b), b)
  {
    BytesOfFailure(InvalidData, b);
    assert b + [] == b && [] + b == b;
  }

  lemma {:induction false} ProcessConserves(extract: Extractor, b: seq<byte>)
    requires Sound(extract)
    ensures Conserves(Process(extract, b), b)
    decreases |b|
  {
    if extract(b).Frame? {
      var n := extract(b).total;
      ProcessConserves(extract, b[n..]);
      PrependConserves(n, b, Process(extract, b[n..]));
    } else {
      StopConserves(extract, b);
    }
  }

  lemma {:induction false} ProcessIsChecked(extract: Extractor, good: seq<byte> -> bool, b: seq<byte>)
    requires Sound(extract) && Yields(extract, good)
    ensures Checked(good, Process(extract, b).events)
    ensures Process(extract, b).rest == [] || extract(Process(extract, b).rest) == Insufficient
    decreases |b|
  {
    if extract(b).Frame? {
      ProcessIsChecked(extract, good, b[extract(b).total..]);
    }
  }

  /** Whatever arrives: frames, discarded bytes and what is kept are, in order, what was held and what
      arrived; every frame is the encoding of the unit sent on with it; and less than the longest
      frame is kept. */
  lemma EmittedIsEncoding(b: seq<byte>, data: seq<byte>)
    ensures Sound(TryExtractFrame)
    ensures var r := Process(TryExtractFrame, b + data);
      && BytesOf(r.events) + r.rest == b + data && |r.rest| < MAX_TCP_FRAME
      && Checked(f => IsEncoding(f, 0), r.events)
  {
    ExtractionIsSound();
    ProcessConserves(TryExtractFrame, b + data);
    forall b | TryExtractFrame(b).Frame? && TryExtractFrame(b).total <= |b|
      ensures IsEncoding(b[..TryExtractFrame(b).total], 0)
    {
      ExtractedIsEncoding(b, 0);
    }
    ProcessIsChecked(TryExtractFrame, f => IsEncoding(f, 0), b + data);
    var rest := Process(TryExtractFrame, b + data).rest;
    if rest != [] {
      WaitingIsShort(rest);
    }
  }

  // ---------------------------------------------------------------- any cutting

  ghost predicate Recognised(extract: Extractor, f: seq<byte>) {
    && f != []
    && (forall more :: extract(f + more) == Frame(|f|))
    && (forall k :: 0 <= k < |f| ==> extract(f[..k]) == Insufficient)
  }

  ghost predicate AllRecognised(extract: Extractor, frames: seq<seq<byte>>) {
    forall i :: 0 <= i < |frames| ==> Recognised(extract, frames[i])
  }

  /** What parsing a stream of frames gives: the first `k` emitted, and a part of the next kept. */
  predicate Gives(r: Received, frames: seq<seq<byte>>, k: nat, b: seq<byte>) {
    Taken(frames, k, b, r.rest) && Partial(frames[k..], r.rest) && r.events == Emits(frames[..k])
  }

  lemma GivesCons(frames: seq<seq<byte>>, r: Received, k: nat, b: seq<byte>)
    requires frames != [] && Gives(r, frames[1..], k, b)
    ensures Gives(Prepend(frames[0], r), frames, k + 1, frames[0] + b)
  {
    var front := frames[..k + 1];
    assert front[0] == frames[0] && front[1..] == frames[1..][..k];
    assert frames[1..][k..] == frames[k + 1..];
    Regroup(frames[0], Concat(frames[1..][..k]), r.rest);
  }

  lemma GivesNothing(frames: seq<seq<byte>>, b: seq<byte>)
    requires Partial(frames, b)
    ensures Gives(Received([], b), frames, 0, b)
  {
    assert frames[0..] == frames && frames[..0] == [] && [] + b == b;
  }

  lemma TakesFrame(extract: Extractor, f: seq<byte>, more: seq<byte>)
    requires Sound(extract) && Recognised(extract, f)
    ensures Process(extract, f + more) == Prepend(f, Process(extract, more))
  {
    assert (f + more)[..|f|] == f && (f + more)[|f|..] == more;
  }

  lemma Waits(extract: Extractor, f: seq<byte>, b: seq<byte>)
    requires Sound(extract) && Recognised(extract, f) && b < f
    ensures Process(extract, b) == Received([], b)
  {
    assert b == f[..|b|];
  }

  lemma {:induction false} ProcessParses(extract: Extractor, frames: seq<seq<byte>>, b: seq<byte>) returns (k: nat)
    requires Sound(extract) && AllRecognised(extract, frames) && extract([]) == Insufficient && Begins(frames, b)
    ensures Gives(Process(extract, b), frames, k, b)
    decreases |frames|
  {
    k := 0;
    if frames == [] {
      GivesNothing(frames, b);
    } else {
      var f := frames[0];
      assert Recognised(extract, f) && Concat(frames) == f + Concat(frames[1..]);
      if |b| < |f| {
        Waits(extract, f, b);
        GivesNothing(frames, b);
      } else {
        var more := b[|f|..];
        assert b == f + more;
        TakesFrame(extract, f, more);
        CancelFront(f, more, Concat(frames[1..]));
        k := ProcessParses(extract, frames[1..], more);
        GivesCons(frames, Process(extract, more), k, more);
        k := k + 1;
      }
    }
  }

  /** A connection receiving chunk after chunk. */
  function Run(extract: Extractor, b: seq<byte>, chunks: seq<seq<byte>>): Received
    requires Sound(extract)
    decreases |chunks|
  {
    if chunks == [] then Received([], b)
    else
      var r := Process(extract, b + chunks[0]);
      After(r.events, Run(extract, r.rest, chunks[1..]))
  }

  lemma GivesTwice(r: Received, s: Received, frames: seq<seq<byte>>, k: nat, b: seq<byte>, more: seq<byte>, j: nat)
    requires Gives(r, frames, k, b) && Gives(s, frames[k..], j, r.rest + more)
    ensures Gives(After(r.events, s), frames, k + j, b + more)
  {
    TakenTwice(frames, k, b, r.rest, more, j, s.rest);
    assert frames[k..][j..] == frames[k + j..];
  }

  lemma RunStep(extract: Extractor, frames: seq<seq<byte>>, b: seq<byte>, chunks: seq<seq<byte>>)
    returns (r: Received, k: nat)
    requires Sound(extract) && AllRecognised(extract, frames) && extract([]) == Insufficient
    requires chunks != [] && Begins(frames, b + Concat(chunks))
    ensures Gives(r, frames, k, b + chunks[0]) && Partial(frames[k..], r.rest)
    ensures Begins(frames[k..], r.rest + Concat(chunks[1..]))
    ensures Run(extract, b, chunks) == After(r.events, Run(extract, r.rest, chunks[1..]))
  {
    var more := Concat(chunks[1..]);
    Regroup(b, chunks[0], more);
    ConcatBegins(frames, b + chunks[0], more);
    k := ProcessParses(extract, frames, b + chunks[0]);
    r := Process(extract, b + chunks[0]);
    RestBegins(frames, k, b + chunks[0], r.rest, more);
  }

  lemma LaterRecognised(extract: Extractor, frames: seq<seq<byte>>, i: nat)
    requires AllRecognised(extract, frames) && i <= |frames|
    ensures AllRecognised(extract, frames[i..])
  {}

  lemma {:induction false} RunParses(extract: Extractor, frames: seq<seq<byte>>, b: seq<byte>, chunks: seq<seq<byte>>)
    returns (k: nat)
    requires Sound(extract) && AllRecognised(extract, frames) && extract([]) == Insufficient
    requires Partial(frames, b) && Begins(frames, b + Concat(chunks))
    ensures Gives(Run(extract, b, chunks), frames, k, b + Concat(chunks))
    decreases |chunks|
  {
    if chunks == [] {
      k := 0;
      GivesNothing(frames, b);
      assert b + [] == b;
    } else {
      var r, i := RunStep(extract, frames, b, chunks);
      LaterRecognised(extract, frames, i);
      var j := RunParses(extract, frames[i..], r.rest, chunks[1..]);
      GivesTwice(r, Run(extract, r.rest, chunks[1..]), frames, i, b + chunks[0], Concat(chunks[1..]), j);
      Regroup(b, chunks[0], Concat(chunks[1..]));
      k := i + j;
    }
  }

  /** A stream of frames the receiver knows and a proper part of one more, in any cutting. */
  lemma AnyCutting(
    extract: Extractor, frames: seq<seq<byte>>, next: seq<byte>, part: seq<byte>, chunks: seq<seq<byte>>)
    requires Sound(extract) && AllRecognised(extract, frames + [next]) && extract([]) == Insufficient
    requires part < next && Concat(chunks) == Concat(frames) + part
    ensures Run(extract, [], chunks) == Received(Emits(frames), part)
  {
    var all := frames + [next];
    assert all[..|frames|] == frames && all[|frames|..] == [next];
    ConcatSplit(all, |frames|);
    assert Concat([next]) == next + Concat([]);
    assert Recognised(extract, all[0]) && Partial(all, []);
    assert [] + Concat(chunks) == Concat(chunks);
    PartBegins(Concat(frames), part, next);
    var k := RunParses(extract, all, [], chunks);
    ParsedOnce(all, k, Concat(chunks), Run(extract, [], chunks).rest, |frames|, part);
  }

  /** One such frame in any cutting. */
  lemma OneFrameAnyCutting(extract: Extractor, frame: seq<byte>, chunks: seq<seq<byte>>)
    requires Sound(extract) && Recognised(extract, frame) && extract([]) == Insufficient && Concat(chunks) == frame
    ensures Run(extract, [], chunks) == Received([Emit(frame)], [])
  {
    OneFrame(frame);
    assert [] < frame && frame + [] == frame;
    AnyCutting(extract, [frame], frame, [], chunks);
  }

  lemma EncodingIsRecognised(adu: Adu)
    requires |adu.data| <= 252
    ensures Recognised(TryExtractFrame, Encode(adu, 0))
  {
    EncodeParts(adu, 0);
    forall more ensures TryExtractFrame(Encode(adu, 0) + more) == Frame(|Encode(adu, 0)|) {
      EncodingIsExtracted(adu, 0, more);
    }
    forall k | 0 <= k < |Encode(adu, 0)| ensures TryExtractFrame(Encode(adu, 0)[..k]) == Insufficient {
      PartDecidesNothing(adu, 0, k);
    }
  }

  lemma WaitsForTheFirst()
    ensures TryExtractFrame([]) == Insufficient
  {}

  function EncodeAll(adus: seq<Adu>): (frames: seq<seq<byte>>)
    ensures |frames| == |adus|
  {
    seq(|adus|, i requires 0 <= i < |adus| => Encode(adus[i], 0))
  }

  /** FRAGMENTATION. Units of at most 252 data bytes encoded one after the other, and a proper part of
      one more, cut into chunks of any number and size: exactly their encodings are emitted, in order,
      with no error, and the part is kept. */
  lemma UnitsSurviveCutting(adus: seq<Adu>, next: Adu, part: seq<byte>, chunks: seq<seq<byte>>)
    requires forall a :: a in adus + [next] ==> |a.data| <= 252
    requires part < Encode(next, 0) && Concat(chunks) == Concat(EncodeAll(adus)) + part
    ensures Sound(TryExtractFrame)
    ensures Run(TryExtractFrame, [], chunks) == Received(Emits(EncodeAll(adus)), part)
  {
    ExtractionIsSound();
    var frames := EncodeAll(adus);
    var all := frames + [Encode(next, 0)];
    forall i | 0 <= i < |all| ensures Recognised(TryExtractFrame, all[i]) {
      var a := if i < |adus| then adus[i] else next;
      assert a in adus + [next];
      EncodingIsRecognised(a);
    }
    WaitsForTheFirst();
    AnyCutting(TryExtractFrame, frames, Encode(next, 0), part, chunks);
  }
}
