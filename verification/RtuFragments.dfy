/** Frames come out of the RTU receive side whatever the cutting of the stream. */
module RtuFragments {
  import opened Bytes
  import opened Streams
  import opened RtuPredict
  import opened RtuFramer
  import opened RtuStream

  // ---------------------------------------------------------------- frames a receiver knows

  /** The frame is extracted from any buffer that begins with it, and no proper part of it decides
      anything. */
  ghost predicate Recognised(extract: Extractor, f: seq<byte>) {
    && MIN_FRAME_LENGTH <= |f| <= MAX_FRAME_LENGTH
    && (forall more :: extract(f + more) == Frame(|f|))
    && (forall k :: 0 <= k < |f| ==> extract(f[..k]) == Insufficient)
  }

  ghost predicate AllRecognised(extract: Extractor, frames: seq<seq<byte>>) {
    forall i :: 0 <= i < |frames| ==> Recognised(extract, frames[i])
  }

  /** A frame whose built-in prediction is its length and that passes the check is recognised. */
  lemma BuiltInIsRecognised(env: Env, f: seq<byte>)
    requires MIN_FRAME_LENGTH <= |f| <= MAX_FRAME_LENGTH && env.passes(f)
    requires f[1] !in env.custom && PredictFrameLength(f, env.isResponse) == Length(|f|)
    ensures Recognised(ExtractorOf(env), f)
  {
    forall more ensures TryExtract(env, f + more) == Frame(|f|) {
      PredictionIsStable(f, more, env.isResponse);
      assert (f + more)[..|f|] == f;
    }
    forall k | 0 <= k < |f| ensures TryExtract(env, f[..k]) == Insufficient {
      PrefixPrediction(f, k, env.isResponse);
    }
  }

  function Custom(env: Env, buffer: seq<byte>): CustomPrediction
    requires |buffer| >= 2 && buffer[1] in env.custom
  {
    var c := env.custom[buffer[1]];
    if env.isResponse then c.predictResponse(buffer) else c.predictRequest(buffer)
  }

  /** So is a frame of a registered code, if the registered predictor does not change its mind. */
  lemma CustomIsRecognised(env: Env, f: seq<byte>)
    requires MIN_FRAME_LENGTH <= |f| <= MAX_FRAME_LENGTH && env.passes(f) && f[1] in env.custom
    requires forall more :: Custom(env, f + more) == CustomLength(|f|)
    requires forall k :: 2 <= k < |f| ==> Custom(env, f[..k]) in {CustomNeedMore, CustomLength(|f|)}
    ensures Recognised(ExtractorOf(env), f)
  {
    forall more ensures TryExtract(env, f + more) == Frame(|f|) {
      assert Custom(env, f + more) == CustomLength(|f|);
      assert (f + more)[..|f|] == f;
    }
    forall k | 0 <= k < |f| ensures TryExtract(env, f[..k]) == Insufficient {
      if k >= MIN_FRAME_LENGTH {
        assert Custom(env, f[..k]) in {CustomNeedMore, CustomLength(|f|)};
      }
    }
  }

  /** `b` is the first `k` frames and a proper part of the next. */
  predicate Parsed(frames: seq<seq<byte>>, k: nat, b: seq<byte>, rest: seq<byte>) {
    && k <= |frames| && b == Concat(frames[..k]) + rest
    && (k == |frames| ==> rest == [])
    && (k < |frames| ==> rest < frames[k])
  }

  /** One more frame in front. */
  lemma ParsedCons(frames: seq<seq<byte>>, k: nat, b: seq<byte>, rest: seq<byte>)
    requires frames != [] && Parsed(frames[1..], k, b, rest)
    ensures Parsed(frames, k + 1, frames[0] + b, rest)
    ensures Emits(frames[..k + 1]) == [Emit(frames[0])] + Emits(frames[1..][..k])
  {
    var front := frames[..k + 1];
    assert front[0] == frames[0] && front[1..] == frames[1..][..k];
  }

  lemma FlushStops(extract: Extractor, b: seq<byte>)
    requires Sound(extract) && 0 < |b| < MAX_FRAME_LENGTH && extract(b) == Insufficient
    ensures Flush(extract, false, false, b) == Outcome([], b, false)
  {}

  lemma FlushTakesFrame(extract: Extractor, strict: bool, f: seq<byte>, more: seq<byte>)
    requires Sound(extract) && |f| > 0 && extract(f + more) == Frame(|f|)
    ensures Flush(extract, strict, false, f + more) == Prepend(Emit(f), Flush(extract, strict, false, more))
  {
    assert (f + more)[..|f|] == f && (f + more)[|f|..] == more;
  }

  /** Flushing the beginning of a stream of recognised frames emits the complete ones and keeps the
      beginning of the next. */
  lemma {:induction false} FlushParses(extract: Extractor, frames: seq<seq<byte>>, b: seq<byte>) returns (k: nat)
    requires Sound(extract) && AllRecognised(extract, frames) && b <= Concat(frames)
    ensures Parsed(frames, k, b, Flush(extract, false, false, b).rest)
    ensures Flush(extract, false, false, b).events == Emits(frames[..k])
    decreases |frames|
  {
    if b == [] {
      k := 0;
      assert frames != [] ==> Recognised(extract, frames[0]);
    } else {
      var f := frames[0];
      assert Recognised(extract, f) && Concat(frames) == f + Concat(frames[1..]);
      if |b| < |f| {
        assert b == f[..|b|];
        FlushStops(extract, b);
        k := 0;
      } else {
        var more := b[|f|..];
        assert b == f + more;
        FlushTakesFrame(extract, false, f, more);
        k := FlushParses(extract, frames[1..], more);
        ParsedCons(frames, k, more, Flush(extract, false, false, more).rest);
        k := k + 1;
      }
    }
  }

  // ---------------------------------------------------------------- any cutting, on a network

  /** What parsing the stream gives: the first `k` frames emitted, and the rest held. */
  predicate Gives(o: Outcome, before: seq<Event>, frames: seq<seq<byte>>, k: nat, b: seq<byte>) {
    Taken(frames, k, b, o.rest) && o.events == before + Emits(frames[..k]) && !o.t15
  }

  lemma GivesTwice(o: Outcome, p: Outcome, before: seq<Event>, frames: seq<seq<byte>>, k: nat, b: seq<byte>,
                   more: seq<byte>, j: nat)
    requires Gives(o, before, frames, k, b) && Gives(p, o.events, frames[k..], j, o.rest + more)
    ensures Gives(p, before, frames, k + j, b + more)
  {
    TakenTwice(frames, k, b, o.rest, more, j, p.rest);
    Regroup(before, Emits(frames[..k]), Emits(frames[k..][..j]));
  }

  /** A flush of a full pool in the middle of a stream. */
  lemma FlushGives(extract: Extractor, frames: seq<seq<byte>>, o: Outcome) returns (k: nat)
    requires Sound(extract) && AllRecognised(extract, frames) && !o.t15 && Begins(frames, o.rest)
    ensures var f := After(o.events, Flush(extract, false, false, o.rest));
      Gives(f, o.events, frames, k, o.rest) && Parsed(frames, k, o.rest, f.rest)
  {
    k := FlushParses(extract, frames, o.rest);
    FlushBound(extract, false, false, o.rest);
  }

  /** Feeding the beginning of a stream of recognised frames, flushing whenever the pool is full,
      emits frames of the stream in order and holds the bytes that follow them. */
  lemma {:induction false} ConsumeParses(
    extract: Extractor, frames: seq<seq<byte>>, o: Outcome, data: seq<byte>) returns (k: nat)
    requires Sound(extract) && AllRecognised(extract, frames)
    requires |o.rest| <= POOL_SIZE && !o.t15 && Begins(frames, o.rest + data)
    ensures Gives(Consume(extract, false, o, data), o.events, frames, k, o.rest + data)
    decreases |data|, |o.rest|
  {
    if data == [] {
      k := 0;
      assert o.rest + data == Concat(frames[..0]) + o.rest;
      assert o.events + Emits(frames[..0]) == o.events;
    } else {
      var r := FeedRound(extract, false, o, data);
      if r.1 == 0 {
        k := FlushGives(extract, frames, o);
        RestBegins(frames, k, o.rest, r.0.rest, data);
        var j := ConsumeParses(extract, frames[k..], r.0, data);
        GivesTwice(r.0, Consume(extract, false, r.0, data), o.events, frames, k, o.rest, data, j);
        assert data[r.1..] == data;
        k := k + j;
      } else {
        Regroup(o.rest, data[..r.1], data[r.1..]);
        assert data[..r.1] + data[r.1..] == data;
        k := ConsumeParses(extract, frames, r.0, data[r.1..]);
      }
    }
  }

  lemma DataEventParses(extract: Extractor, frames: seq<seq<byte>>, b: seq<byte>, data: seq<byte>) returns (k: nat)
    requires Sound(extract) && AllRecognised(extract, frames)
    requires |b| <= POOL_SIZE && Begins(frames, b + data)
    ensures var o := DataEvent(extract, false, false, b, data);
      Gives(o, [], frames, k, b + data) && Parsed(frames, k, b + data, o.rest)
  {
    var start := Outcome([], b, false);
    var fed := Consume(extract, false, start, data);
    var i := ConsumeParses(extract, frames, start, data);
    assert b + data + [] == b + data && fed.rest + [] == fed.rest;
    RestBegins(frames, i, b + data, fed.rest, []);
    var j := FlushGives(extract, frames[i..], fed);
    GivesTwice(fed, DataEvent(extract, false, false, b, data), [], frames, i, b + data, [], j);
    k := i + j;
  }

  /** A connection on a network: chunks arrive one after the other. */
  function NetRun(extract: Extractor, b: seq<byte>, chunks: seq<seq<byte>>): Outcome
    requires Sound(extract) && |b| <= POOL_SIZE
    decreases |chunks|
  {
    if chunks == [] then Outcome([], b, false)
    else
      var o := DataEvent(extract, false, false, b, chunks[0]);
      DataEventConserves(extract, false, false, b, chunks[0]);
      After(o.events, NetRun(extract, o.rest, chunks[1..]))
  }

  lemma GivesAfter(o: Outcome, before: seq<Event>, frames: seq<seq<byte>>, k: nat, b: seq<byte>)
    requires Gives(o, [], frames, k, b)
    ensures Gives(After(before, o), before, frames, k, b)
  {
    assert [] + Emits(frames[..k]) == Emits(frames[..k]);
  }

  lemma NetStep(extract: Extractor, frames: seq<seq<byte>>, b: seq<byte>, chunks: seq<seq<byte>>)
    returns (o: Outcome, k: nat)
    requires Sound(extract) && AllRecognised(extract, frames) && chunks != []
    requires |b| <= POOL_SIZE && Begins(frames, (b + chunks[0]) + Concat(chunks[1..]))
    ensures |o.rest| <= POOL_SIZE && Gives(o, [], frames, k, b + chunks[0]) && Partial(frames[k..], o.rest)
    ensures Begins(frames[k..], o.rest + Concat(chunks[1..]))
    ensures NetRun(extract, b, chunks) == After(o.events, NetRun(extract, o.rest, chunks[1..]))
  {
    o := DataEvent(extract, false, false, b, chunks[0]);
    DataEventConserves(extract, false, false, b, chunks[0]);
    ConcatBegins(frames, b + chunks[0], Concat(chunks[1..]));
    k := DataEventParses(extract, frames, b, chunks[0]);
    RestBegins(frames, k, b + chunks[0], o.rest, Concat(chunks[1..]));
  }

  lemma {:induction false} NetRunParses(
    extract: Extractor, frames: seq<seq<byte>>, b: seq<byte>, chunks: seq<seq<byte>>) returns (k: nat)
    requires Sound(extract) && AllRecognised(extract, frames)
    requires |b| <= POOL_SIZE && Partial(frames, b) && Begins(frames, b + Concat(chunks))
    ensures Gives(NetRun(extract, b, chunks), [], frames, k, b + Concat(chunks))
    ensures Partial(frames[k..], NetRun(extract, b, chunks).rest)
    decreases |chunks|
  {
    if chunks == [] {
      k := 0;
      assert b + Concat(chunks) == Concat(frames[..0]) + b && frames[0..] == frames;
    } else {
      var more := Concat(chunks[1..]);
      Regroup(b, chunks[0], more);
      var o, i := NetStep(extract, frames, b, chunks);
      LaterRecognised(extract, frames, i);
      var j := NetRunParses(extract, frames[i..], o.rest, chunks[1..]);
      Continues(o, NetRun(extract, o.rest, chunks[1..]), frames, i, b + chunks[0], more, j);
      k := i + j;
    }
  }

  lemma Continues(o: Outcome, last: Outcome, frames: seq<seq<byte>>, i: nat, b: seq<byte>, more: seq<byte>, j: nat)
    requires Gives(o, [], frames, i, b) && Gives(last, [], frames[i..], j, o.rest + more)
    requires Partial(frames[i..][j..], last.rest)
    ensures Gives(After(o.events, last), [], frames, i + j, b + more)
    ensures Partial(frames[i + j..], last.rest)
  {
    GivesAfter(last, o.events, frames[i..], j, o.rest + more);
    GivesTwice(o, After(o.events, last), [], frames, i, b, more, j);
    assert frames[i..][j..] == frames[i + j..];
  }

  lemma LaterRecognised(extract: Extractor, frames: seq<seq<byte>>, i: nat)
    requires AllRecognised(extract, frames) && i <= |frames|
    ensures AllRecognised(extract, frames[i..])
  {}

  /** FRAGMENTATION. A stream of frames the receiver knows and a proper part of one more, cut into
      chunks of any number and size: exactly those frames are emitted, in order, with no error and
      nothing discarded, and the part is held. */
  lemma AnyCutting(
    extract: Extractor, frames: seq<seq<byte>>, next: seq<byte>, part: seq<byte>, chunks: seq<seq<byte>>)
    requires Sound(extract) && AllRecognised(extract, frames + [next])
    requires part < next && Concat(chunks) == Concat(frames) + part
    ensures NetRun(extract, [], chunks) == Outcome(Emits(frames), part, false)
  {
    var all := frames + [next];
    assert all[..|frames|] == frames && all[|frames|..] == [next];
    ConcatSplit(all, |frames|);
    assert Concat([next]) == next + Concat([]);
    assert Recognised(extract, all[0]) && Partial(all, []);
    assert [] + Concat(chunks) == Concat(chunks);
    PartBegins(Concat(frames), part, next);
    var k := NetRunParses(extract, all, [], chunks);
    var o := NetRun(extract, [], chunks);
    ParsedOnce(all, k, Concat(chunks), o.rest, |frames|, part);
    assert [] + Emits(frames) == Emits(frames);
  }

  /** One such frame in any cutting. */
  lemma OneFrameAnyCutting(extract: Extractor, frame: seq<byte>, chunks: seq<seq<byte>>)
    requires Sound(extract) && Recognised(extract, frame) && Concat(chunks) == frame
    ensures NetRun(extract, [], chunks) == Outcome([Emit(frame)], [], false)
  {
    OneFrame(frame);
    assert [] < frame && frame + [] == frame;
    AnyCutting(extract, [frame], frame, [], chunks);
  }
}
