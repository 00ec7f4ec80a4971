/** The RTU receive side on a network finds its way back: stray bytes are dropped one at a time, and the
    frames after them come out, whatever the cutting of the stream. */
module RtuResync {
  import opened Bytes
  import opened Adus
  import opened Streams
  import opened RtuPredict
  import opened RtuFramer
  import opened RtuStream
  import opened RtuFragments

  // ---------------------------------------------------------------- stray bytes

  /** Each byte by itself. */
  function Discards(bytes: seq<byte>): seq<Event> {
    seq(|bytes|, i requires 0 <= i < |bytes| => Discard([bytes[i]]))
  }

  /** No frame begins here, and waiting for more does not help. */
  predicate Fruitless(extract: Extractor, b: seq<byte>) {
    extract(b) == Skip || (extract(b) == Insufficient && |b| >= MAX_FRAME_LENGTH)
  }

  /** None of the first `n` bytes of a stream begins anything: what follows each fails the check or is too
      long for a frame, and no part of it is taken for one. */
  ghost predicate Stray(extract: Extractor, s: seq<byte>, n: nat) {
    n <= |s| && forall i :: 0 <= i < n ==> Fruitless(extract, s[i..]) && NothingYet(extract, s[i..])
  }

  /** No part of it decides on a frame or an error. */
  ghost predicate NothingYet(extract: Extractor, b: seq<byte>) {
    forall k :: 0 <= k <= |b| ==> extract(b[..k]) in {Skip, Insufficient}
  }

  lemma PartOfStray(extract: Extractor, s: seq<byte>, n: nat, p: nat, q: nat)
    requires Stray(extract, s, n) && p < n && p <= q <= |s|
    ensures extract(s[p..q]) in {Skip, Insufficient} && Fruitless(extract, s[p..|s|])
  {
    assert NothingYet(extract, s[p..]);
    assert s[p..][..q - p] == s[p..q] && s[p..|s|] == s[p..];
  }

  lemma FlushDrops(extract: Extractor, b: seq<byte>)
    requires Sound(extract) && b != [] && Fruitless(extract, b)
    ensures Flush(extract, false, false, b) == Prepend(Discard([b[0]]), Flush(extract, false, false, b[1..]))
  {
    assert b[..1] == [b[0]];
  }

  lemma OneDiscardMore(bytes: seq<byte>, o: Outcome)
    requires bytes != []
    ensures Prepend(Discard([bytes[0]]), After(Discards(bytes[1..]), o)) == After(Discards(bytes), o)
  {
    assert Discards(bytes) == [Discard([bytes[0]])] + Discards(bytes[1..]);
    assert [Discard([bytes[0]])] + (Discards(bytes[1..]) + o.events) == Discards(bytes) + o.events;
  }

  /** A flush drops stray bytes until it has none left, or must wait. */
  lemma {:induction false} FlushStray(extract: Extractor, s: seq<byte>, n: nat, p: nat, q: nat) returns (m: nat)
    requires Sound(extract) && Stray(extract, s, n) && p <= n && p <= q <= |s|
    ensures p <= m <= n && m <= q
    ensures Flush(extract, false, false, s[p..q])
         == After(Discards(s[p..m]), if m < n then Outcome([], s[m..q], false) else Flush(extract, false, false, s[m..q]))
    ensures m < n ==> m == q || !Fruitless(extract, s[m..q])
    decreases q - p
  {
    var b := s[p..q];
    if p == n || p == q || !Fruitless(extract, b) {
      m := p;
      assert Discards(s[p..m]) == [];
      assert After([], Flush(extract, false, false, b)) == Flush(extract, false, false, b);
      if p < n && p < q {
        PartOfStray(extract, s, n, p, q);
        FlushStops(extract, b);
      }
    } else {
      FlushDrops(extract, b);
      assert b[1..] == s[p + 1..q];
      m := FlushStray(extract, s, n, p + 1, q);
      assert s[p..m][0] == b[0] && s[p..m][1..] == s[p + 1..m];
      OneDiscardMore(s[p..m], if m < n then Outcome([], s[m..q], false) else Flush(extract, false, false, s[m..q]));
    }
  }

  // ---------------------------------------------------------------- along the stream

  /** The stream so far, `q` bytes of it: the first `p` of the `n` stray bytes dropped one by one, and once
      all are, the first `k` frames emitted; and the rest held. */
  predicate Along(s: seq<byte>, n: nat, frames: seq<seq<byte>>, o: Outcome, p: nat, k: nat, q: nat) {
    && p <= n && p <= q <= |s| && k <= |frames| && (p < n ==> k == 0 && o.rest == s[p..q])
    && o.events == Discards(s[..p]) + Emits(frames[..k]) && !o.t15
    && (p == n ==> Taken(frames, k, s[n..q], o.rest))
  }

  /** And nothing more to be done with what is held. */
  predicate Settled(extract: Extractor, s: seq<byte>, n: nat, frames: seq<seq<byte>>, rest: seq<byte>, p: nat, k: nat, q: nat)
    requires p <= q <= |s|
  {
    if p < n then p == q || !Fruitless(extract, s[p..q]) else k <= |frames| && Partial(frames[k..], rest)
  }

  ghost predicate Stream(extract: Extractor, s: seq<byte>, n: nat, frames: seq<seq<byte>>) {
    Sound(extract) && Stray(extract, s, n) && AllRecognised(extract, frames) && Begins(frames, s[n..])
  }

  lemma DiscardsJoin(s: seq<byte>, p: nat, m: nat)
    requires p <= m <= |s|
    ensures Discards(s[..m]) == Discards(s[..p]) + Discards(s[p..m])
  {}

  lemma PieceBegins(s: seq<byte>, n: nat, frames: seq<seq<byte>>, q: nat)
    requires n <= q <= |s| && Begins(frames, s[n..])
    ensures Begins(frames, s[n..q])
  {
    assert s[n..q] + s[q..] == s[n..];
    ConcatBegins(frames, s[n..q], s[q..]);
  }

  /** What is held lies in the stream of frames. */
  lemma HeldBegins(s: seq<byte>, n: nat, frames: seq<seq<byte>>, rest: seq<byte>, k: nat, q: nat)
    requires n <= q <= |s| && Begins(frames, s[n..]) && Taken(frames, k, s[n..q], rest)
    ensures Begins(frames[k..], rest)
  {
    PieceBegins(s, n, frames, q);
    assert s[n..q] + [] == s[n..q] && rest + [] == rest;
    RestBegins(frames, k, s[n..q], rest, []);
  }

  /** A flush once the stray bytes are gone. */
  lemma FlushFrames(extract: Extractor, s: seq<byte>, n: nat, frames: seq<seq<byte>>, o: Outcome, k: nat, q: nat)
    returns (j: nat)
    requires Stream(extract, s, n, frames) && Along(s, n, frames, o, n, k, q)
    ensures var f := After(o.events, Flush(extract, false, false, o.rest));
      Along(s, n, frames, f, n, j, q) && Settled(extract, s, n, frames, f.rest, n, j, q)
  {
    HeldBegins(s, n, frames, o.rest, k, q);
    LaterRecognised(extract, frames, k);
    var i := FlushGives(extract, frames[k..], o);
    j := k + i;
    var f := After(o.events, Flush(extract, false, false, o.rest));
    assert o.rest + [] == o.rest && s[n..q] + [] == s[n..q];
    TakenTwice(frames, k, s[n..q], o.rest, [], i, f.rest);
    assert frames[k..][i..] == frames[j..];
    Regroup(Discards(s[..n]), Emits(frames[..k]), Emits(frames[k..][..i]));
  }

  lemma AfterDiscards(s: seq<byte>, p: nat, m: nat, o: Outcome, last: Outcome)
    requires p <= m <= |s| && o.events == Discards(s[..p]) + []
    ensures After(o.events, After(Discards(s[p..m]), last)) == After(Discards(s[..m]), last)
  {
    DiscardsJoin(s, p, m);
    Regroup(Discards(s[..p]), Discards(s[p..m]), last.events);
  }

  lemma AtTheStart(s: seq<byte>, n: nat, frames: seq<seq<byte>>, m: nat, q: nat)
    requires m <= n && m <= q <= |s|
    ensures Along(s, n, frames, Outcome(Discards(s[..m]), s[m..q], false), m, 0, q)
  {
    assert frames[..0] == [] && Discards(s[..m]) + [] == Discards(s[..m]) && [] + s[m..q] == s[m..q];
  }

  lemma FlushAlong(extract: Extractor, s: seq<byte>, n: nat, frames: seq<seq<byte>>, o: Outcome, p: nat, k: nat, q: nat)
    returns (m: nat, j: nat)
    requires Stream(extract, s, n, frames) && Along(s, n, frames, o, p, k, q)
    ensures var f := After(o.events, Flush(extract, false, false, o.rest));
      Along(s, n, frames, f, m, j, q) && Settled(extract, s, n, frames, f.rest, m, j, q)
  {
    if p == n {
      m := n;
      j := FlushFrames(extract, s, n, frames, o, k, q);
    } else {
      m := FlushStray(extract, s, n, p, q);
      AfterDiscards(s, p, m, o, if m < n then Outcome([], s[m..q], false) else Flush(extract, false, false, s[n..q]));
      var at := Outcome(Discards(s[..m]), s[m..q], false);
      j := 0;
      AtTheStart(s, n, frames, m, q);
      if m == n {
        j := FlushFrames(extract, s, n, frames, at, 0, q);
      }
    }
  }

  lemma Join<T>(s: seq<T>, a: nat, b: nat, c: nat)
    requires a <= b <= c <= |s|
    ensures s[a..b] + s[b..c] == s[a..c]
  {}

  lemma MoreAlong(s: seq<byte>, n: nat, frames: seq<seq<byte>>, o: Outcome, p: nat, k: nat, q: nat, r: nat)
    requires Along(s, n, frames, o, p, k, q) && q <= r <= |s|
    ensures Along(s, n, frames, o.(rest := o.rest + s[q..r]), p, k, r)
  {
    if p < n {
      Join(s, p, q, r);
    } else {
      Join(s, n, q, r);
      Regroup(Concat(frames[..k]), o.rest, s[q..r]);
    }
  }

  /** The chunk is what comes next in the stream. */
  predicate Next(s: seq<byte>, q: nat, data: seq<byte>) { q + |data| <= |s| && s[q..q + |data|] == data }

  lemma NextSplit(s: seq<byte>, q: nat, data: seq<byte>, i: nat)
    requires Next(s, q, data) && i <= |data|
    ensures s[q..q + i] == data[..i] && Next(s, q + i, data[i..])
  {}

  lemma RoundCases(extract: Extractor, o: Outcome, data: seq<byte>)
    requires Sound(extract) && |o.rest| <= POOL_SIZE
    ensures var r := FeedRound(extract, false, o, data);
      r.0 == if r.1 == 0 then After(o.events, Flush(extract, false, o.t15, o.rest)) else o.(rest := o.rest + data[..r.1])
  {}

  /** One round of the copying loop. */
  lemma RoundAlong(
    extract: Extractor, s: seq<byte>, n: nat, frames: seq<seq<byte>>, o: Outcome, p: nat, k: nat, q: nat, data: seq<byte>,
    r: (Outcome, nat)) returns (m: nat, j: nat)
    requires Stream(extract, s, n, frames) && Along(s, n, frames, o, p, k, q) && Next(s, q, data) && r.1 <= |data|
    requires r.0 == if r.1 == 0 then After(o.events, Flush(extract, false, o.t15, o.rest))
                    else o.(rest := o.rest + data[..r.1])
    ensures q + r.1 <= |s| && Along(s, n, frames, r.0, m, j, q + r.1)
  {
    if r.1 == 0 {
      m, j := FlushAlong(extract, s, n, frames, o, p, k, q);
    } else {
      m, j := p, k;
      NextSplit(s, q, data, r.1);
      MoreAlong(s, n, frames, o, p, k, q, q + r.1);
    }
  }

  ghost predicate RoundKeeps(extract: Extractor, inv: (Outcome, seq<byte>) -> bool, o: Outcome, data: seq<byte>)
    requires Sound(extract)
  {
    |o.rest| <= POOL_SIZE && inv(o, data) ==>
      var r := FeedRound(extract, false, o, data); inv(r.0, data[r.1..])
  }

  /** What every round of the copying loop keeps, of the outcome and the bytes still to come, the loop
      keeps. */
  lemma {:induction false} ConsumeKeeps(
    extract: Extractor, inv: (Outcome, seq<byte>) -> bool, o: Outcome, data: seq<byte>)
    requires Sound(extract) && |o.rest| <= POOL_SIZE && inv(o, data)
    requires forall o, data :: RoundKeeps(extract, inv, o, data)
    ensures inv(Consume(extract, false, o, data), [])
    decreases |data|, |o.rest|
  {
    if data != [] {
      var r := FeedRound(extract, false, o, data);
      assert RoundKeeps(extract, inv, o, data);
      ConsumeKeeps(extract, inv, r.0, data[r.1..]);
    }
  }

  /** The bytes of the stream before `data`, a piece of it ending at `to`, are dealt with. */
  ghost predicate Somewhere(s: seq<byte>, n: nat, frames: seq<seq<byte>>, to: nat, o: Outcome, data: seq<byte>) {
    && |data| <= to <= |s| && Next(s, to - |data|, data)
    && var q: nat := to - |data|;
       exists p, k :: Along(s, n, frames, o, p, k, q)
  }

  lemma RoundSomewhere(
    extract: Extractor, s: seq<byte>, n: nat, frames: seq<seq<byte>>, to: nat, o: Outcome, data: seq<byte>)
    requires Stream(extract, s, n, frames) && Somewhere(s, n, frames, to, o, data) && |o.rest| <= POOL_SIZE
    ensures var r := FeedRound(extract, false, o, data); Somewhere(s, n, frames, to, r.0, data[r.1..])
  {
    var q := to - |data|;
    var p, k :| Along(s, n, frames, o, p, k, q);
    var r := FeedRound(extract, false, o, data);
    RoundCases(extract, o, data);
    var m, j := RoundAlong(extract, s, n, frames, o, p, k, q, data, r);
    NextSplit(s, q, data, r.1);
    assert to - |data[r.1..]| == q + r.1;
  }

  ghost function Course(s: seq<byte>, n: nat, frames: seq<seq<byte>>, to: nat): (Outcome, seq<byte>) -> bool {
    (o, data) => Somewhere(s, n, frames, to, o, data)
  }

  lemma CourseKept(extract: Extractor, s: seq<byte>, n: nat, frames: seq<seq<byte>>, to: nat)
    requires Stream(extract, s, n, frames)
    ensures forall o, data :: RoundKeeps(extract, Course(s, n, frames, to), o, data)
  {
    forall o, data ensures RoundKeeps(extract, Course(s, n, frames, to), o, data) {
      if |o.rest| <= POOL_SIZE && Somewhere(s, n, frames, to, o, data) {
        RoundSomewhere(extract, s, n, frames, to, o, data);
      }
    }
  }

  lemma OnCourse(s: seq<byte>, n: nat, frames: seq<seq<byte>>, o: Outcome, p: nat, k: nat, q: nat, data: seq<byte>)
    requires Along(s, n, frames, o, p, k, q) && Next(s, q, data)
    ensures Course(s, n, frames, q + |data|)(o, data)
  {
    assert q + |data| - |data| == q;
  }

  lemma AtTheEnd(s: seq<byte>, n: nat, frames: seq<seq<byte>>, to: nat, o: Outcome) returns (m: nat, j: nat)
    requires Course(s, n, frames, to)(o, [])
    ensures Along(s, n, frames, o, m, j, to)
  {
    m, j :| Along(s, n, frames, o, m, j, to);
  }

  lemma ConsumeAlong(
    extract: Extractor, s: seq<byte>, n: nat, frames: seq<seq<byte>>, o: Outcome, p: nat, k: nat, q: nat, data: seq<byte>)
    returns (m: nat, j: nat)
    requires Stream(extract, s, n, frames) && Along(s, n, frames, o, p, k, q)
    requires |o.rest| <= POOL_SIZE && Next(s, q, data)
    ensures Along(s, n, frames, Consume(extract, false, o, data), m, j, q + |data|)
  {
    CourseKept(extract, s, n, frames, q + |data|);
    OnCourse(s, n, frames, o, p, k, q, data);
    ConsumeKeeps(extract, Course(s, n, frames, q + |data|), o, data);
    m, j := AtTheEnd(s, n, frames, q + |data|, Consume(extract, false, o, data));
  }

  /** On a network a chunk is fed and then flushed, whatever was reported before. */
  lemma DataEventAfter(extract: Extractor, o: Outcome, data: seq<byte>)
    requires Sound(extract) && |o.rest| <= POOL_SIZE && !o.t15
    ensures var fed := Consume(extract, false, o, data);
      After(o.events, DataEvent(extract, false, false, o.rest, data))
      == After(fed.events, Flush(extract, false, fed.t15, fed.rest))
  {
    var bare := Outcome([], o.rest, false);
    ConsumeAfter(extract, false, o.events, bare, data);
    assert After(o.events, bare) == o;
    var fed := Consume(extract, false, bare, data);
    Regroup(o.events, fed.events, Flush(extract, false, fed.t15, fed.rest).events);
  }

  lemma DataAlong(
    extract: Extractor, s: seq<byte>, n: nat, frames: seq<seq<byte>>, o: Outcome, p: nat, k: nat, q: nat, data: seq<byte>)
    returns (m: nat, j: nat)
    requires Stream(extract, s, n, frames) && Along(s, n, frames, o, p, k, q)
    requires |o.rest| <= POOL_SIZE && Next(s, q, data)
    ensures var d := After(o.events, DataEvent(extract, false, false, o.rest, data));
      && Along(s, n, frames, d, m, j, q + |data|)
      && Settled(extract, s, n, frames, d.rest, m, j, q + |data|)
  {
    m, j := ConsumeAlong(extract, s, n, frames, o, p, k, q, data);
    m, j := FlushAlong(extract, s, n, frames, Consume(extract, false, o, data), m, j, q + |data|);
    DataEventAfter(extract, o, data);
  }

  lemma FirstChunk(s: seq<byte>, q: nat, chunks: seq<seq<byte>>)
    requires q <= |s| && chunks != [] && s[q..] == Concat(chunks)
    ensures Next(s, q, chunks[0]) && s[q + |chunks[0]|..] == Concat(chunks[1..])
  {
    assert s[q..] == chunks[0] + Concat(chunks[1..]);
  }

  lemma NetRunFirst(extract: Extractor, before: seq<Event>, b: seq<byte>, chunks: seq<seq<byte>>)
    requires Sound(extract) && |b| <= POOL_SIZE && chunks != []
    ensures var e := DataEvent(extract, false, false, b, chunks[0]);
      && |e.rest| <= POOL_SIZE
      && After(before, NetRun(extract, b, chunks)) == After(before + e.events, NetRun(extract, e.rest, chunks[1..]))
  {
    var e := DataEvent(extract, false, false, b, chunks[0]);
    DataEventConserves(extract, false, false, b, chunks[0]);
    Regroup(before, e.events, NetRun(extract, e.rest, chunks[1..]).events);
  }

  lemma {:induction false} NetRunAlong(
    extract: Extractor, s: seq<byte>, n: nat, frames: seq<seq<byte>>, o: Outcome, p: nat, k: nat, q: nat,
    chunks: seq<seq<byte>>) returns (m: nat, j: nat)
    requires Stream(extract, s, n, frames) && Along(s, n, frames, o, p, k, q) && |o.rest| <= POOL_SIZE
    requires Settled(extract, s, n, frames, o.rest, p, k, q) && s[q..] == Concat(chunks)
    ensures var d := After(o.events, NetRun(extract, o.rest, chunks));
      && Along(s, n, frames, d, m, j, |s|)
      && Settled(extract, s, n, frames, d.rest, m, j, |s|)
    decreases |chunks|
  {
    if chunks == [] {
      m, j := p, k;
      assert o.events + [] == o.events;
    } else {
      FirstChunk(s, q, chunks);
      var e := DataEvent(extract, false, false, o.rest, chunks[0]);
      NetRunFirst(extract, o.events, o.rest, chunks);
      m, j := DataAlong(extract, s, n, frames, o, p, k, q, chunks[0]);
      m, j := NetRunAlong(extract, s, n, frames, After(o.events, e), m, j, q + |chunks[0]|, chunks[1..]);
    }
  }

  // ---------------------------------------------------------------- resynchronisation

  /** The frames and the part of one more are a piece of a stream of frames. */
  lemma FramesBegin(frames: seq<seq<byte>>, next: seq<byte>, part: seq<byte>)
    requires part < next
    ensures Begins(frames + [next], Concat(frames) + part)
    ensures (frames + [next])[..|frames|] == frames && (frames + [next])[|frames|..] == [next]
  {
    var all := frames + [next];
    assert all[..|frames|] == frames && all[|frames|..] == [next];
    ConcatSplit(all, |frames|);
    assert Concat([next]) == next + Concat([]);
    PartBegins(Concat(frames), part, next);
  }

  /** RESYNCHRONISATION. Stray bytes, then frames the receiver knows, then a proper part of one more, cut
      anyhow: each stray byte is dropped by itself, then exactly the frames come out, in order, with no
      error, and the part is held. */
  lemma Resynchronises(
    extract: Extractor, junk: seq<byte>, frames: seq<seq<byte>>, next: seq<byte>, part: seq<byte>,
    chunks: seq<seq<byte>>)
    requires Sound(extract) && AllRecognised(extract, frames + [next]) && part < next
    requires Concat(chunks) == junk + (Concat(frames) + part) && Stray(extract, Concat(chunks), |junk|)
    ensures NetRun(extract, [], chunks) == Outcome(Discards(junk) + Emits(frames), part, false)
  {
    var s, n, all := Concat(chunks), |junk|, frames + [next];
    assert s[n..] == Concat(frames) + part && s[..n] == junk;
    FramesBegin(frames, next, part);
    assert Recognised(extract, all[0]);
    var o := Outcome([], [], false);
    AtTheStart(s, n, all, 0, 0);
    assert Discards(s[..0]) == [] && s[0..] == s && all[0..] == all;
    var m, j := NetRunAlong(extract, s, n, all, o, 0, 0, 0, chunks);
    var d := NetRun(extract, [], chunks);
    assert After(o.events, d) == d;
    if m < n {
      PartOfStray(extract, s, n, m, |s|);
    }
    ParsedOnce(all, j, s[n..], d.rest, |frames|, part);
  }

  // ---------------------------------------------------------------- the real extraction

  lemma PartOfSkipped(env: Env, b: seq<byte>, k: nat)
    requires TryExtract(env, b) == Skip && |b| >= 2 && b[1] !in env.custom && k <= |b|
    ensures TryExtract(env, b[..k]) in {Skip, Insufficient}
  {
    if k >= MIN_FRAME_LENGTH {
      PrefixPrediction(b, k, env.isResponse);
      var n := PredictFrameLength(b, env.isResponse).n;
      if k >= n {
        assert b[..k][..n] == b[..n];
      }
    }
  }

  /** For the built-in codes it is enough that what follows each stray byte is measured and fails the
      check. */
  lemma BuiltInIsStray(env: Env, s: seq<byte>, n: nat)
    requires n + 2 <= |s|
    requires forall i :: 0 <= i < n ==> s[i..][1] !in env.custom && TryExtract(env, s[i..]) == Skip
    ensures Stray(ExtractorOf(env), s, n)
  {
    forall i | 0 <= i < n ensures Fruitless(ExtractorOf(env), s[i..]) && NothingYet(ExtractorOf(env), s[i..]) {
      forall k | 0 <= k <= |s[i..]| ensures TryExtract(env, s[i..][..k]) in {Skip, Insufficient} {
        PartOfSkipped(env, s[i..], k);
      }
    }
  }

  // ---------------------------------------------------------------- giving up

  /** Bytes that cannot begin a frame are given up all together with one error, whatever follows them. */
  lemma InvalidGivesUp(extract: Extractor, strict: bool, t15: bool, b: seq<byte>)
    requires Sound(extract) && b != [] && extract(b) == Invalid
    ensures Flush(extract, strict, t15, b) == Outcome([Fail(InvalidData), Discard(b)], [], false)
  {}

  /** So a chunk that begins with a code nothing predicts is lost, and good frames in it as well. */
  lemma UnknownCodeGivesUp(env: Env, b: seq<byte>)
    requires MIN_FRAME_LENGTH <= |b| <= POOL_SIZE && b[1] !in env.custom
    requires PredictFrameLength(b, env.isResponse) == Unknown
    ensures Sound(ExtractorOf(env))
    ensures DataEvent(ExtractorOf(env), false, false, [], b) == Outcome([Fail(InvalidData), Discard(b)], [], false)
  {
    ExtractorIsSound(env);
    ConsumeWhole(ExtractorOf(env), b);
    InvalidGivesUp(ExtractorOf(env), false, false, b);
  }

  lemma ConsumeWhole(extract: Extractor, b: seq<byte>)
    requires Sound(extract) && b != [] && |b| <= POOL_SIZE
    ensures Consume(extract, false, Outcome([], [], false), b) == Outcome([], b, false)
  {
    assert [] + b[..|b|] == b && b[|b|..] == [];
  }
}
