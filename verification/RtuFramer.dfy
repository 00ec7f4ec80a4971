/** The RTU receive side: a fixed pool of 512 bytes per connection, the extraction of frames from
    it, and the handling of data and timer events. */
module RtuFramer {
  import opened Bytes
  import opened Adus
  import opened Streams
  import opened RtuPredict

  const MAX_FRAME_LENGTH: nat := 256
  const MIN_FRAME_LENGTH: nat := 4
  const POOL_SIZE: nat := 512

  // ---------------------------------------------------------------- one extraction

  datatype CustomPrediction = CustomLength(n: nat) | CustomNeedMore

  /** A registered function code with its two length predictors, which may be anything. */
  datatype CustomFc = CustomFc(predictRequest: seq<byte> -> CustomPrediction,
                               predictResponse: seq<byte> -> CustomPrediction)

  /** What extraction depends on: the role, the registered codes, and the checksum test. */
  datatype Env = Env(isResponse: bool, custom: map<byte, CustomFc>, passes: seq<byte> -> bool)

  datatype Extract = Frame(length: nat) | Insufficient | Skip | Invalid

  function CheckExpected(env: Env, buffer: seq<byte>, expected: nat): Extract {
    if !(MIN_FRAME_LENGTH <= expected <= MAX_FRAME_LENGTH) then Invalid
    else if |buffer| < expected then Insufficient
    else if env.passes(buffer[..expected]) then Frame(expected)
    else Skip
  }

  function TryExtract(env: Env, buffer: seq<byte>): Extract {
    if |buffer| < MIN_FRAME_LENGTH then Insufficient
    else if buffer[1] in env.custom then
      var c := env.custom[buffer[1]];
      match (if env.isResponse then c.predictResponse(buffer) else c.predictRequest(buffer))
      case CustomNeedMore => Insufficient
      case CustomLength(n) => CheckExpected(env, buffer, n)
    else
      match PredictFrameLength(buffer, env.isResponse)
      case Length(n) => CheckExpected(env, buffer, n)
      case NeedMore => Insufficient
      case Unknown => Invalid
  }

  /** Extraction as a function of the buffer alone; what follows holds for any sound one. */
  type Extractor = seq<byte> -> Extract

  function ExtractorOf(env: Env): Extractor { b => TryExtract(env, b) }

  predicate FrameFits(r: Extract, b: seq<byte>) {
    r.Frame? ==> MIN_FRAME_LENGTH <= r.length <= MAX_FRAME_LENGTH && r.length <= |b|
  }

  ghost predicate Sound(extract: Extractor) {
    forall b :: FrameFits(extract(b), b)
  }

  /** An extracted frame is a checked piece of the buffer, whatever the predictors say. */
  lemma ExtractorIsSound(env: Env)
    ensures Sound(ExtractorOf(env))
    ensures forall b :: TryExtract(env, b).Frame? ==> FrameFits(TryExtract(env, b), b)
    ensures forall b :: TryExtract(env, b).Frame? ==> env.passes(b[..TryExtract(env, b).length])
  {}

  // ---------------------------------------------------------------- what happens to the bytes

  /** The events of an operation and the buffer it leaves: its bytes and its t1.5 flag. */
  datatype Outcome = Outcome(events: seq<Event>, rest: seq<byte>, t15: bool)

  function Prepend(e: Event, o: Outcome): Outcome { o.(events := [e] + o.events) }

  function After(before: seq<Event>, o: Outcome): Outcome { o.(events := before + o.events) }

  /** One round of the extraction loop on a buffer with bytes in it: go on after the first `n`
      bytes, or stop with what is kept. */
  datatype Round = Again(event: Event, n: nat) | Stop(events: seq<Event>, rest: seq<byte>)

  function Extraction(extract: Extractor, strict: bool, t15: bool, b: seq<byte>): (r: Round)
    requires Sound(extract) && b != []
    ensures r.Again? ==> 0 < r.n <= |b| && (r.event == Emit(b[..r.n]) || r.event == Discard(b[..r.n]))
    ensures r.Stop? ==> |r.rest| < MAX_FRAME_LENGTH && (strict || t15 ==> r.rest == [])
  {
    assert FrameFits(extract(b), b);
    match extract(b)
    case Frame(n) => Again(Emit(b[..n]), n)
    case Skip =>
      if strict then Stop([Fail(CrcCheckFailed), Discard(b)], []) else Again(Discard(b[..1]), 1)
    case Insufficient =>
      if |b| >= MAX_FRAME_LENGTH then Again(Discard(b[..1]), 1)
      else if strict then Stop([Fail(if t15 then T15Exceeded else IncompleteFrame), Discard(b)], [])
      else if t15 then Stop([Fail(T15Exceeded), Discard(b)], [])
      else Stop([], b)
    case Invalid => Stop([Fail(InvalidData), Discard(b)], [])
  }

  /** `flush_pool`, an emptied buffer being replaced by a new one when next needed. */
  function Flush(extract: Extractor, strict: bool, t15: bool, b: seq<byte>): Outcome
    requires Sound(extract)
    decreases |b|
  {
    if b == [] then Outcome([], [], false)
    else
      match Extraction(extract, strict, t15, b)
      case Again(e, n) => Prepend(e, Flush(extract, strict, t15, b[n..]))
      case Stop(events, rest) => Outcome(events, rest, false)
  }

  /** The pool never keeps a whole frame's worth of bytes, whatever it held and whatever the
      predictors say; a strict flush keeps nothing. */
  lemma {:induction false} FlushBound(extract: Extractor, strict: bool, t15: bool, b: seq<byte>)
    requires Sound(extract)
    ensures |Flush(extract, strict, t15, b).rest| < MAX_FRAME_LENGTH
    ensures strict ==> Flush(extract, strict, t15, b).rest == []
    ensures !Flush(extract, strict, t15, b).t15
    decreases |b|
  {
    if b != [] {
      match Extraction(extract, strict, t15, b)
      case Again(_, n) => FlushBound(extract, strict, t15, b[n..]);
      case Stop(_, _) =>
    }
  }

  function Min(a: nat, b: nat): nat { if a < b then a else b }

  /** One round of the copying loop: copy what fits, or flush a full pool; and how much was copied. */
  function FeedRound(extract: Extractor, strict: bool, o: Outcome, data: seq<byte>): (r: (Outcome, nat))
    requires Sound(extract) && |o.rest| <= POOL_SIZE
    ensures r.1 == Min(|data|, POOL_SIZE - |o.rest|) && |r.0.rest| <= POOL_SIZE
    ensures data != [] && r.1 == 0 ==> |r.0.rest| < |o.rest|
  {
    var n := Min(|data|, POOL_SIZE - |o.rest|);
    if n == 0 then
      FlushBound(extract, strict, o.t15, o.rest);
      (After(o.events, Flush(extract, strict, o.t15, o.rest)), 0)
    else (o.(rest := o.rest + data[..n]), n)
  }

  /** Feed a chunk of any size through the pool, flushing whenever the pool is full. */
  function Consume(extract: Extractor, strict: bool, o: Outcome, data: seq<byte>): Outcome
    requires Sound(extract) && |o.rest| <= POOL_SIZE
    decreases |data|, |o.rest|
  {
    if data == [] then o
    else
      var r := FeedRound(extract, strict, o, data);
      Consume(extract, strict, r.0, data[r.1..])
  }

  /** The buffer as a chunk finds it: a partial frame cut by a t1.5 gap is given up. */
  function Opening(t15: bool, b: seq<byte>): Outcome {
    if t15 && b != [] then Outcome([Fail(T15Exceeded), Discard(b)], [], false) else Outcome([], b, false)
  }

  /** A chunk arrives: a partial frame cut by a t1.5 gap is given up, the chunk is fed, and the
      pool is flushed at once on a network, or on a serial line once it could hold a frame. */
  function DataEvent(extract: Extractor, strict: bool, t15: bool, b: seq<byte>, data: seq<byte>): Outcome
    requires Sound(extract) && |b| <= POOL_SIZE
  {
    var fed := Consume(extract, strict, Opening(t15, b), data);
    if !strict || |fed.rest| >= MAX_FRAME_LENGTH then
      var f := Flush(extract, strict, fed.t15, fed.rest);
      After(fed.events, f)
    else fed
  }

  // ---------------------------------------------------------------- the pool

  class RtuBuffer {
    const pool: array<byte>
    var start: nat
    var end: nat
    var t15Expired: bool

    ghost predicate Valid()
      reads this
    {
      pool.Length == POOL_SIZE && start <= end <= POOL_SIZE
    }

    function AsSlice(): (b: seq<byte>)
      reads this, pool
      requires Valid()
      ensures |b| == end - start
    {
      pool[start..end]
    }

    constructor ()
      ensures Valid() && AsSlice() == [] && start == 0 && !t15Expired && fresh(pool)
    {
      pool := new byte[POOL_SIZE](_ => 0);
      start, end, t15Expired := 0, 0, false;
    }

    /** Copy as much of `data` as fits behind the bytes already there. */
    method ExtendFromSlice(data: seq<byte>) returns (n: nat)
      requires Valid()
      modifies this`end, pool
      ensures Valid() && n == Min(|data|, POOL_SIZE - old(end)) && end == old(end) + n
      ensures AsSlice() == old(AsSlice()) + data[..n]
    {
      n := Min(|data|, POOL_SIZE - end);
      forall i | 0 <= i < n {
        pool[end + i] := data[i];
      }
      end := end + n;
      forall k | 0 <= k < end - start ensures AsSlice()[k] == (old(AsSlice()) + data[..n])[k] {
        if k >= old(end) - start {
          assert pool[start + k] == data[start + k - old(end)];
        }
      }
    }

    method Drain(n: nat)
      requires Valid() && n <= end - start
      modifies this`start
      ensures Valid() && start == old(start) + n && AsSlice() == old(AsSlice())[n..]
    {
      start := start + n;
    }

    /** Move the bytes still there to the front. */
    method Compact()
      requires Valid()
      modifies this`start, this`end, pool
      ensures Valid() && start == 0 && AsSlice() == old(AsSlice())
    {
      if start > 0 {
        if start < end {
          var len, i := end - start, 0;
          while i < len
            modifies pool
            invariant 0 <= i <= len
            invariant pool[..i] == old(pool[start..end])[..i]
            invariant forall k :: start + i <= k < end ==> pool[k] == old(pool[k])
          {
            pool[i] := pool[start + i];
            assert pool[i] == old(pool[start..end])[i];
            assert pool[..i + 1] == pool[..i] + [pool[i]];
            i := i + 1;
          }
          start, end := 0, len;
        } else {
          start, end := 0, 0;
        }
      }
    }

    method Clear()
      modifies this`start, this`end
      ensures start == 0 && end == 0
    {
      start, end := 0, 0;
    }

    /** One round of the extraction loop. */
    method ExtractNext(extract: Extractor, strict: bool) returns (events: seq<Event>, again: bool)
      requires Valid() && start < end && Sound(extract)
      modifies this
      ensures Valid()
      ensures var r := Extraction(extract, strict, old(t15Expired), old(AsSlice()));
        if r.Again? then again && events == [r.event] && AsSlice() == old(AsSlice())[r.n..] && t15Expired == old(t15Expired)
        else !again && events == r.events && AsSlice() == r.rest && (r.rest == [] || !t15Expired)
    {
      var b := AsSlice();
      match extract(b) {
        case Frame(n) =>
          assert FrameFits(extract(b), b);
          Drain(n);
          return [Emit(b[..n])], true;
        case Skip =>
          if strict {
            Clear();
            return [Fail(CrcCheckFailed), Discard(b)], false;
          }
          Drain(1);
          return [Discard(b[..1])], true;
        case Insufficient =>
          if end - start >= MAX_FRAME_LENGTH {
            Drain(1);
            return [Discard(b[..1])], true;
          }
          if strict {
            events := [Fail(if t15Expired then T15Exceeded else IncompleteFrame), Discard(b)];
            Clear();
            t15Expired := false;
            return events, false;
          }
          if t15Expired {
            Clear();
            t15Expired := false;
            return [Fail(T15Exceeded), Discard(b)], false;
          }
          return [], false;
        case Invalid =>
          Clear();
          return [Fail(InvalidData), Discard(b)], false;
      }
    }

    /** The extraction loop over the pool, the bytes left being moved to its front. */
    method FlushPool(extract: Extractor, strict: bool) returns (events: seq<Event>)
      requires Sound(extract) && Valid()
      modifies this, pool
      ensures Valid() && start == 0
      ensures Outcome(events, AsSlice(), t15Expired) == Flush(extract, strict, old(t15Expired), old(AsSlice()))
    {
      events := [];
      ghost var b := AsSlice();
      ghost var all := Flush(extract, strict, t15Expired, b);
      var again := true;
      while again && start < end
        invariant Valid() && b == AsSlice()
        invariant again ==> all == After(events, Flush(extract, strict, t15Expired, b))
        invariant !again ==> all == Outcome(events, b, false) && (b == [] || !t15Expired)
        decreases again, |b|
      {
        if Extraction(extract, strict, t15Expired, b).Again? {
          FlushAgain(extract, strict, t15Expired, b, events);
        }
        var more;
        more, again := ExtractNext(extract, strict);
        events := events + more;
        b := AsSlice();
      }
      Compact();
      if start == end {
        t15Expired := false;
      }
    }

    /** One round of the copying loop. A flush never leaves the pool full, so the guard of the code
        for that case is a dead branch. */
    method FeedSome(extract: Extractor, strict: bool, data: seq<byte>, ghost o: Outcome)
      returns (copied: nat, events: seq<Event>, ghost next: Outcome)
      requires Sound(extract) && Valid() && start == 0 && data != []
      requires o.rest == AsSlice() && o.t15 == t15Expired
      modifies this, pool
      ensures Valid() && start == 0 && (next, copied) == FeedRound(extract, strict, o, data)
      ensures next.rest == AsSlice() && next.t15 == t15Expired && next.events == o.events + events
    {
      events := [];
      next := FeedRound(extract, strict, o, data).0;
      copied := ExtendFromSlice(data);
      if copied == 0 {
        assert AsSlice() == o.rest;
        FlushBound(extract, strict, o.t15, o.rest);
        events := FlushPool(extract, strict);
        if end == POOL_SIZE {
          assert false;
        }
      }
    }

    /** The copying loop: fill the pool, flush it when full. */
    method Feed(extract: Extractor, strict: bool, data: seq<byte>) returns (events: seq<Event>)
      requires Sound(extract) && Valid() && start == 0
      modifies this, pool
      ensures Valid() && start == 0
      ensures Outcome(events, AsSlice(), t15Expired)
           == Consume(extract, strict, Outcome([], old(AsSlice()), old(t15Expired)), data)
    {
      events := [];
      ghost var o := Outcome([], AsSlice(), t15Expired);
      ghost var all := Consume(extract, strict, o, data);
      var offset := 0;
      while offset < |data|
        invariant Valid() && start == 0 && 0 <= offset <= |data|
        invariant o.events == events && o.rest == AsSlice() && o.t15 == t15Expired
        invariant all == Consume(extract, strict, o, data[offset..])
        decreases |data| - offset, |o.rest|
      {
        var copied, more;
        ghost var next;
        copied, more, next := FeedSome(extract, strict, data[offset..], o);
        assert data[offset..][copied..] == data[offset + copied..];
        events, offset, o := events + more, offset + copied, next;
      }
    }

    method ProcessDataEvent(extract: Extractor, strict: bool, data: seq<byte>) returns (events: seq<Event>)
      requires Sound(extract) && Valid() && start == 0
      modifies this, pool
      ensures Valid() && start == 0
      ensures Outcome(events, AsSlice(), t15Expired) == DataEvent(extract, strict, old(t15Expired), old(AsSlice()), data)
    {
      var given := [];
      if t15Expired && start < end {
        given := [Fail(T15Exceeded), Discard(AsSlice())];
        Clear();
      }
      t15Expired := false;
      ghost var o := Outcome([], AsSlice(), false);
      ConsumeAfter(extract, strict, given, o, data);
      assert After(given, o) == Outcome(given, o.rest, false);
      var fed := Feed(extract, strict, data);
      events := given + fed;
      ghost var f := Outcome(events, AsSlice(), t15Expired);
      assert f == Consume(extract, strict, Outcome(given, o.rest, false), data);
      if !strict || end - start >= MAX_FRAME_LENGTH {
        var flushed := FlushPool(extract, strict);
        events := events + flushed;
      }
    }
  }

  lemma FlushAgain(extract: Extractor, strict: bool, t15: bool, b: seq<byte>, events: seq<Event>)
    requires Sound(extract) && b != [] && Extraction(extract, strict, t15, b).Again?
    ensures var r := Extraction(extract, strict, t15, b);
      After(events, Flush(extract, strict, t15, b)) == After(events + [r.event], Flush(extract, strict, t15, b[r.n..]))
  {
    var r := Extraction(extract, strict, t15, b);
    var more := Flush(extract, strict, t15, b[r.n..]).events;
    assert events + ([r.event] + more) == events + [r.event] + more;
  }

  /** Feeding does not depend on the events so far. */
  lemma {:induction false} ConsumeAfter(extract: Extractor, strict: bool, before: seq<Event>, o: Outcome, data: seq<byte>)
    requires Sound(extract) && |o.rest| <= POOL_SIZE
    ensures Consume(extract, strict, After(before, o), data) == After(before, Consume(extract, strict, o, data))
    decreases |data|, |o.rest|
  {
    if data != [] {
      var r := FeedRound(extract, strict, o, data);
      if r.1 == 0 {
        assert (before + o.events) + Flush(extract, strict, o.t15, o.rest).events == before + r.0.events;
      }
      ConsumeAfter(extract, strict, before, r.0, data[r.1..]);
    }
  }
}
