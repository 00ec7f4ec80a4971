/** What the RTU receive side does to arbitrary bytes: nothing is lost, reordered or invented, and
    only checked frames come out. */
module RtuStream {
  import opened Bytes
  import opened Adus
  import opened Streams
  import opened RtuFramer

  // ---------------------------------------------------------------- conservation

  function AllBytes(o: Outcome): seq<byte> { BytesOf(o.events) + o.rest }

  lemma StopConserves(extract: Extractor, strict: bool, t15: bool, b: seq<byte>)
    requires Sound(extract) && b != [] && Extraction(extract, strict, t15, b).Stop?
    ensures BytesOf(Extraction(extract, strict, t15, b).events) + Extraction(extract, strict, t15, b).rest == b
  {
    var r := Extraction(extract, strict, t15, b);
    if r.events != [] {
      var e := r.events[0].error;
      BytesOfFailure(e, b);
      assert r.events == [Fail(e), Discard(b)];
    }
  }

  lemma PrependBytes(e: Event, o: Outcome)
    ensures AllBytes(Prepend(e, o)) == BytesOfEvent(e) + AllBytes(o)
  {
    assert Prepend(e, o).events[1..] == o.events;
  }

  lemma AgainConserves(e: Event, n: nat, b: seq<byte>, o: Outcome)
    requires n <= |b| && BytesOfEvent(e) == b[..n] && AllBytes(o) == b[n..]
    ensures AllBytes(Prepend(e, o)) == b
  {
    PrependBytes(e, o);
  }

  /** Frames, discarded bytes and what is kept are, in order, the bytes the pool held. */
  lemma {:induction false} FlushConserves(extract: Extractor, strict: bool, t15: bool, b: seq<byte>)
    requires Sound(extract)
    ensures AllBytes(Flush(extract, strict, t15, b)) == b
    decreases |b|
  {
    if b != [] {
      var r := Extraction(extract, strict, t15, b);
      if r.Again? {
        FlushConserves(extract, strict, t15, b[r.n..]);
        AgainConserves(r.event, r.n, b, Flush(extract, strict, t15, b[r.n..]));
      } else {
        StopConserves(extract, strict, t15, b);
      }
    }
  }

  lemma AfterBytes(before: seq<Event>, o: Outcome)
    ensures AllBytes(After(before, o)) == BytesOf(before) + AllBytes(o)
  {
    BytesOfConcat(before, o.events);
  }

  lemma FeedRoundConserves(extract: Extractor, strict: bool, o: Outcome, data: seq<byte>)
    requires Sound(extract) && |o.rest| <= POOL_SIZE
    ensures var r := FeedRound(extract, strict, o, data);
      r.1 <= |data| && AllBytes(r.0) == AllBytes(o) + data[..r.1]
  {
    FlushConserves(extract, strict, o.t15, o.rest);
    AfterBytes(o.events, Flush(extract, strict, o.t15, o.rest));
  }

  lemma {:induction false} ConsumeConserves(extract: Extractor, strict: bool, o: Outcome, data: seq<byte>)
    requires Sound(extract) && |o.rest| <= POOL_SIZE
    ensures AllBytes(Consume(extract, strict, o, data)) == AllBytes(o) + data
    ensures |Consume(extract, strict, o, data).rest| <= POOL_SIZE
    decreases |data|, |o.rest|
  {
    if data != [] {
      var r := FeedRound(extract, strict, o, data);
      FeedRoundConserves(extract, strict, o, data);
      ConsumeConserves(extract, strict, r.0, data[r.1..]);
      Regroup(AllBytes(o), data[..r.1], data[r.1..]);
      assert data[..r.1] + data[r.1..] == data;
    }
  }

  lemma OpeningConserves(t15: bool, b: seq<byte>)
    ensures AllBytes(Opening(t15, b)) == b
  {
    BytesOfFailure(T15Exceeded, b);
  }

  /** A chunk of arbitrary bytes: everything held before and everything in the chunk is, in order,
      in the frames sent on, in what was thrown away, or still held. */
  lemma DataEventConserves(extract: Extractor, strict: bool, t15: bool, b: seq<byte>, data: seq<byte>)
    requires Sound(extract) && |b| <= POOL_SIZE
    ensures AllBytes(DataEvent(extract, strict, t15, b, data)) == b + data
    ensures |DataEvent(extract, strict, t15, b, data).rest| < MAX_FRAME_LENGTH
  {
    OpeningConserves(t15, b);
    ConsumeConserves(extract, strict, Opening(t15, b), data);
    var fed := Consume(extract, strict, Opening(t15, b), data);
    FlushConserves(extract, strict, fed.t15, fed.rest);
    FlushBound(extract, strict, fed.t15, fed.rest);
    AfterBytes(fed.events, Flush(extract, strict, fed.t15, fed.rest));
  }

  // ---------------------------------------------------------------- what comes out

  /** Every frame the extractor finds has property `good`. */
  ghost predicate Yields(extract: Extractor, good: seq<byte> -> bool) {
    forall b :: extract(b).Frame? && extract(b).length <= |b| ==> good(b[..extract(b).length])
  }

  predicate Checked(good: seq<byte> -> bool, e: Event) {
    e.Emit? ==> MIN_FRAME_LENGTH <= |e.frame| <= MAX_FRAME_LENGTH && good(e.frame)
  }

  predicate AllChecked(good: seq<byte> -> bool, events: seq<Event>) {
    forall i :: 0 <= i < |events| ==> Checked(good, events[i])
  }

  /** An error is the last thing reported, with the bytes given up for it. */
  predicate ErrorIsLast(events: seq<Event>) {
    forall i :: 0 <= i < |events| && events[i].Fail? ==> i + 2 == |events|
  }

  lemma ExtractionIsChecked(extract: Extractor, good: seq<byte> -> bool, strict: bool, t15: bool, b: seq<byte>)
    requires Sound(extract) && Yields(extract, good) && b != []
    ensures var r := Extraction(extract, strict, t15, b);
      if r.Again? then Checked(good, r.event) && !r.event.Fail? else AllChecked(good, r.events) && ErrorIsLast(r.events)
  {
    assert FrameFits(extract(b), b);
  }

  /** Every flush emits frames that pass the check and fit the size limits, followed by at most one
      error. */
  lemma {:induction false} FlushEmitsChecked(
    extract: Extractor, good: seq<byte> -> bool, strict: bool, t15: bool, b: seq<byte>)
    requires Sound(extract) && Yields(extract, good)
    ensures AllChecked(good, Flush(extract, strict, t15, b).events)
    ensures ErrorIsLast(Flush(extract, strict, t15, b).events)
    decreases |b|
  {
    if b != [] {
      var r := Extraction(extract, strict, t15, b);
      ExtractionIsChecked(extract, good, strict, t15, b);
      if r.Again? {
        FlushEmitsChecked(extract, good, strict, t15, b[r.n..]);
      }
    }
  }

  lemma {:induction false} ConsumeEmitsChecked(
    extract: Extractor, good: seq<byte> -> bool, strict: bool, o: Outcome, data: seq<byte>)
    requires Sound(extract) && Yields(extract, good) && |o.rest| <= POOL_SIZE && AllChecked(good, o.events)
    ensures AllChecked(good, Consume(extract, strict, o, data).events)
    decreases |data|, |o.rest|
  {
    if data != [] {
      var r := FeedRound(extract, strict, o, data);
      FlushEmitsChecked(extract, good, strict, o.t15, o.rest);
      ConsumeEmitsChecked(extract, good, strict, r.0, data[r.1..]);
    }
  }

  lemma DataEventEmitsChecked(
    extract: Extractor, good: seq<byte> -> bool, strict: bool, t15: bool, b: seq<byte>, data: seq<byte>)
    requires Sound(extract) && Yields(extract, good) && |b| <= POOL_SIZE
    ensures AllChecked(good, DataEvent(extract, strict, t15, b, data).events)
  {
    ConsumeEmitsChecked(extract, good, strict, Opening(t15, b), data);
    var fed := Consume(extract, strict, Opening(t15, b), data);
    FlushEmitsChecked(extract, good, strict, fed.t15, fed.rest);
  }
}
