/** What a receiver reports about a byte stream, and streams made of frames. */
module Streams {
  import opened Bytes
  import opened Adus

  /** A frame sent on, bytes thrown away, or an error reported. */
  datatype Event = Emit(frame: seq<byte>) | Discard(bytes: seq<byte>) | Fail(error: FramingError)

  function BytesOfEvent(e: Event): seq<byte> {
    match e
    case Emit(f) => f
    case Discard(b) => b
    case Fail(_) => []
  }

  function BytesOf(events: seq<Event>): seq<byte> {
    if events == [] then [] else BytesOfEvent(events[0]) + BytesOf(events[1..])
  }

  lemma {:induction false} BytesOfConcat(a: seq<Event>, b: seq<Event>)
    ensures BytesOf(a + b) == BytesOf(a) + BytesOf(b)
  {
    if a == [] {
      assert a + b == b;
    } else {
      assert (a + b)[0] == a[0] && (a + b)[1..] == a[1..] + b;
      BytesOfConcat(a[1..], b);
    }
  }

  lemma BytesOfFailure(e: FramingError, b: seq<byte>)
    ensures BytesOf([Fail(e), Discard(b)]) == b
  {
    var s := [Fail(e), Discard(b)];
    assert s[1..] == [Discard(b)] && s[1..][1..] == [];
    assert BytesOf(s[1..]) == b + [];
  }

  function Emits(frames: seq<seq<byte>>): seq<Event> {
    if frames == [] then [] else [Emit(frames[0])] + Emits(frames[1..])
  }

  lemma {:induction false} EmitsConcat(a: seq<seq<byte>>, b: seq<seq<byte>>)
    ensures Emits(a + b) == Emits(a) + Emits(b)
  {
    if a == [] {
      assert a + b == b;
    } else {
      assert (a + b)[0] == a[0] && (a + b)[1..] == a[1..] + b;
      EmitsConcat(a[1..], b);
    }
  }

  lemma {:induction false} ConcatSplit(frames: seq<seq<byte>>, k: nat)
    requires k <= |frames|
    ensures Concat(frames) == Concat(frames[..k]) + Concat(frames[k..])
  {
    assert frames == frames[..k] + frames[k..];
    ConcatAppend(frames[..k], frames[k..]);
  }

  lemma EmitsSplit(frames: seq<seq<byte>>, k: nat, j: nat)
    requires k + j <= |frames|
    ensures Emits(frames[..k + j]) == Emits(frames[..k]) + Emits(frames[k..][..j])
    ensures Concat(frames[..k + j]) == Concat(frames[..k]) + Concat(frames[k..][..j])
  {
    assert frames[..k + j] == frames[..k] + frames[k..][..j];
    EmitsConcat(frames[..k], frames[k..][..j]);
    ConcatAppend(frames[..k], frames[k..][..j]);
  }

  lemma CancelFront<T>(front: seq<T>, x: seq<T>, y: seq<T>)
    requires front + x <= front + y
    ensures x <= y
  {
    assert (front + x)[|front|..] == x && (front + y)[|front|..] == y;
  }

  lemma Regroup<T>(a: seq<T>, b: seq<T>, c: seq<T>)
    ensures (a + b) + c == a + (b + c)
  {}

  /** `b` is the first `k` frames and then `rest`. */
  predicate Taken(frames: seq<seq<byte>>, k: nat, b: seq<byte>, rest: seq<byte>) {
    k <= |frames| && b == Concat(frames[..k]) + rest
  }

  predicate Begins(frames: seq<seq<byte>>, b: seq<byte>) { b <= Concat(frames) }

  lemma ConcatBegins(frames: seq<seq<byte>>, b: seq<byte>, more: seq<byte>)
    requires Begins(frames, b + more)
    ensures Begins(frames, b)
  {
    assert b <= b + more;
  }

  /** What is left of a stream once a piece of it is parsed. */
  lemma RestBegins(frames: seq<seq<byte>>, k: nat, b: seq<byte>, rest: seq<byte>, more: seq<byte>)
    requires Taken(frames, k, b, rest) && Begins(frames, b + more)
    ensures Begins(frames[k..], rest + more)
  {
    ConcatSplit(frames, k);
    Regroup(Concat(frames[..k]), rest, more);
    CancelFront(Concat(frames[..k]), rest + more, Concat(frames[k..]));
  }

  lemma TakenTwice(frames: seq<seq<byte>>, k: nat, b: seq<byte>, r: seq<byte>, more: seq<byte>, j: nat, s: seq<byte>)
    requires Taken(frames, k, b, r) && Taken(frames[k..], j, r + more, s)
    ensures Taken(frames, k + j, b + more, s)
    ensures Emits(frames[..k + j]) == Emits(frames[..k]) + Emits(frames[k..][..j])
  {
    EmitsSplit(frames, k, j);
    Regroup(Concat(frames[..k]), r, more);
    Regroup(Concat(frames[..k]), Concat(frames[k..][..j]), s);
  }

  /** Nothing is held but a proper part of the next frame. */
  predicate Partial(frames: seq<seq<byte>>, rest: seq<byte>) {
    if frames == [] then rest == [] else rest < frames[0]
  }

  lemma LaterIsLonger(frames: seq<seq<byte>>, k: nat, r: seq<byte>, j: nat)
    requires k < j <= |frames| && Partial(frames[k..], r)
    ensures |Concat(frames[..k]) + r| < |Concat(frames[..j])|
  {
    var middle := frames[k..][..j - k];
    EmitsSplit(frames, k, j - k);
    assert Concat(middle) == frames[k] + Concat(middle[1..]);
  }

  /** A stream is parsed in only one way. */
  lemma ParsedOnce(frames: seq<seq<byte>>, k: nat, b: seq<byte>, r: seq<byte>, j: nat, s: seq<byte>)
    requires Taken(frames, k, b, r) && Taken(frames, j, b, s)
    requires Partial(frames[k..], r) && Partial(frames[j..], s)
    ensures k == j && r == s
  {
    if k < j {
      LaterIsLonger(frames, k, r, j);
    } else if j < k {
      LaterIsLonger(frames, j, s, k);
    }
  }

  lemma PartBegins<T>(front: seq<T>, part: seq<T>, next: seq<T>)
    requires part <= next
    ensures front + part <= front + next
  {
    assert front + next == (front + part) + next[|part|..];
  }

  lemma OneFrame(frame: seq<byte>)
    ensures Emits([frame]) == [Emit(frame)] && Concat([frame]) == frame
  {
    assert [frame][1..] == [] && frame + [] == frame;
    assert Emits([frame][1..]) == [] && [Emit(frame)] + [] == [Emit(frame)];
  }
}
