/** When the order of the ASCII reports does not depend on the cutting. A chunk's overflows are reported
    before its bad characters, and these before its completed frames, so a report overtakes another
    exactly if both come of one chunk. */
module AsciiOrder {
  import opened Bytes
  import opened Adus
  import opened AsciiStream
  import Streams

  // ---------------------------------------------------------------- the signals of a stream

  /** What each byte brings about, in order. */
  function Trace(lenient: bool, s: State, data: seq<byte>): (trace: seq<Signal>)
    ensures |trace| == |data|
    decreases |data|
  {
    if data == [] then []
    else
      var next := Step(lenient, s, data[0]);
      [next.1] + Trace(lenient, next.0, data[1..])
  }

  function Rank(g: Signal): nat {
    match g
    case Overflow => 0
    case BadHex => 1
    case Complete(_) => 2
    case Quiet => 3
  }

  /** The report a signal leads to. */
  function Report(g: Signal): Event
    requires !g.Quiet?
  {
    match g
    case Overflow => Failure(InvalidData)
    case BadHex => Failure(InvalidHex)
    case Complete(payload) => EventOf(payload)
  }

  /** What a listener hears: all reports, or for instance the errors alone. */
  type Listener = Event -> bool

  predicate Heard(keep: Listener, g: Signal) { !g.Quiet? && keep(Report(g)) }

  /** A report that can be overtaken by a different one after it. */
  predicate Misplaced(keep: Listener, x: Signal, y: Signal) {
    Heard(keep, x) && Heard(keep, y) && Rank(x) > Rank(y) && Report(x) != Report(y)
  }

  ghost predicate InOrder(keep: Listener, trace: seq<Signal>) {
    forall p, q :: 0 <= p < q < |trace| ==> !Misplaced(keep, trace[p], trace[q])
  }

  function Kept(keep: Listener, e: Event): seq<Event> { if keep(e) then [e] else [] }

  function Hear(keep: Listener, events: seq<Event>): seq<Event> {
    if events == [] then [] else Kept(keep, events[0]) + Hear(keep, events[1..])
  }

  /** Who listens to everything hears the reports as they are. */
  lemma {:induction false} HearAll(keep: Listener, events: seq<Event>)
    requires forall e :: keep(e)
    ensures Hear(keep, events) == events
  {
    if events != [] {
      HearAll(keep, events[1..]);
    }
  }

  function One(keep: Listener, ranks: set<nat>, g: Signal): seq<Event> {
    if Heard(keep, g) && Rank(g) in ranks then [Report(g)] else []
  }

  /** The reports of some ranks, in the order of the signals. */
  function Select(keep: Listener, ranks: set<nat>, trace: seq<Signal>): seq<Event> {
    if trace == [] then [] else One(keep, ranks, trace[0]) + Select(keep, ranks, trace[1..])
  }

  const ALL: set<nat> := {0, 1, 2}

  function Plain(keep: Listener, trace: seq<Signal>): seq<Event> { Select(keep, ALL, trace) }

  function Sorted(keep: Listener, trace: seq<Signal>): seq<Event> {
    Select(keep, {0}, trace) + Select(keep, {1}, trace) + Select(keep, {2}, trace)
  }

  lemma {:induction false} SelectConcat(keep: Listener, ranks: set<nat>, a: seq<Signal>, b: seq<Signal>)
    ensures Select(keep, ranks, a + b) == Select(keep, ranks, a) + Select(keep, ranks, b)
    decreases |a|
  {
    if a == [] {
      assert a + b == b;
    } else {
      assert (a + b)[0] == a[0] && (a + b)[1..] == a[1..] + b;
      SelectConcat(keep, ranks, a[1..], b);
      Streams.Regroup(One(keep, ranks, a[0]), Select(keep, ranks, a[1..]), Select(keep, ranks, b));
    }
  }

  lemma SelectOne(keep: Listener, ranks: set<nat>, g: Signal)
    ensures Select(keep, ranks, [g]) == One(keep, ranks, g)
  {
    assert [g][1..] == [];
  }

  lemma {:induction false} HearConcat(keep: Listener, a: seq<Event>, b: seq<Event>)
    ensures Hear(keep, a + b) == Hear(keep, a) + Hear(keep, b)
    decreases |a|
  {
    if a == [] {
      assert a + b == b;
    } else {
      assert (a + b)[0] == a[0] && (a + b)[1..] == a[1..] + b;
      HearConcat(keep, a[1..], b);
      Streams.Regroup(Kept(keep, a[0]), Hear(keep, a[1..]), Hear(keep, b));
    }
  }

  lemma {:induction false} TraceConcat(lenient: bool, s: State, a: seq<byte>, b: seq<byte>)
    ensures Trace(lenient, s, a + b) == Trace(lenient, s, a) + Trace(lenient, Drive(lenient, Start(s), a).state, b)
    decreases |a|
  {
    if a == [] {
      assert a + b == b;
    } else {
      var next := Step(lenient, s, a[0]);
      assert (a + b)[0] == a[0] && (a + b)[1..] == a[1..] + b;
      TraceConcat(lenient, next.0, a[1..], b);
      SameState(lenient, Note(Start(s), next), Start(next.0), a[1..]);
    }
  }

  /** Where the automaton goes does not depend on what has been noted. */
  lemma {:induction false} SameState(lenient: bool, d: Driven, e: Driven, data: seq<byte>)
    requires d.state == e.state
    ensures Drive(lenient, d, data).state == Drive(lenient, e, data).state
    decreases |data|
  {
    if data != [] {
      var next := Step(lenient, d.state, data[0]);
      SameState(lenient, Note(d, next), Note(e, next), data[1..]);
    }
  }

  // ---------------------------------------------------------------- a chunk reports its signals by rank

  lemma {:induction false} OneMoreFailure(n: nat, e: FramingError)
    ensures Failures(n + 1, e) == Failures(n, e) + [Failure(e)]
  {
    if n > 0 {
      OneMoreFailure(n - 1, e);
    }
  }

  lemma HearOne(keep: Listener, events: seq<Event>, e: Event)
    ensures Hear(keep, events + [e]) == Hear(keep, events) + Kept(keep, e)
  {
    HearConcat(keep, events, [e]);
    assert [e][1..] == [];
  }

  lemma SelectAppend(keep: Listener, ranks: set<nat>, trace: seq<Signal>, g: Signal)
    ensures Select(keep, ranks, trace + [g]) == Select(keep, ranks, trace) + One(keep, ranks, g)
  {
    SelectConcat(keep, ranks, trace, [g]);
    SelectOne(keep, ranks, g);
  }

  /** What has been noted of a rank is what the signals of that rank say. */
  predicate Tells(keep: Listener, noted: seq<Event>, rank: nat, trace: seq<Signal>) {
    Hear(keep, noted) == Select(keep, {rank}, trace)
  }

  lemma TellsOneMore(keep: Listener, noted: seq<Event>, rank: nat, trace: seq<Signal>, g: Signal)
    requires Tells(keep, noted, rank, trace) && !g.Quiet? && Rank(g) == rank
    ensures Tells(keep, noted + [Report(g)], rank, trace + [g])
  {
    SelectAppend(keep, {rank}, trace, g);
    HearOne(keep, noted, Report(g));
  }

  lemma TellsNoMore(keep: Listener, noted: seq<Event>, rank: nat, trace: seq<Signal>, g: Signal)
    requires Tells(keep, noted, rank, trace) && Rank(g) != rank
    ensures Tells(keep, noted, rank, trace + [g])
  {
    SelectAppend(keep, {rank}, trace, g);
  }

  function Noted(d: Driven, rank: nat): seq<Event> {
    if rank == 0 then Failures(d.overflows, InvalidData)
    else if rank == 1 then Failures(d.invalidHex, InvalidHex)
    else Deliver(d.completed)
  }

  lemma NoteReports(d: Driven, next: (State, Signal), rank: nat)
    requires rank < 3
    ensures Noted(Note(d, next), rank)
         == if !next.1.Quiet? && Rank(next.1) == rank then Noted(d, rank) + [Report(next.1)] else Noted(d, rank)
  {
    match next.1
    case Quiet =>
    case Overflow => OneMoreFailure(d.overflows, InvalidData);
    case BadHex => OneMoreFailure(d.invalidHex, InvalidHex);
    case Complete(p) =>
      DeliverConcat(d.completed, [p]);
      assert [p][1..] == [] && Deliver([p]) == [EventOf(p)];
  }

  lemma {:induction false} DriveTells(
    keep: Listener, lenient: bool, d: Driven, before: seq<Signal>, data: seq<byte>, rank: nat)
    requires rank < 3 && Tells(keep, Noted(d, rank), rank, before)
    ensures Tells(keep, Noted(Drive(lenient, d, data), rank), rank, before + Trace(lenient, d.state, data))
    decreases |data|
  {
    if data == [] {
      assert before + [] == before;
    } else {
      var next := Step(lenient, d.state, data[0]);
      NoteReports(d, next, rank);
      if !next.1.Quiet? && Rank(next.1) == rank {
        TellsOneMore(keep, Noted(d, rank), rank, before, next.1);
      } else {
        TellsNoMore(keep, Noted(d, rank), rank, before, next.1);
      }
      DriveTells(keep, lenient, Note(d, next), before + [next.1], data[1..], rank);
      Streams.Regroup(before, [next.1], Trace(lenient, next.0, data[1..]));
    }
  }

  lemma ReportsAreSorted(keep: Listener, lenient: bool, s: State, data: seq<byte>)
    ensures Hear(keep, Reports(Drive(lenient, Start(s), data))) == Sorted(keep, Trace(lenient, s, data))
  {
    var d := Drive(lenient, Start(s), data);
    forall rank: nat | rank < 3 ensures Tells(keep, Noted(d, rank), rank, Trace(lenient, s, data)) {
      DriveTells(keep, lenient, Start(s), [], data, rank);
      assert [] + Trace(lenient, s, data) == Trace(lenient, s, data);
    }
    assert Tells(keep, Noted(d, 0), 0, Trace(lenient, s, data));
    assert Tells(keep, Noted(d, 1), 1, Trace(lenient, s, data));
    assert Tells(keep, Noted(d, 2), 2, Trace(lenient, s, data));
    HearConcat(keep, Failures(d.overflows, InvalidData), Failures(d.invalidHex, InvalidHex));
    HearConcat(keep, Failures(d.overflows, InvalidData) + Failures(d.invalidHex, InvalidHex), Deliver(d.completed));
  }

  // ---------------------------------------------------------------- in order, the cutting is not heard

  lemma {:induction false} SelectIsAll(keep: Listener, ranks: set<nat>, trace: seq<Signal>, e: Event)
    requires forall p :: 0 <= p < |trace| && Heard(keep, trace[p]) && Rank(trace[p]) in ranks ==> Report(trace[p]) == e
    ensures forall i :: 0 <= i < |Select(keep, ranks, trace)| ==> Select(keep, ranks, trace)[i] == e
    decreases |trace|
  {
    if trace != [] {
      SelectIsAll(keep, ranks, trace[1..], e);
    }
  }

  lemma Commutes(e: Event, all: seq<Event>)
    requires forall i :: 0 <= i < |all| ==> all[i] == e
    ensures [e] + all == all + [e]
  {}

  /** Sorting moves nothing that can be told apart. */
  lemma InsertInOrder(a: seq<Event>, b: seq<Event>, c: seq<Event>, e: Event, rank: nat)
    requires rank < 3
    requires rank < 1 ==> forall i :: 0 <= i < |b| ==> b[i] == e
    requires rank < 2 ==> forall i :: 0 <= i < |c| ==> c[i] == e
    ensures (a + if rank == 0 then [e] else []) + (b + if rank == 1 then [e] else []) + (c + if rank == 2 then [e] else [])
         == a + b + c + [e]
  {
    if rank == 0 {
      Commutes(e, b);
      assert (a + [e]) + b + c == a + ([e] + b) + c == a + b + ([e] + c);
    }
    if rank <= 1 {
      Commutes(e, c);
      assert a + (b + [e]) + c == a + b + ([e] + c);
    }
  }

  lemma LaterRanksAgree(keep: Listener, t: seq<Signal>, g: Signal, r: nat)
    requires InOrder(keep, t + [g]) && Heard(keep, g) && Rank(g) < r < 3
    ensures forall i :: 0 <= i < |Select(keep, {r}, t)| ==> Select(keep, {r}, t)[i] == Report(g)
  {
    forall p | 0 <= p < |t| && Heard(keep, t[p]) && Rank(t[p]) in {r} ensures Report(t[p]) == Report(g) {
      assert !Misplaced(keep, (t + [g])[p], (t + [g])[|t|]);
    }
    SelectIsAll(keep, {r}, t, Report(g));
  }

  lemma SortOneMore(keep: Listener, t: seq<Signal>, g: Signal)
    requires InOrder(keep, t + [g]) && Sorted(keep, t) == Plain(keep, t)
    ensures Sorted(keep, t + [g]) == Plain(keep, t + [g])
  {
    SelectAppend(keep, {0}, t, g);
    SelectAppend(keep, {1}, t, g);
    SelectAppend(keep, {2}, t, g);
    SelectAppend(keep, ALL, t, g);
    if Heard(keep, g) {
      if Rank(g) < 1 {
        LaterRanksAgree(keep, t, g, 1);
      }
      if Rank(g) < 2 {
        LaterRanksAgree(keep, t, g, 2);
      }
      InsertInOrder(Select(keep, {0}, t), Select(keep, {1}, t), Select(keep, {2}, t), Report(g), Rank(g));
    }
  }

  lemma {:induction false} InOrderIsSorted(keep: Listener, trace: seq<Signal>)
    requires InOrder(keep, trace)
    ensures Sorted(keep, trace) == Plain(keep, trace)
    decreases |trace|
  {
    if trace != [] {
      var n := |trace| - 1;
      assert trace == trace[..n] + [trace[n]];
      InOrderParts(keep, trace[..n], [trace[n]]);
      InOrderIsSorted(keep, trace[..n]);
      SortOneMore(keep, trace[..n], trace[n]);
    }
  }

  lemma InOrderParts(keep: Listener, a: seq<Signal>, b: seq<Signal>)
    requires InOrder(keep, a + b)
    ensures InOrder(keep, a) && InOrder(keep, b)
  {
    forall p, q | 0 <= p < q < |a| ensures !Misplaced(keep, a[p], a[q]) {
      assert !Misplaced(keep, (a + b)[p], (a + b)[q]);
    }
    forall p, q | 0 <= p < q < |b| ensures !Misplaced(keep, b[p], b[q]) {
      assert !Misplaced(keep, (a + b)[|a| + p], (a + b)[|a| + q]);
    }
  }

  /** One chunk and what follows it. */
  lemma HearFirst(keep: Listener, lenient: bool, s: State, chunks: seq<seq<byte>>)
    requires chunks != []
    ensures var t := Drive(lenient, Start(s), chunks[0]).state;
      Hear(keep, DriveAll(lenient, s, chunks).1)
      == Sorted(keep, Trace(lenient, s, chunks[0])) + Hear(keep, DriveAll(lenient, t, chunks[1..]).1)
  {
    var d := Drive(lenient, Start(s), chunks[0]);
    ReportsAreSorted(keep, lenient, s, chunks[0]);
    HearConcat(keep, Reports(d), DriveAll(lenient, d.state, chunks[1..]).1);
  }

  ghost predicate EachInOrder(keep: Listener, lenient: bool, s: State, chunks: seq<seq<byte>>)
    decreases |chunks|
  {
    chunks == []
    || (InOrder(keep, Trace(lenient, s, chunks[0]))
        && EachInOrder(keep, lenient, Drive(lenient, Start(s), chunks[0]).state, chunks[1..]))
  }

  /** If the signals of each chunk are in order, all reports come in the order of their signals. */
  lemma {:induction false} HearEach(keep: Listener, lenient: bool, s: State, chunks: seq<seq<byte>>)
    requires EachInOrder(keep, lenient, s, chunks)
    ensures Hear(keep, DriveAll(lenient, s, chunks).1) == Plain(keep, Trace(lenient, s, Concat(chunks)))
    decreases |chunks|
  {
    if chunks != [] {
      var t := Drive(lenient, Start(s), chunks[0]).state;
      HearFirst(keep, lenient, s, chunks);
      InOrderIsSorted(keep, Trace(lenient, s, chunks[0]));
      HearEach(keep, lenient, t, chunks[1..]);
      TraceConcat(lenient, s, chunks[0], Concat(chunks[1..]));
      SelectConcat(keep, ALL, Trace(lenient, s, chunks[0]), Trace(lenient, t, Concat(chunks[1..])));
    }
  }

  lemma {:induction false} WholeInOrder(keep: Listener, lenient: bool, s: State, chunks: seq<seq<byte>>)
    requires InOrder(keep, Trace(lenient, s, Concat(chunks)))
    ensures EachInOrder(keep, lenient, s, chunks)
    decreases |chunks|
  {
    if chunks != [] {
      var t := Drive(lenient, Start(s), chunks[0]).state;
      TraceConcat(lenient, s, chunks[0], Concat(chunks[1..]));
      InOrderParts(keep, Trace(lenient, s, chunks[0]), Trace(lenient, t, Concat(chunks[1..])));
      WholeInOrder(keep, lenient, t, chunks[1..]);
    }
  }

  // ---------------------------------------------------------------- out of order, some cutting is heard

  /** Every byte a chunk. */
  function Singles(data: seq<byte>): seq<seq<byte>> {
    if data == [] then [] else [[data[0]]] + Singles(data[1..])
  }

  lemma {:induction false} SinglesConcat(data: seq<byte>)
    ensures Concat(Singles(data)) == data
  {
    if data != [] {
      SinglesConcat(data[1..]);
    }
  }

  lemma {:induction false} SinglesInOrder(keep: Listener, lenient: bool, s: State, data: seq<byte>)
    ensures EachInOrder(keep, lenient, s, Singles(data))
    decreases |data|
  {
    if data != [] {
      SinglesInOrder(keep, lenient, Drive(lenient, Start(s), [data[0]]).state, data[1..]);
    }
  }

  lemma HearSingles(keep: Listener, lenient: bool, s: State, data: seq<byte>)
    ensures Concat(Singles(data)) == data
    ensures Hear(keep, DriveAll(lenient, s, Singles(data)).1) == Plain(keep, Trace(lenient, s, data))
  {
    SinglesConcat(data);
    SinglesInOrder(keep, lenient, s, data);
    HearEach(keep, lenient, s, Singles(data));
  }

  lemma {:induction false} DriveAllConcat(lenient: bool, s: State, a: seq<seq<byte>>, b: seq<seq<byte>>)
    ensures var t := Drive(lenient, Start(s), Concat(a)).state;
      DriveAll(lenient, s, a + b).1 == DriveAll(lenient, s, a).1 + DriveAll(lenient, t, b).1
    decreases |a|
  {
    if a == [] {
      assert a + b == b && [] + DriveAll(lenient, s, b).1 == DriveAll(lenient, s, b).1;
    } else {
      assert (a + b)[0] == a[0] && (a + b)[1..] == a[1..] + b;
      var d := Drive(lenient, Start(s), a[0]);
      DriveAllConcat(lenient, d.state, a[1..], b);
      DriveConcat(lenient, Start(s), a[0], Concat(a[1..]));
      SameState(lenient, d, Start(d.state), Concat(a[1..]));
      var t := Drive(lenient, Start(s), Concat(a)).state;
      Streams.Regroup(Reports(d), DriveAll(lenient, d.state, a[1..]).1, DriveAll(lenient, t, b).1);
    }
  }

  /** Two signals out of order and what is between them in one chunk, every other byte a chunk. */
  function Together(pre: seq<byte>, mid: seq<byte>, post: seq<byte>): seq<seq<byte>> {
    Singles(pre) + ([mid] + Singles(post))
  }

  lemma HearTail(keep: Listener, lenient: bool, t: State, mid: seq<byte>, post: seq<byte>)
    ensures Concat([mid] + Singles(post)) == mid + post
    ensures Hear(keep, DriveAll(lenient, t, [mid] + Singles(post)).1)
      == Sorted(keep, Trace(lenient, t, mid)) + Plain(keep, Trace(lenient, Drive(lenient, Start(t), mid).state, post))
  {
    var late := [mid] + Singles(post);
    HearSingles(keep, lenient, Drive(lenient, Start(t), mid).state, post);
    assert late[1..] == Singles(post);
    HearFirst(keep, lenient, t, late);
  }

  lemma HearTogether(keep: Listener, lenient: bool, s: State, pre: seq<byte>, mid: seq<byte>, post: seq<byte>, t: State)
    requires t == Drive(lenient, Start(s), pre).state
    ensures Concat(Together(pre, mid, post)) == pre + (mid + post)
    ensures Hear(keep, DriveAll(lenient, s, Together(pre, mid, post)).1)
      == Plain(keep, Trace(lenient, s, pre))
         + (Sorted(keep, Trace(lenient, t, mid)) + Plain(keep, Trace(lenient, Drive(lenient, Start(t), mid).state, post)))
  {
    var late := [mid] + Singles(post);
    HearSingles(keep, lenient, s, pre);
    HearTail(keep, lenient, t, mid, post);
    DriveAllConcat(lenient, s, Singles(pre), late);
    HearConcat(keep, DriveAll(lenient, s, Singles(pre)).1, DriveAll(lenient, t, late).1);
    ConcatAppend(Singles(pre), late);
  }

  lemma PlainParts(keep: Listener, lenient: bool, s: State, pre: seq<byte>, mid: seq<byte>, post: seq<byte>, t: State)
    requires t == Drive(lenient, Start(s), pre).state
    ensures Plain(keep, Trace(lenient, s, pre + (mid + post)))
      == Plain(keep, Trace(lenient, s, pre))
         + (Plain(keep, Trace(lenient, t, mid)) + Plain(keep, Trace(lenient, Drive(lenient, Start(t), mid).state, post)))
  {
    TraceConcat(lenient, s, pre, mid + post);
    TraceConcat(lenient, t, mid, post);
    SelectConcat(keep, ALL, Trace(lenient, s, pre), Trace(lenient, t, mid + post));
    SelectConcat(keep, ALL, Trace(lenient, t, mid), Trace(lenient, Drive(lenient, Start(t), mid).state, post));
  }

  /** No completed payload is reported as a bad character. */
  predicate Decodable(g: Signal) { g.Complete? ==> EventOf(g.payload) != Failure(InvalidHex) }

  lemma {:induction false} TraceIsDecodable(lenient: bool, s: State, data: seq<byte>)
    requires Clean(lenient, s)
    ensures forall p :: 0 <= p < |data| ==> Decodable(Trace(lenient, s, data)[p])
    decreases |data|
  {
    if data != [] {
      var next := Step(lenient, s, data[0]);
      if next.1.Complete? {
        CompletedDecodes(lenient, next.1.payload);
      }
      TraceIsDecodable(lenient, next.0, data[1..]);
    }
  }

  lemma {:induction false} SelectFirst(keep: Listener, ranks: set<nat>, trace: seq<Signal>, p: nat)
    requires p < |trace| && Heard(keep, trace[p]) && Rank(trace[p]) in ranks
    ensures Report(trace[p]) in Select(keep, ranks, trace)
    decreases |trace|
  {
    if p > 0 {
      SelectFirst(keep, ranks, trace[1..], p - 1);
    }
  }

  lemma {:induction false} SelectAvoids(keep: Listener, ranks: set<nat>, trace: seq<Signal>, e: Event)
    requires forall p :: 0 <= p < |trace| && Heard(keep, trace[p]) && Rank(trace[p]) in ranks ==> Report(trace[p]) != e
    ensures e !in Select(keep, ranks, trace)
    decreases |trace|
  {
    if trace != [] {
      SelectAvoids(keep, ranks, trace[1..], e);
    }
  }

  lemma PlainEnds(keep: Listener, trace: seq<Signal>)
    requires trace != [] && Heard(keep, trace[0]) && Heard(keep, trace[|trace| - 1])
    ensures var e := Plain(keep, trace);
      e != [] && e[0] == Report(trace[0]) && e[|e| - 1] == Report(trace[|trace| - 1])
  {
    var n := |trace| - 1;
    assert trace == trace[..n] + [trace[n]];
    SelectConcat(keep, ALL, trace[..n], [trace[n]]);
    SelectOne(keep, ALL, trace[n]);
  }

  /** A chunk whose first and last signals are misplaced is heard otherwise than byte by byte. */
  lemma MisplacedIsHeard(keep: Listener, trace: seq<Signal>)
    requires |trace| >= 2 && Misplaced(keep, trace[0], trace[|trace| - 1])
    requires forall p :: 0 <= p < |trace| ==> Decodable(trace[p])
    ensures Sorted(keep, trace) != Plain(keep, trace)
  {
    var n := |trace| - 1;
    PlainEnds(keep, trace);
    var a, b, c := Select(keep, {0}, trace), Select(keep, {1}, trace), Select(keep, {2}, trace);
    if trace[n].Overflow? {
      SelectFirst(keep, {0}, trace, n);
      SelectIsAll(keep, {0}, trace, Failure(InvalidData));
      assert (a + b + c)[0] == a[0] == Failure(InvalidData);
    } else {
      assert trace[n].BadHex? && trace[0].Complete?;
      SelectFirst(keep, {2}, trace, 0);
      SelectAvoids(keep, {2}, trace, Failure(InvalidHex));
      assert (a + b + c)[|a + b + c| - 1] == c[|c| - 1] && c[|c| - 1] in c;
    }
  }

  lemma CancelBoth(front: seq<Event>, x: seq<Event>, y: seq<Event>, back: seq<Event>)
    requires front + (x + back) == front + (y + back)
    ensures x == y
  {
    var l, r := front + (x + back), front + (y + back);
    assert |x| == |y|;
    assert x == l[|front|..|front| + |x|] && y == r[|front|..|front| + |y|];
  }

  /** No cutting of a stream is heard otherwise than the uncut stream. */
  ghost predicate CuttingUnheard(keep: Listener, lenient: bool, s: State, data: seq<byte>) {
    forall chunks :: Concat(chunks) == data ==>
      Hear(keep, DriveAll(lenient, s, chunks).1) == Hear(keep, Reports(Drive(lenient, Start(s), data)))
  }

  /** The stream between two bytes. */
  lemma Between(lenient: bool, s: State, data: seq<byte>, p: nat, q: nat) returns (t: State)
    requires p < q < |data|
    ensures t == Drive(lenient, Start(s), data[..p]).state
    ensures data == data[..p] + (data[p..q + 1] + data[q + 1..])
    ensures var trace := Trace(lenient, t, data[p..q + 1]);
      |trace| == q - p + 1 && trace[0] == Trace(lenient, s, data)[p] && trace[q - p] == Trace(lenient, s, data)[q]
  {
    var pre, mid, post := data[..p], data[p..q + 1], data[q + 1..];
    t := Drive(lenient, Start(s), pre).state;
    assert data == pre + (mid + post);
    TraceConcat(lenient, s, pre, mid + post);
    TraceConcat(lenient, t, mid, post);
  }

  lemma OutOfOrderIsHeard(keep: Listener, lenient: bool, s: State, data: seq<byte>, p: nat, q: nat)
    requires Clean(lenient, s) && p < q < |data|
    requires Misplaced(keep, Trace(lenient, s, data)[p], Trace(lenient, s, data)[q])
    ensures !CuttingUnheard(keep, lenient, s, data)
  {
    var pre, mid, post := data[..p], data[p..q + 1], data[q + 1..];
    var t := Between(lenient, s, data, p, q);
    DriveKeepsClean(lenient, Start(s), pre);
    TraceIsDecodable(lenient, t, mid);
    MisplacedIsHeard(keep, Trace(lenient, t, mid));
    TogetherIsHeard(keep, lenient, s, pre, mid, post, t);
  }

  lemma TogetherIsHeard(keep: Listener, lenient: bool, s: State, pre: seq<byte>, mid: seq<byte>, post: seq<byte>, t: State)
    requires t == Drive(lenient, Start(s), pre).state
    requires Sorted(keep, Trace(lenient, t, mid)) != Plain(keep, Trace(lenient, t, mid))
    ensures !CuttingUnheard(keep, lenient, s, pre + (mid + post))
  {
    var data := pre + (mid + post);
    HearTogether(keep, lenient, s, pre, mid, post, t);
    HearSingles(keep, lenient, s, data);
    PlainParts(keep, lenient, s, pre, mid, post, t);
    if Hear(keep, DriveAll(lenient, s, Together(pre, mid, post)).1) == Hear(keep, DriveAll(lenient, s, Singles(data)).1) {
      CancelBoth(Plain(keep, Trace(lenient, s, pre)), Sorted(keep, Trace(lenient, t, mid)), Plain(keep, Trace(lenient, t, mid)),
                 Plain(keep, Trace(lenient, Drive(lenient, Start(t), mid).state, post)));
    }
  }

  /** ORDER. From a state the automaton can be in, no cutting of a stream is heard, by a listener to any
      kinds of reports, if and only if no report among its signals precedes a different one of an
      earlier rank. */
  lemma OrderKeptIff(keep: Listener, lenient: bool, s: State, data: seq<byte>)
    requires Clean(lenient, s)
    ensures CuttingUnheard(keep, lenient, s, data) <==> InOrder(keep, Trace(lenient, s, data))
  {
    if InOrder(keep, Trace(lenient, s, data)) {
      forall chunks | Concat(chunks) == data
        ensures Hear(keep, DriveAll(lenient, s, chunks).1) == Hear(keep, Reports(Drive(lenient, Start(s), data)))
      {
        WholeInOrder(keep, lenient, s, chunks);
        HearEach(keep, lenient, s, chunks);
        InOrderIsSorted(keep, Trace(lenient, s, data));
        ReportsAreSorted(keep, lenient, s, data);
      }
    } else {
      var p, q :| 0 <= p < q < |data| && Misplaced(keep, Trace(lenient, s, data)[p], Trace(lenient, s, data)[q]);
      OutOfOrderIsHeard(keep, lenient, s, data, p, q);
    }
  }

  /** Which signals these are: a bad character after a completed payload, and an overflow after a bad
      character or after a completed payload reported as anything but an overflow is. */
  lemma MisplacedMeans(keep: Listener, x: Signal, y: Signal)
    requires Decodable(x) && Decodable(y) && Heard(keep, x) && Heard(keep, y)
    ensures Misplaced(keep, x, y) <==>
      || (x.Complete? && y.BadHex?)
      || (x.BadHex? && y.Overflow?)
      || (x.Complete? && y.Overflow? && EventOf(x.payload) != Failure(InvalidData))
  {}
}
