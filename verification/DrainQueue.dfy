/** The per-connection work queues of the slave: `enqueue_and_drain`, `drain_loop` and the
    connection-close task as a step relation. One step is one critical section of the queue map's
    mutex, the spawning of a drainer, or the end of the handling of one frame. */
module DrainQueue {
  import opened Bytes

  type Conn = nat
  type Frame = seq<byte>

  datatype Entry = Entry(items: seq<Frame>, processing: bool)

  /** Where a drain task is. `Spawned` has been decided on under the mutex but not started. */
  datatype Place = Spawned | Fetching | Handling(frame: Frame) | Rechecking | Exited

  datatype Drainer = Drainer(conn: Conn, place: Place)

  /** What happened to the frames of one connection: all frames in the order they were enqueued,
      the positions of those a close threw away, and the frames handled, in order. */
  datatype History = History(enqueued: seq<Frame>, dropped: set<nat>, handled: seq<Frame>)

  /** `retired` are the connections that were alive when the whole physical layer closed. */
  datatype State = State(queues: map<Conn, Entry>, drainers: seq<Drainer>,
                         histories: map<Conn, History>, retired: set<Conn>)

  const EMPTY: State := State(map[], [], map[], {})

  function Log(s: State, c: Conn): History {
    if c in s.histories then s.histories[c] else History([], {}, [])
  }

  function Queued(s: State, c: Conn): seq<Frame> {
    if c in s.queues then s.queues[c].items else []
  }

  predicate Live(d: Drainer, c: Conn) { d.conn == c && !d.place.Exited? }

  function InFlight(drainers: seq<Drainer>, c: Conn): seq<Frame> {
    if drainers == [] then []
    else
      (if drainers[0].conn == c && drainers[0].place.Handling? then [drainers[0].place.frame] else [])
      + InFlight(drainers[1..], c)
  }

  /** The enqueued frames that were not dropped, in order. */
  function Kept(enqueued: seq<Frame>, dropped: set<nat>): seq<Frame> {
    if enqueued == [] then []
    else
      var n := |enqueued| - 1;
      Kept(enqueued[..n], dropped) + if n in dropped then [] else [enqueued[n]]
  }

  // ---------------------------------------------------------------- steps

  datatype Action =
    | Enqueue(conn: Conn, frame: Frame)
    | Drain(drainer: nat)
    | CloseConnection(conn: Conn)
    | CloseAll

  predicate Enabled(s: State, a: Action) {
    match a
    case Enqueue(_, _) => true
    case Drain(d) => d < |s.drainers| && !s.drainers[d].place.Exited?
    case CloseConnection(_) => true
    case CloseAll => true
  }

  function Apply(s: State, a: Action): State
    requires Enabled(s, a)
  {
    match a
    case Enqueue(c, f) => DoEnqueue(s, c, f)
    case Drain(d) => DoDrain(s, d)
    case CloseConnection(c) => DoClose(s, c)
    case CloseAll => DoCloseAll(s)
  }

  function DoEnqueue(s: State, c: Conn, f: Frame): State {
    var entry := if c in s.queues then s.queues[c] else Entry([], false);
    s.(queues := s.queues[c := Entry(entry.items + [f], true)],
       drainers := if entry.processing then s.drainers else s.drainers + [Drainer(c, Spawned)],
       histories := s.histories[c := Log(s, c).(enqueued := Log(s, c).enqueued + [f])])
  }

  function Moved(s: State, d: nat, place: Place): State
    requires d < |s.drainers|
  {
    s.(drainers := s.drainers[d := Drainer(s.drainers[d].conn, place)])
  }

  function DoDrain(s: State, d: nat): State
    requires d < |s.drainers|
  {
    var c := s.drainers[d].conn;
    match s.drainers[d].place
    case Spawned => Moved(s, d, Fetching)
    case Fetching =>
      if c !in s.queues then Moved(s, d, Exited)
      else if s.queues[c].items == [] then Moved(s, d, Rechecking)
      else DoPop(s, d)
    case Handling(f) => DoFinish(s, d, f)
    case Rechecking =>
      if c !in s.queues then Moved(s, d, Exited)
      else if s.queues[c].items == [] then Moved(s, d, Exited).(queues := s.queues - {c})
      else Moved(s, d, Fetching)
    case Exited => s
  }

  function DoPop(s: State, d: nat): State
    requires d < |s.drainers| && s.drainers[d].conn in s.queues && s.queues[s.drainers[d].conn].items != []
  {
    var c := s.drainers[d].conn;
    var entry := s.queues[c];
    Moved(s, d, Handling(entry.items[0])).(queues := s.queues[c := entry.(items := entry.items[1..])])
  }

  function DoFinish(s: State, d: nat, f: Frame): State
    requires d < |s.drainers|
  {
    var c := s.drainers[d].conn;
    Moved(s, d, Fetching).(histories := s.histories[c := Log(s, c).(handled := Log(s, c).handled + [f])])
  }

  /** The positions of the last `m` of `n` frames. */
  function LastPositions(n: nat, m: nat): (positions: set<nat>)
    requires m <= n
    ensures forall i :: i in positions <==> n - m <= i < n
  {
    if m == 0 then {} else {n - m} + LastPositions(n, m - 1)
  }

  function DropQueued(h: History, m: nat): History {
    if m <= |h.enqueued| then h.(dropped := h.dropped + LastPositions(|h.enqueued|, m)) else h
  }

  function DoClose(s: State, c: Conn): State {
    if c !in s.queues then s
    else
      var entry := s.queues[c];
      s.(queues := if entry.processing then s.queues[c := Entry([], true)] else s.queues - {c},
         histories := s.histories[c := DropQueued(Log(s, c), |entry.items|)])
  }

  function DoCloseAll(s: State): State {
    s.(queues := map[],
       histories := map c | c in s.histories.Keys + s.queues.Keys ::
                      DropQueued(Log(s, c), |Queued(s, c)|),
       retired := s.retired + s.queues.Keys)
  }

  // ---------------------------------------------------------------- the invariant

  ghost predicate OneDrainer(s: State) {
    forall i, j | 0 <= i < |s.drainers| && 0 <= j < |s.drainers| && s.drainers[i].conn == s.drainers[j].conn ::
      s.drainers[i].place.Exited? || s.drainers[j].place.Exited? || i == j
  }

  ghost predicate HasDrainer(s: State, c: Conn) {
    exists i :: 0 <= i < |s.drainers| && Live(s.drainers[i], c)
  }

  ghost predicate EntriesDrained(s: State) {
    forall c :: c in s.queues ==> s.queues[c].processing && HasDrainer(s, c) && c !in s.retired
  }

  ghost predicate DrainersNeeded(s: State) {
    forall i :: 0 <= i < |s.drainers| && !s.drainers[i].place.Exited? ==>
      s.drainers[i].conn in s.queues || s.drainers[i].conn in s.retired
  }

  /** The queued frames are the latest ones, none of them dropped, and the frames that were not
      dropped are exactly those handled, in flight and queued, in order of arrival. */
  predicate Balanced(h: History, flight: seq<Frame>, q: seq<Frame>) {
    && |q| <= |h.enqueued| && q == h.enqueued[|h.enqueued| - |q|..]
    && (forall i :: i in h.dropped ==> i < |h.enqueued| - |q|)
    && Kept(h.enqueued, h.dropped) == h.handled + flight + q
  }

  predicate Accounted(s: State, c: Conn) {
    Balanced(Log(s, c), InFlight(s.drainers, c), Queued(s, c))
  }

  ghost predicate Inv(s: State) {
    OneDrainer(s) && EntriesDrained(s) && DrainersNeeded(s) && forall c :: Accounted(s, c)
  }

  lemma EmptyInv()
    ensures Inv(EMPTY)
  {}

  // ---------------------------------------------------------------- facts about the ledger

  lemma {:induction false} KeptSuffix(e: seq<Frame>, dropped: set<nat>, k: nat)
    requires k <= |e| && forall i :: i in dropped ==> i < k
    ensures Kept(e, dropped) == Kept(e[..k], dropped) + e[k..]
  {
    var n := |e| - 1;
    if k == |e| {
      assert e[..k] == e;
    } else {
      assert e[..n][..k] == e[..k] && e[k..] == e[..n][k..] + [e[n]];
      KeptSuffix(e[..n], dropped, k);
    }
  }

  lemma {:induction false} KeptSame(e: seq<Frame>, dropped: set<nat>, more: set<nat>)
    requires forall i :: 0 <= i < |e| ==> (i in dropped <==> i in more)
    ensures Kept(e, more) == Kept(e, dropped)
  {
    if e != [] {
      KeptSame(e[..|e| - 1], dropped, more);
    }
  }

  lemma {:induction false} KeptDropsSuffix(e: seq<Frame>, dropped: set<nat>, k: nat)
    requires k <= |e| && forall i: nat :: k <= i < |e| ==> i in dropped
    ensures Kept(e, dropped) == Kept(e[..k], dropped)
  {
    var n := |e| - 1;
    if k == |e| {
      assert e[..k] == e;
    } else {
      assert e[..n][..k] == e[..k];
      KeptDropsSuffix(e[..n], dropped, k);
    }
  }

  lemma BalancedEnqueue(h: History, flight: seq<Frame>, q: seq<Frame>, f: Frame)
    requires Balanced(h, flight, q)
    ensures Balanced(h.(enqueued := h.enqueued + [f]), flight, q + [f])
  {
    var e := h.enqueued + [f];
    assert e[..|h.enqueued|] == h.enqueued;
    KeptSuffix(e, h.dropped, |h.enqueued|);
  }

  lemma BalancedPop(h: History, q: seq<Frame>)
    requires Balanced(h, [], q) && q != []
    ensures Balanced(h, [q[0]], q[1..])
  {
    assert h.handled + [] + q == h.handled + [q[0]] + q[1..];
  }

  lemma BalancedFinish(h: History, f: Frame, q: seq<Frame>)
    requires Balanced(h, [f], q)
    ensures Balanced(h.(handled := h.handled + [f]), [], q)
  {}

  /** Throwing the queued frames away leaves exactly the handled and in-flight ones. */
  lemma BalancedDrop(h: History, flight: seq<Frame>, q: seq<Frame>)
    requires Balanced(h, flight, q)
    ensures Balanced(DropQueued(h, |q|), flight, [])
  {
    var k, h' := |h.enqueued| - |q|, DropQueued(h, |q|);
    KeptSuffix(h.enqueued, h.dropped, k);
    KeptDropsSuffix(h'.enqueued, h'.dropped, k);
    KeptSame(h.enqueued[..k], h.dropped, h'.dropped);
    CancelSuffix(Kept(h'.enqueued, h'.dropped), h.handled + flight, q);
  }

  lemma CancelSuffix(a: seq<Frame>, b: seq<Frame>, q: seq<Frame>)
    requires a + q == b + q
    ensures a == b
  {
    assert |a| == |b|;
    assert a == (a + q)[..|a|] && b == (b + q)[..|b|];
  }

  lemma {:induction false} InFlightNone(drainers: seq<Drainer>, c: Conn)
    requires forall i :: 0 <= i < |drainers| ==> drainers[i].conn == c ==> !drainers[i].place.Handling?
    ensures InFlight(drainers, c) == []
  {
    if drainers != [] {
      InFlightNone(drainers[1..], c);
    }
  }

  lemma {:induction false} InFlightConcat(a: seq<Drainer>, b: seq<Drainer>, c: Conn)
    ensures InFlight(a + b, c) == InFlight(a, c) + InFlight(b, c)
  {
    if a == [] {
      assert a + b == b;
    } else {
      assert (a + b)[1..] == a[1..] + b;
      InFlightConcat(a[1..], b, c);
    }
  }

  function Holding(d: Drainer, c: Conn): seq<Frame> {
    if d.conn == c && d.place.Handling? then [d.place.frame] else []
  }

  /** The frames in flight around one drainer. */
  lemma InFlightAround(drainers: seq<Drainer>, d: nat, c: Conn)
    requires d < |drainers|
    ensures InFlight(drainers, c)
         == InFlight(drainers[..d], c) + Holding(drainers[d], c) + InFlight(drainers[d + 1..], c)
  {
    assert drainers == drainers[..d] + ([drainers[d]] + drainers[d + 1..]);
    InFlightConcat(drainers[..d], [drainers[d]] + drainers[d + 1..], c);
    InFlightConcat([drainers[d]], drainers[d + 1..], c);
    assert InFlight([drainers[d]], c) == Holding(drainers[d], c);
  }

  /** Moving a drainer changes what is in flight only for its connection, where it is alone. */
  lemma InFlightMoved(s: State, d: nat, place: Place, c: Conn)
    requires OneDrainer(s) && d < |s.drainers| && !s.drainers[d].place.Exited?
    ensures var c0 := s.drainers[d].conn; var ds := Moved(s, d, place).drainers;
      && (c != c0 ==> InFlight(ds, c) == InFlight(s.drainers, c))
      && (c == c0 ==> InFlight(s.drainers, c) == Holding(s.drainers[d], c))
      && (c == c0 ==> InFlight(ds, c) == Holding(Drainer(c0, place), c))
  {
    var ds := Moved(s, d, place).drainers;
    InFlightAround(s.drainers, d, c);
    InFlightAround(ds, d, c);
    assert ds[..d] == s.drainers[..d] && ds[d + 1..] == s.drainers[d + 1..];
    if c == s.drainers[d].conn {
      InFlightNone(s.drainers[..d], c);
      InFlightNone(s.drainers[d + 1..], c);
    }
  }

  // ---------------------------------------------------------------- each step keeps the invariant

  /** What one step may do to the ledger of one connection. */
  predicate SameLedger(s: State, s': State, c: Conn) {
    Log(s', c) == Log(s, c) && Queued(s', c) == Queued(s, c) && InFlight(s'.drainers, c) == InFlight(s.drainers, c)
  }

  lemma EnqueueEffect(s: State, c0: Conn, f: Frame, c: Conn)
    ensures InFlight(DoEnqueue(s, c0, f).drainers, c) == InFlight(s.drainers, c)
    ensures c != c0 ==> SameLedger(s, DoEnqueue(s, c0, f), c)
    ensures Log(DoEnqueue(s, c0, f), c0) == Log(s, c0).(enqueued := Log(s, c0).enqueued + [f])
    ensures Queued(DoEnqueue(s, c0, f), c0) == Queued(s, c0) + [f]
  {
    InFlightConcat(s.drainers, [Drainer(c0, Spawned)], c);
    assert InFlight([Drainer(c0, Spawned)], c) == [];
  }

  lemma EnqueueKeepsLedger(s: State, c0: Conn, f: Frame, c: Conn)
    requires Accounted(s, c)
    ensures Accounted(DoEnqueue(s, c0, f), c)
  {
    EnqueueEffect(s, c0, f, c);
    if c == c0 {
      BalancedEnqueue(Log(s, c), InFlight(s.drainers, c), Queued(s, c), f);
    }
  }

  lemma EnqueueKeepsDrainers(s: State, c: Conn, f: Frame)
    requires Inv(s) && c !in s.retired
    ensures OneDrainer(DoEnqueue(s, c, f)) && EntriesDrained(DoEnqueue(s, c, f)) && DrainersNeeded(DoEnqueue(s, c, f))
  {
    var s' := DoEnqueue(s, c, f);
    forall b | b in s'.queues ensures HasDrainer(s', b) {
      if b in s.queues {
        var i :| 0 <= i < |s.drainers| && Live(s.drainers[i], b);
        assert Live(s'.drainers[i], b);
      } else {
        assert Live(s'.drainers[|s.drainers|], b);
      }
    }
  }

  lemma EnqueueKeepsInv(s: State, c: Conn, f: Frame)
    requires Inv(s) && c !in s.retired
    ensures Inv(DoEnqueue(s, c, f))
  {
    EnqueueKeepsDrainers(s, c, f);
    forall b ensures Accounted(DoEnqueue(s, c, f), b) {
      EnqueueKeepsLedger(s, c, f, b);
    }
  }

  /** A drainer that moves on without exiting leaves every connection with its drainer. */
  lemma MoveKeepsDrainers(s: State, d: nat, place: Place, s': State)
    requires OneDrainer(s) && EntriesDrained(s) && DrainersNeeded(s)
    requires d < |s.drainers| && !s.drainers[d].place.Exited? && !place.Exited?
    requires s'.drainers == Moved(s, d, place).drainers && s'.retired == s.retired
    requires s'.queues.Keys == s.queues.Keys
    requires forall c :: c in s.queues ==> s'.queues[c].processing == s.queues[c].processing
    ensures OneDrainer(s') && EntriesDrained(s') && DrainersNeeded(s')
  {
    forall c | c in s'.queues ensures HasDrainer(s', c) {
      var i :| 0 <= i < |s.drainers| && Live(s.drainers[i], c);
      assert Live(s'.drainers[i], c);
    }
  }

  /** A drainer exits only when its connection has no entry, or takes an empty entry with it. */
  lemma ExitKeepsDrainers(s: State, d: nat, s': State)
    requires OneDrainer(s) && EntriesDrained(s) && DrainersNeeded(s)
    requires d < |s.drainers| && !s.drainers[d].place.Exited?
    requires s'.drainers == Moved(s, d, Exited).drainers && s'.retired == s.retired
    requires s'.queues == s.queues - {s.drainers[d].conn}
    ensures OneDrainer(s') && EntriesDrained(s') && DrainersNeeded(s')
  {
    forall c | c in s'.queues ensures HasDrainer(s', c) {
      var i :| 0 <= i < |s.drainers| && Live(s.drainers[i], c);
      assert Live(s'.drainers[i], c);
    }
  }

  /** A drainer that moves between places with nothing in hand changes no ledger. */
  lemma IdleMoveKeepsLedger(s: State, d: nat, place: Place, s': State, c: Conn)
    requires OneDrainer(s) && Accounted(s, c)
    requires d < |s.drainers| && !s.drainers[d].place.Exited? && !s.drainers[d].place.Handling? && !place.Handling?
    requires s'.drainers == Moved(s, d, place).drainers && s'.histories == s.histories
    requires Queued(s', c) == Queued(s, c)
    ensures Accounted(s', c)
  {
    InFlightMoved(s, d, place, c);
  }

  lemma PopKeepsLedger(s: State, d: nat, c: Conn)
    requires OneDrainer(s) && Accounted(s, c)
    requires d < |s.drainers| && s.drainers[d].place.Fetching?
    requires s.drainers[d].conn in s.queues && s.queues[s.drainers[d].conn].items != []
    ensures Accounted(DoPop(s, d), c)
  {
    InFlightMoved(s, d, Handling(Queued(s, s.drainers[d].conn)[0]), c);
    if c == s.drainers[d].conn {
      BalancedPop(Log(s, c), Queued(s, c));
    }
  }

  lemma FinishEffect(s: State, d: nat, f: Frame)
    requires OneDrainer(s) && d < |s.drainers| && s.drainers[d].place == Handling(f)
    ensures var c, s' := s.drainers[d].conn, DoFinish(s, d, f);
      && InFlight(s.drainers, c) == [f] && InFlight(s'.drainers, c) == []
      && Log(s', c) == Log(s, c).(handled := Log(s, c).handled + [f])
      && Queued(s', c) == Queued(s, c)
  {
    InFlightMoved(s, d, Fetching, s.drainers[d].conn);
  }

  lemma FinishKeepsLedger(s: State, d: nat, f: Frame, c: Conn)
    requires OneDrainer(s) && Accounted(s, c)
    requires d < |s.drainers| && s.drainers[d].place == Handling(f)
    ensures Accounted(DoFinish(s, d, f), c)
  {
    if c != s.drainers[d].conn {
      InFlightMoved(s, d, Fetching, c);
    } else {
      FinishEffect(s, d, f);
      BalancedFinish(Log(s, c), f, Queued(s, c));
    }
  }

  lemma IdleMoveKeepsInv(s: State, d: nat, place: Place)
    requires Inv(s) && d < |s.drainers| && !place.Handling? && !place.Exited?
    requires !s.drainers[d].place.Exited? && !s.drainers[d].place.Handling?
    ensures Inv(Moved(s, d, place))
  {
    MoveKeepsDrainers(s, d, place, Moved(s, d, place));
    forall c ensures Accounted(Moved(s, d, place), c) {
      IdleMoveKeepsLedger(s, d, place, Moved(s, d, place), c);
    }
  }

  lemma ExitKeepsInv(s: State, d: nat)
    requires Inv(s) && d < |s.drainers| && !s.drainers[d].place.Exited? && !s.drainers[d].place.Handling?
    requires Queued(s, s.drainers[d].conn) == []
    ensures Inv(Moved(s, d, Exited).(queues := s.queues - {s.drainers[d].conn}))
  {
    var s' := Moved(s, d, Exited).(queues := s.queues - {s.drainers[d].conn});
    ExitKeepsDrainers(s, d, s');
    forall c ensures Accounted(s', c) {
      IdleMoveKeepsLedger(s, d, Exited, s', c);
    }
  }

  lemma DrainKeepsInv(s: State, d: nat)
    requires Inv(s) && d < |s.drainers| && !s.drainers[d].place.Exited?
    ensures Inv(DoDrain(s, d))
  {
    var c := s.drainers[d].conn;
    match s.drainers[d].place
    case Spawned => IdleMoveKeepsInv(s, d, Fetching);
    case Handling(f) =>
      MoveKeepsDrainers(s, d, Fetching, DoFinish(s, d, f));
      forall b ensures Accounted(DoFinish(s, d, f), b) {
        FinishKeepsLedger(s, d, f, b);
      }
    case Fetching =>
      if c !in s.queues {
        assert s.queues - {c} == s.queues;
        ExitKeepsInv(s, d);
      } else if s.queues[c].items == [] {
        IdleMoveKeepsInv(s, d, Rechecking);
      } else {
        MoveKeepsDrainers(s, d, Handling(s.queues[c].items[0]), DoPop(s, d));
        forall b ensures Accounted(DoPop(s, d), b) {
          PopKeepsLedger(s, d, b);
        }
      }
    case Rechecking =>
      if c !in s.queues {
        assert s.queues - {c} == s.queues;
        ExitKeepsInv(s, d);
      } else if s.queues[c].items == [] {
        ExitKeepsInv(s, d);
      } else {
        IdleMoveKeepsInv(s, d, Fetching);
      }
  }

  lemma CloseKeepsLedger(s: State, c0: Conn, c: Conn)
    requires Accounted(s, c)
    ensures Accounted(DoClose(s, c0), c)
  {
    BalancedDrop(Log(s, c), InFlight(s.drainers, c), Queued(s, c));
  }

  lemma CloseKeepsInv(s: State, c: Conn)
    requires Inv(s)
    ensures Inv(DoClose(s, c))
  {
    forall b ensures Accounted(DoClose(s, c), b) {
      assert Accounted(s, b);
      CloseKeepsLedger(s, c, b);
    }
    forall b | b in DoClose(s, c).queues ensures HasDrainer(DoClose(s, c), b) {
      var i :| 0 <= i < |s.drainers| && Live(s.drainers[i], b);
      assert Live(DoClose(s, c).drainers[i], b);
    }
  }

  lemma CloseAllKeepsLedger(s: State, c: Conn)
    requires Accounted(s, c)
    ensures Accounted(DoCloseAll(s), c)
  {
    BalancedDrop(Log(s, c), InFlight(s.drainers, c), Queued(s, c));
    if c !in s.histories && c !in s.queues {
      assert DropQueued(Log(s, c), 0).dropped == {};
    }
  }

  lemma CloseAllKeepsInv(s: State)
    requires Inv(s)
    ensures Inv(DoCloseAll(s))
  {
    forall c ensures Accounted(DoCloseAll(s), c) {
      assert Accounted(s, c);
      CloseAllKeepsLedger(s, c);
    }
  }

  /** A connection that was alive when everything closed does not send again under its old id. */
  predicate Allowed(s: State, a: Action) {
    Enabled(s, a) && (a.Enqueue? ==> a.conn !in s.retired)
  }

  /** Every step keeps the invariant. */
  lemma StepKeepsInv(s: State, a: Action)
    requires Inv(s) && Allowed(s, a)
    ensures Inv(Apply(s, a))
  {
    match a
    case Enqueue(c, f) => EnqueueKeepsInv(s, c, f);
    case Drain(d) => DrainKeepsInv(s, d);
    case CloseConnection(c) => CloseKeepsInv(s, c);
    case CloseAll => CloseAllKeepsInv(s);
  }

  // ---------------------------------------------------------------- runs

  predicate IsRun(s: State, run: seq<Action>)
    decreases |run|
  {
    run == [] || (Allowed(s, run[0]) && IsRun(Apply(s, run[0]), run[1..]))
  }

  function After(s: State, run: seq<Action>): State
    requires IsRun(s, run)
    decreases |run|
  {
    if run == [] then s else After(Apply(s, run[0]), run[1..])
  }

  lemma {:induction false} RunKeepsInv(s: State, run: seq<Action>)
    requires Inv(s) && IsRun(s, run)
    ensures Inv(After(s, run))
    decreases |run|
  {
    if run != [] {
      StepKeepsInv(s, run[0]);
      RunKeepsInv(Apply(s, run[0]), run[1..]);
    }
  }

  /** In every run a connection has an entry exactly when it has a drainer, never two; every entry
      is marked as being processed; and each frame ever enqueued is, in order of arrival, handled,
      in flight, queued, or dropped by a close. */
  lemma NothingStranded(run: seq<Action>, c: Conn)
    requires IsRun(EMPTY, run)
    ensures var s := After(EMPTY, run);
      && OneDrainer(s) && Accounted(s, c)
      && (c in s.queues ==> s.queues[c].processing)
      && (c !in s.retired ==> (c in s.queues <==> HasDrainer(s, c)))
  {
    EmptyInv();
    RunKeepsInv(EMPTY, run);
    var s := After(EMPTY, run);
    if HasDrainer(s, c) {
      var i :| 0 <= i < |s.drainers| && Live(s.drainers[i], c);
      assert s.drainers[i].conn == c;
    }
  }

  // ---------------------------------------------------------------- without a close: strict order

  predicate NoClose(run: seq<Action>) {
    forall i :: 0 <= i < |run| ==> !run[i].CloseConnection? && !run[i].CloseAll?
  }

  ghost predicate NothingDropped(s: State) { forall c :: Log(s, c).dropped == {} }

  lemma StepDropsNothing(s: State, a: Action)
    requires NothingDropped(s) && Enabled(s, a) && !a.CloseConnection? && !a.CloseAll?
    ensures NothingDropped(Apply(s, a))
  {
    forall c ensures Log(Apply(s, a), c).dropped == {} {
      assert Log(s, c).dropped == {};
    }
  }

  lemma {:induction false} NoCloseNoDrop(s: State, run: seq<Action>)
    requires NothingDropped(s) && IsRun(s, run) && NoClose(run)
    ensures NothingDropped(After(s, run))
    decreases |run|
  {
    if run != [] {
      assert forall i :: 0 <= i < |run| - 1 ==> run[1..][i] == run[i + 1];
      StepDropsNothing(s, run[0]);
      NoCloseNoDrop(Apply(s, run[0]), run[1..]);
    }
  }

  lemma {:induction false} KeepAll(e: seq<Frame>)
    ensures Kept(e, {}) == e
  {
    if e != [] {
      KeepAll(e[..|e| - 1]);
    }
  }

  /** While nothing closes, the frames handled, in flight and queued are the frames enqueued. */
  lemma FirstInFirstOut(run: seq<Action>, c: Conn)
    requires IsRun(EMPTY, run) && NoClose(run)
    ensures var s := After(EMPTY, run);
      Log(s, c).enqueued == Log(s, c).handled + InFlight(s.drainers, c) + Queued(s, c)
  {
    NothingStranded(run, c);
    NoCloseNoDrop(EMPTY, run);
    KeepAll(Log(After(EMPTY, run), c).enqueued);
  }

  // ---------------------------------------------------------------- independence

  predicate Concerns(s: State, a: Action, c: Conn)
    requires Enabled(s, a)
  {
    match a
    case Enqueue(b, _) => b == c
    case Drain(d) => s.drainers[d].conn == c
    case CloseConnection(b) => b == c
    case CloseAll => true
  }

  lemma EnqueueIndependent(s: State, b: Conn, f: Frame, c: Conn)
    requires b != c
    ensures SameLedger(s, DoEnqueue(s, b, f), c)
    ensures HasDrainer(DoEnqueue(s, b, f), c) <==> HasDrainer(s, c)
  {
    EnqueueEffect(s, b, f, c);
    SameDrainers(s, DoEnqueue(s, b, f), c);
  }

  lemma DrainIndependent(s: State, d: nat, c: Conn)
    requires OneDrainer(s) && d < |s.drainers| && !s.drainers[d].place.Exited? && s.drainers[d].conn != c
    ensures SameLedger(s, DoDrain(s, d), c)
    ensures c in DoDrain(s, d).queues <==> c in s.queues
    ensures HasDrainer(DoDrain(s, d), c) <==> HasDrainer(s, c)
  {
    InFlightMoved(s, d, DoDrain(s, d).drainers[d].place, c);
    SameDrainers(s, DoDrain(s, d), c);
  }

  /** A step on one connection changes nothing of another. */
  lemma Independent(s: State, a: Action, c: Conn)
    requires Inv(s) && Enabled(s, a) && !Concerns(s, a, c)
    ensures var s' := Apply(s, a);
      && SameLedger(s, s', c) && (c in s'.queues <==> c in s.queues) && (HasDrainer(s', c) <==> HasDrainer(s, c))
  {
    match a
    case Enqueue(b, f) => EnqueueIndependent(s, b, f, c);
    case Drain(d) => DrainIndependent(s, d, c);
    case CloseConnection(_) =>
  }

  lemma SameDrainers(s: State, s': State, c: Conn)
    requires |s.drainers| <= |s'.drainers|
    requires forall i :: 0 <= i < |s.drainers| ==> (Live(s'.drainers[i], c) <==> Live(s.drainers[i], c))
    requires forall i :: |s.drainers| <= i < |s'.drainers| ==> !Live(s'.drainers[i], c)
    ensures HasDrainer(s', c) <==> HasDrainer(s, c)
  {
    if HasDrainer(s, c) {
      var i :| 0 <= i < |s.drainers| && Live(s.drainers[i], c);
      assert Live(s'.drainers[i], c);
    }
  }

  // ---------------------------------------------------------------- draining ends

  predicate AllExited(s: State) {
    forall i :: 0 <= i < |s.drainers| ==> s.drainers[i].place.Exited?
  }

  /** When no drainer is live the map is empty and every frame not dropped has been handled. */
  lemma SettledIsComplete(run: seq<Action>, c: Conn)
    requires IsRun(EMPTY, run) && AllExited(After(EMPTY, run))
    ensures After(EMPTY, run).queues == map[]
    ensures var h := Log(After(EMPTY, run), c); h.handled == Kept(h.enqueued, h.dropped)
  {
    NothingStranded(run, c);
    EmptyInv();
    RunKeepsInv(EMPTY, run);
    ExitedMeansEmpty(After(EMPTY, run));
    InFlightNone(After(EMPTY, run).drainers, c);
  }

  lemma ExitedMeansEmpty(s: State)
    requires EntriesDrained(s) && AllExited(s)
    ensures s.queues == map[]
  {
    forall b ensures b !in s.queues {
      assert !HasDrainer(s, b);
    }
  }

  /** Steps a drainer can take before it needs new frames to go on. */
  function Work(s: State, d: Drainer): nat {
    var n := |Queued(s, d.conn)|;
    match d.place
    case Spawned => 4 + 2 * n
    case Fetching => 3 + 2 * n
    case Handling(_) => 4 + 2 * n
    case Rechecking => (if n == 0 then 2 else 4) + 2 * n
    case Exited => 0
  }

  function TotalWork(s: State, i: nat): nat
    requires i <= |s.drainers|
    decreases |s.drainers| - i
  {
    if i == |s.drainers| then 0 else Work(s, s.drainers[i]) + TotalWork(s, i + 1)
  }

  lemma DrainLowersOwnWork(s: State, d: nat)
    requires d < |s.drainers| && !s.drainers[d].place.Exited?
    ensures |DoDrain(s, d).drainers| == |s.drainers|
    ensures Work(DoDrain(s, d), DoDrain(s, d).drainers[d]) < Work(s, s.drainers[d])
  {}

  lemma DrainKeepsOtherWork(s: State, d: nat, i: nat)
    requires OneDrainer(s) && d < |s.drainers| && !s.drainers[d].place.Exited?
    requires i < |s.drainers| && i != d
    ensures DoDrain(s, d).drainers[i] == s.drainers[i]
    ensures Work(DoDrain(s, d), s.drainers[i]) == Work(s, s.drainers[i])
  {}

  lemma {:induction false} DrainLowersTotal(s: State, d: nat, i: nat)
    requires OneDrainer(s) && d < |s.drainers| && !s.drainers[d].place.Exited? && i <= |s.drainers|
    ensures |DoDrain(s, d).drainers| == |s.drainers|
    ensures TotalWork(DoDrain(s, d), i) + (if i <= d then 1 else 0) <= TotalWork(s, i)
    decreases |s.drainers| - i
  {
    DrainLowersOwnWork(s, d);
    if i < |s.drainers| {
      DrainLowersTotal(s, d, i + 1);
      if i != d {
        DrainKeepsOtherWork(s, d, i);
      }
    }
  }

  predicate OnlyDrains(run: seq<Action>) {
    forall i :: 0 <= i < |run| ==> run[i].Drain?
  }

  /** Without new frames the drainers stop after a bounded number of steps. */
  lemma {:induction false} DrainingTerminates(s: State, run: seq<Action>)
    requires Inv(s) && IsRun(s, run) && OnlyDrains(run)
    ensures |run| <= TotalWork(s, 0)
    decreases |run|
  {
    if run != [] {
      assert run[0].Drain?;
      assert forall i :: 0 <= i < |run| - 1 ==> run[1..][i] == run[i + 1];
      DrainLowersTotal(s, run[0].drainer, 0);
      StepKeepsInv(s, run[0]);
      DrainingTerminates(Apply(s, run[0]), run[1..]);
    }
  }

  // ---------------------------------------------------------------- the critical sections

  /** What a drainer finds when it asks for the next frame. */
  datatype Next = Gone | Empty | Item(frame: Frame)

  function Find(queues: map<Conn, Entry>, c: Conn): Next {
    if c !in queues then Gone
    else if queues[c].items == [] then Empty
    else Item(queues[c].items[0])
  }

  function Popped(queues: map<Conn, Entry>, c: Conn): map<Conn, Entry> {
    if Find(queues, c).Item? then queues[c := queues[c].(items := queues[c].items[1..])] else queues
  }

  function Pushed(queues: map<Conn, Entry>, c: Conn, f: Frame): map<Conn, Entry> {
    queues[c := Entry((if c in queues then queues[c].items else []) + [f], true)]
  }

  function Closed(queues: map<Conn, Entry>, c: Conn): map<Conn, Entry> {
    if c !in queues then queues
    else if queues[c].processing then queues[c := Entry([], true)]
    else queues - {c}
  }

  function Items(queues: map<Conn, Entry>, c: Conn): seq<Frame> { if c in queues then queues[c].items else [] }

  /** Popping takes the first item, if there is one, and nothing of another connection. */
  lemma PoppedItems(queues: map<Conn, Entry>, c: Conn)
    ensures Popped(queues, c) - {c} == queues - {c}
    ensures Find(queues, c).Item? ==> Items(queues, c) == [Find(queues, c).frame] + Items(Popped(queues, c), c)
    ensures !Find(queues, c).Item? ==> Items(queues, c) == [] && Popped(queues, c) == queues
    ensures Find(queues, c).Gone? ==> queues - {c} == queues
  {}

  /** The critical sections are the queue part of the steps, and what they report decides where
      the drainer goes. */
  lemma SectionsAreSteps(s: State, c: Conn, f: Frame, d: nat)
    requires d < |s.drainers| && s.drainers[d].conn == c
    ensures DoEnqueue(s, c, f).queues == Pushed(s.queues, c, f)
    ensures DoClose(s, c).queues == Closed(s.queues, c)
    ensures s.drainers[d].place.Fetching? ==>
      && DoDrain(s, d).queues == Popped(s.queues, c)
      && DoDrain(s, d).drainers[d].place ==
         match Find(s.queues, c) { case Gone => Exited case Empty => Rechecking case Item(g) => Handling(g) }
    ensures s.drainers[d].place.Rechecking? ==>
      && DoDrain(s, d).queues == (if Find(s.queues, c).Empty? then s.queues - {c} else s.queues)
      && DoDrain(s, d).drainers[d].place == if Find(s.queues, c).Item? then Fetching else Exited
  {}

  /** The shared map of the slave. */
  class SlaveQueues {
    var queues: map<Conn, Entry>

    constructor ()
      ensures queues == map[]
    {
      queues := map[];
    }

    method Push(c: Conn, f: Frame) returns (shouldSpawn: bool)
      modifies this
      ensures queues == Pushed(old(queues), c, f)
      ensures shouldSpawn <==> (c in old(queues) ==> !old(queues)[c].processing)
    {
      if c !in queues {
        queues := queues[c := Entry([], false)];
      }
      var entry := queues[c];
      entry := entry.(items := entry.items + [f]);
      if entry.processing {
        shouldSpawn := false;
      } else {
        entry := entry.(processing := true);
        shouldSpawn := true;
      }
      queues := queues[c := entry];
    }

    method PopFront(c: Conn) returns (next: Next)
      modifies this
      ensures queues == Popped(old(queues), c) && next == Find(old(queues), c)
    {
      if c !in queues {
        return Gone;
      }
      var entry := queues[c];
      if entry.items == [] {
        return Empty;
      }
      next := Item(entry.items[0]);
      queues := queues[c := entry.(items := entry.items[1..])];
    }

    method RemoveIfEmpty(c: Conn) returns (stop: bool)
      modifies this
      ensures queues == if Find(old(queues), c).Empty? then old(queues) - {c} else old(queues)
      ensures stop <==> !Find(old(queues), c).Item?
    {
      if c in queues {
        if queues[c].items == [] {
          queues := queues - {c};
          return true;
        }
        return false;
      }
      return true;
    }

    method CloseConnection(c: Conn)
      modifies this
      ensures queues == Closed(old(queues), c)
    {
      if c in queues {
        var entry := queues[c].(items := []);
        queues := queues[c := entry];
        if !entry.processing {
          queues := queues - {c};
        }
      }
    }

    /** The drain loop with nobody interfering: handle what is queued, in order, then take the
        entry away. */
    method DrainLoop(c: Conn) returns (handled: seq<Frame>)
      modifies this
      ensures handled == Items(old(queues), c)
      ensures queues == old(queues) - {c}
    {
      handled := [];
      while true
        invariant queues - {c} == old(queues) - {c}
        invariant Items(old(queues), c) == handled + Items(queues, c)
        decreases |Items(queues, c)|
      {
        ghost var before := queues;
        PoppedItems(before, c);
        var next := PopFront(c);
        assert queues - {c} == before - {c};
        match next {
          case Gone =>
            return;
          case Item(frame) =>
            handled := handled + [frame];
          case Empty =>
            var stop := RemoveIfEmpty(c);
            if stop {
              return;
            }
        }
      }
    }
  }
}
