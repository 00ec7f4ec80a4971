/** The work queues in runs without any restriction: what holds even if a connection that was alive when
    everything closed sends again under its old id, what then fails, and what a handler that panics
    leaves behind. */
module DrainReuse {
  import opened DrainQueue

  // ---------------------------------------------------------------- all runs

  predicate Goes(s: State, run: seq<Action>)
    decreases |run|
  {
    run == [] || (Enabled(s, run[0]) && Goes(Apply(s, run[0]), run[1..]))
  }

  function Reached(s: State, run: seq<Action>): State
    requires Goes(s, run)
    decreases |run|
  {
    if run == [] then s else Reached(Apply(s, run[0]), run[1..])
  }

  ghost predicate Drained(s: State) {
    forall c :: c in s.queues ==> s.queues[c].processing && HasDrainer(s, c)
  }

  /** As in `Balanced`, but for the order. */
  predicate Complete(h: History, flight: seq<Frame>, q: seq<Frame>) {
    && |q| <= |h.enqueued| && q == h.enqueued[|h.enqueued| - |q|..]
    && (forall i :: i in h.dropped ==> i < |h.enqueued| - |q|)
    && multiset(Kept(h.enqueued, h.dropped)) == multiset(h.handled) + multiset(flight) + multiset(q)
  }

  predicate Counted(s: State, c: Conn) { Complete(Log(s, c), InFlight(s.drainers, c), Queued(s, c)) }

  lemma CompleteEnqueue(h: History, flight: seq<Frame>, q: seq<Frame>, f: Frame)
    requires Complete(h, flight, q)
    ensures Complete(h.(enqueued := h.enqueued + [f]), flight, q + [f])
  {
    var e := h.enqueued + [f];
    assert e[..|h.enqueued|] == h.enqueued;
    KeptSuffix(e, h.dropped, |h.enqueued|);
  }

  lemma CompletePop(h: History, flight: seq<Frame>, q: seq<Frame>, flight': seq<Frame>)
    requires Complete(h, flight, q) && q != [] && multiset(flight') == multiset(flight) + multiset{q[0]}
    ensures Complete(h, flight', q[1..])
  {
    assert q == [q[0]] + q[1..];
    assert multiset(q) == multiset{q[0]} + multiset(q[1..]);
  }

  lemma CompleteFinish(h: History, f: Frame, flight: seq<Frame>, q: seq<Frame>, flight': seq<Frame>)
    requires Complete(h, flight, q) && multiset(flight) == multiset(flight') + multiset{f}
    ensures Complete(h.(handled := h.handled + [f]), flight', q)
  {}

  lemma Cancel(a: multiset<Frame>, b: multiset<Frame>, c: multiset<Frame>)
    requires a + c == b + c
    ensures a == b
  {
    assert forall x :: (a + c)[x] == a[x] + c[x] && (b + c)[x] == b[x] + c[x];
  }

  lemma CompleteDrop(h: History, flight: seq<Frame>, q: seq<Frame>)
    requires Complete(h, flight, q)
    ensures Complete(DropQueued(h, |q|), flight, [])
  {
    var k, h' := |h.enqueued| - |q|, DropQueued(h, |q|);
    KeptSuffix(h.enqueued, h.dropped, k);
    KeptDropsSuffix(h'.enqueued, h'.dropped, k);
    KeptSame(h.enqueued[..k], h.dropped, h'.dropped);
    var kept := Kept(h'.enqueued, h'.dropped);
    assert multiset(kept + q) == multiset(kept) + multiset(q);
    Cancel(multiset(kept), multiset(h.handled) + multiset(flight), multiset(q));
  }

  lemma Parts(a: seq<Frame>, held: seq<Frame>, b: seq<Frame>)
    ensures multiset(a + held + b) == multiset(a + b) + multiset(held)
  {
    assert multiset(a + held + b) == multiset(a) + multiset(held) + multiset(b);
  }

  /** Moving a drainer exchanges what it holds. */
  lemma FlightExchanged(s: State, d: nat, place: Place, c: Conn) returns (others: multiset<Frame>)
    requires d < |s.drainers|
    ensures multiset(InFlight(s.drainers, c)) == others + multiset(Holding(s.drainers[d], c))
    ensures multiset(InFlight(Moved(s, d, place).drainers, c))
         == others + multiset(Holding(Drainer(s.drainers[d].conn, place), c))
  {
    var ds := Moved(s, d, place).drainers;
    InFlightAround(s.drainers, d, c);
    InFlightAround(ds, d, c);
    assert ds[..d] == s.drainers[..d] && ds[d + 1..] == s.drainers[d + 1..];
    var before, later := InFlight(s.drainers[..d], c), InFlight(s.drainers[d + 1..], c);
    others := multiset(before + later);
    Parts(before, Holding(s.drainers[d], c), later);
    Parts(before, Holding(ds[d], c), later);
  }

  lemma NothingHeld(d: Drainer, c: Conn)
    requires d.conn != c || !d.place.Handling?
    ensures multiset(Holding(d, c)) == multiset{}
  {}

  lemma CompleteAs(h: History, flight: seq<Frame>, flight': seq<Frame>, q: seq<Frame>)
    requires Complete(h, flight, q) && multiset(flight') == multiset(flight)
    ensures Complete(h, flight', q)
  {}

  lemma EnqueueKeepsCounted(s: State, c0: Conn, f: Frame, c: Conn)
    requires Counted(s, c)
    ensures Counted(DoEnqueue(s, c0, f), c)
  {
    EnqueueEffect(s, c0, f, c);
    if c == c0 {
      CompleteEnqueue(Log(s, c), InFlight(s.drainers, c), Queued(s, c), f);
    }
  }

  /** Nothing held before or after, or another connection. */
  lemma FlightSame(s: State, d: nat, place: Place, c: Conn)
    requires d < |s.drainers|
    requires s.drainers[d].conn == c ==> !s.drainers[d].place.Handling? && !place.Handling?
    ensures multiset(InFlight(Moved(s, d, place).drainers, c)) == multiset(InFlight(s.drainers, c))
  {
    var others := FlightExchanged(s, d, place, c);
    NothingHeld(s.drainers[d], c);
    NothingHeld(Drainer(s.drainers[d].conn, place), c);
    assert others + multiset{} == others;
  }

  lemma SameKeepsCounted(s: State, d: nat, place: Place, s': State, c: Conn)
    requires Counted(s, c) && d < |s.drainers|
    requires s.drainers[d].conn == c ==> !s.drainers[d].place.Handling? && !place.Handling?
    requires s'.drainers == Moved(s, d, place).drainers
    requires Queued(s', c) == Queued(s, c) && Log(s', c) == Log(s, c)
    ensures Counted(s', c)
  {
    FlightSame(s, d, place, c);
    CompleteAs(Log(s, c), InFlight(s.drainers, c), InFlight(s'.drainers, c), Queued(s, c));
  }

  lemma PopFlight(s: State, d: nat, f: Frame)
    requires d < |s.drainers| && s.drainers[d].place.Fetching?
    ensures var c := s.drainers[d].conn;
      multiset(InFlight(Moved(s, d, Handling(f)).drainers, c)) == multiset(InFlight(s.drainers, c)) + multiset{f}
  {
    var c := s.drainers[d].conn;
    var others := FlightExchanged(s, d, Handling(f), c);
    NothingHeld(s.drainers[d], c);
    assert Holding(Drainer(c, Handling(f)), c) == [f] && multiset([f]) == multiset{f};
    assert others + multiset{} == others;
  }

  lemma PopKeepsCounted(s: State, d: nat, c: Conn)
    requires Counted(s, c) && d < |s.drainers| && s.drainers[d].place.Fetching? && s.drainers[d].conn == c
    requires c in s.queues && s.queues[c].items != []
    ensures Counted(DoPop(s, d), c)
  {
    var q := Queued(s, c);
    PopFlight(s, d, q[0]);
    CompletePop(Log(s, c), InFlight(s.drainers, c), q, InFlight(DoPop(s, d).drainers, c));
  }

  lemma FinishFlight(s: State, d: nat, f: Frame)
    requires d < |s.drainers| && s.drainers[d].place == Handling(f)
    ensures var c := s.drainers[d].conn;
      multiset(InFlight(s.drainers, c)) == multiset(InFlight(Moved(s, d, Fetching).drainers, c)) + multiset{f}
  {
    var c := s.drainers[d].conn;
    var others := FlightExchanged(s, d, Fetching, c);
    NothingHeld(Drainer(c, Fetching), c);
    assert Holding(s.drainers[d], c) == [f] && multiset([f]) == multiset{f};
    assert others + multiset{} == others;
  }

  lemma FinishKeepsCounted(s: State, d: nat, f: Frame, c: Conn)
    requires Counted(s, c) && d < |s.drainers| && s.drainers[d].place == Handling(f) && s.drainers[d].conn == c
    ensures Counted(DoFinish(s, d, f), c)
  {
    FinishFlight(s, d, f);
    CompleteFinish(Log(s, c), f, InFlight(s.drainers, c), Queued(s, c), InFlight(DoFinish(s, d, f).drainers, c));
  }

  lemma DrainMoves(s: State, d: nat)
    requires d < |s.drainers|
    ensures |DoDrain(s, d).drainers| == |s.drainers|
    ensures DoDrain(s, d).drainers == Moved(s, d, DoDrain(s, d).drainers[d].place).drainers
  {}

  /** Neither takes nor finishes a frame of the connection. */
  lemma DrainLeaves(s: State, d: nat, c: Conn)
    requires d < |s.drainers|
    requires s.drainers[d].conn == c ==>
      !s.drainers[d].place.Handling? && (s.drainers[d].place.Fetching? ==> Queued(s, c) == [])
    ensures Queued(DoDrain(s, d), c) == Queued(s, c) && Log(DoDrain(s, d), c) == Log(s, c)
    ensures s.drainers[d].conn == c ==> !DoDrain(s, d).drainers[d].place.Handling?
  {}

  lemma DrainKeepsCounted(s: State, d: nat, c: Conn)
    requires Counted(s, c) && d < |s.drainers| && !s.drainers[d].place.Exited?
    ensures Counted(DoDrain(s, d), c)
  {
    var c0, p := s.drainers[d].conn, s.drainers[d].place;
    if c0 == c && p.Handling? {
      FinishKeepsCounted(s, d, p.frame, c);
    } else if c0 == c && p.Fetching? && Queued(s, c) != [] {
      PopKeepsCounted(s, d, c);
    } else {
      DrainMoves(s, d);
      DrainLeaves(s, d, c);
      SameKeepsCounted(s, d, DoDrain(s, d).drainers[d].place, DoDrain(s, d), c);
    }
  }

  lemma CloseKeepsCounted(s: State, s': State, c: Conn)
    requires Counted(s, c) && s'.drainers == s.drainers && Queued(s', c) == []
    requires Log(s', c) == DropQueued(Log(s, c), |Queued(s, c)|)
    ensures Counted(s', c)
  {
    CompleteDrop(Log(s, c), InFlight(s.drainers, c), Queued(s, c));
  }

  lemma CloseEffect(s: State, c: Conn)
    requires c in s.queues
    ensures var s' := DoClose(s, c);
      s'.drainers == s.drainers && Queued(s', c) == [] && Log(s', c) == DropQueued(Log(s, c), |Queued(s, c)|)
  {}

  lemma CloseElsewhere(s: State, c0: Conn, c: Conn)
    requires c != c0 || c0 !in s.queues
    ensures var s' := DoClose(s, c0);
      s'.drainers == s.drainers && Queued(s', c) == Queued(s, c) && Log(s', c) == Log(s, c)
  {}

  lemma CloseAllEffect(s: State, c: Conn)
    requires Counted(s, c)
    ensures var s' := DoCloseAll(s);
      s'.drainers == s.drainers && Queued(s', c) == [] && Log(s', c) == DropQueued(Log(s, c), |Queued(s, c)|)
  {
    if c !in s.histories && c !in s.queues {
      assert DropQueued(Log(s, c), 0).dropped == {};
    }
  }

  lemma StepKeepsCounted(s: State, a: Action, c: Conn)
    requires Counted(s, c) && Enabled(s, a)
    ensures Counted(Apply(s, a), c)
  {
    match a
    case Enqueue(b, f) => EnqueueKeepsCounted(s, b, f, c);
    case Drain(d) => DrainKeepsCounted(s, d, c);
    case CloseConnection(c0) =>
      if c == c0 && c in s.queues {
        CloseEffect(s, c);
        CloseKeepsCounted(s, DoClose(s, c), c);
      } else {
        CloseElsewhere(s, c0, c);
      }
    case CloseAll =>
      CloseAllEffect(s, c);
      CloseKeepsCounted(s, DoCloseAll(s), c);
  }

  lemma StillDrained(s: State, s': State, c: Conn)
    requires HasDrainer(s, c) && |s.drainers| <= |s'.drainers|
    requires forall i :: 0 <= i < |s.drainers| && Live(s.drainers[i], c) ==> Live(s'.drainers[i], c)
    ensures HasDrainer(s', c)
  {
    var i :| 0 <= i < |s.drainers| && Live(s.drainers[i], c);
    assert Live(s'.drainers[i], c);
  }

  /** A drainer exits only when its connection has no entry then. */
  lemma StepKeepsDrained(s: State, a: Action)
    requires Drained(s) && Enabled(s, a)
    ensures Drained(Apply(s, a))
  {
    var s' := Apply(s, a);
    forall c | c in s'.queues ensures s'.queues[c].processing && HasDrainer(s', c) {
      if c in s.queues {
        StillDrained(s, s', c);
      } else {
        assert Live(s'.drainers[|s.drainers|], c);
      }
    }
  }

  lemma {:induction false} GoesOn(s: State, run: seq<Action>, c: Conn)
    requires Goes(s, run) && Drained(s) && Counted(s, c)
    ensures Drained(Reached(s, run)) && Counted(Reached(s, run), c)
    decreases |run|
  {
    if run != [] {
      StepKeepsDrained(s, run[0]);
      StepKeepsCounted(s, run[0], c);
      GoesOn(Apply(s, run[0]), run[1..], c);
    }
  }

  /** IN EVERY RUN, whoever sends again after whatever close, an entry has a live drainer, and every frame
      ever enqueued is exactly one of handled, in flight, queued or dropped. */
  lemma NeverAbandoned(run: seq<Action>, c: Conn)
    requires Goes(EMPTY, run)
    ensures var s := Reached(EMPTY, run);
      (c in s.queues ==> s.queues[c].processing && HasDrainer(s, c)) && Counted(s, c)
  {
    GoesOn(EMPTY, run, c);
  }

  // ---------------------------------------------------------------- two drainers

  ghost predicate TwoDrainers(s: State, c: Conn) {
    exists i, j :: 0 <= i < j < |s.drainers| && Live(s.drainers[i], c) && Live(s.drainers[j], c)
  }

  /** After everything closed, a frame under an old id is drained by a second drainer exactly when
      the old id still had an entry. */
  lemma ReuseAfterCloseAll(s: State, c: Conn, f: Frame)
    requires Inv(s) && c !in s.retired
    ensures TwoDrainers(DoEnqueue(DoCloseAll(s), c, f), c) <==> c in s.queues
  {
    var s', n := DoEnqueue(DoCloseAll(s), c, f), |s.drainers|;
    assert s'.drainers == s.drainers + [Drainer(c, Spawned)];
    if c in s.queues {
      var i :| 0 <= i < n && Live(s.drainers[i], c);
      assert Live(s'.drainers[i], c) && Live(s'.drainers[n], c);
    } else {
      forall i | 0 <= i < n ensures !Live(s'.drainers[i], c) {
        assert s'.drainers[i] == s.drainers[i];
      }
    }
  }

  lemma OneMove(s: State, a: Action, run: seq<Action>)
    requires Enabled(s, a) && Goes(Apply(s, a), run)
    ensures Goes(s, [a] + run) && Reached(s, [a] + run) == Reached(Apply(s, a), run)
  {
    assert ([a] + run)[1..] == run;
  }

  /** Two frames of one connection, everything closing while the first is handled. */
  function Overtaking(c: Conn, f: Frame, g: Frame): seq<Action> {
    [Enqueue(c, f)] + ([Drain(0)] + ([Drain(0)] + ([CloseAll] + ([Enqueue(c, g)]
    + ([Drain(1)] + ([Drain(1)] + ([Drain(1)] + ([Drain(0)] + []))))))))
  }

  lemma FirstHalf(c: Conn, f: Frame)
    ensures var s1 := DoEnqueue(EMPTY, c, f);
      s1.drainers == [Drainer(c, Spawned)] && DoDrain(s1, 0).drainers == [Drainer(c, Fetching)]
    ensures var s3 := DoDrain(DoDrain(DoEnqueue(EMPTY, c, f), 0), 0);
      s3.drainers == [Drainer(c, Handling(f))] && Log(s3, c) == History([f], {}, []) && Queued(s3, c) == []
  {}

  /** The second frame is handled before the first: the order is lost. */
  lemma OrderIsLost(c: Conn, f: Frame, g: Frame)
    ensures Goes(EMPTY, Overtaking(c, f, g))
    ensures var h := Log(Reached(EMPTY, Overtaking(c, f, g)), c);
      h.enqueued == [f, g] && h.handled == [g, f] && h.dropped == {}
  {
    var s1 := DoEnqueue(EMPTY, c, f);
    var s2 := DoDrain(s1, 0);
    var s3 := DoDrain(s2, 0);
    FirstHalf(c, f);
    var s4 := DoCloseAll(s3);
    var s5 := DoEnqueue(s4, c, g);
    assert s5.drainers == [Drainer(c, Handling(f)), Drainer(c, Spawned)];
    assert Log(s5, c) == History([f, g], {}, []) && Queued(s5, c) == [g];
    var s6 := DoDrain(s5, 1);
    var s7 := DoDrain(s6, 1);
    assert s7.drainers == [Drainer(c, Handling(f)), Drainer(c, Handling(g))];
    var s8 := DoDrain(s7, 1);
    var s9 := DoDrain(s8, 0);
    assert Log(s9, c) == History([f, g], {}, [g, f]);
    OneMove(s8, Drain(0), []);
    OneMove(s7, Drain(1), [Drain(0)] + []);
    OneMove(s6, Drain(1), [Drain(1)] + ([Drain(0)] + []));
    OneMove(s5, Drain(1), [Drain(1)] + ([Drain(1)] + ([Drain(0)] + [])));
    var rest := [Drain(1)] + ([Drain(1)] + ([Drain(1)] + ([Drain(0)] + [])));
    OneMove(s4, Enqueue(c, g), rest);
    OneMove(s3, CloseAll, [Enqueue(c, g)] + rest);
    OneMove(s2, Drain(0), [CloseAll] + ([Enqueue(c, g)] + rest));
    OneMove(s1, Drain(0), [Drain(0)] + ([CloseAll] + ([Enqueue(c, g)] + rest)));
    OneMove(EMPTY, Enqueue(c, f), [Drain(0)] + ([Drain(0)] + ([CloseAll] + ([Enqueue(c, g)] + rest))));
  }

  // ---------------------------------------------------------------- a handler that panics

  /** The only drainer of a connection is handling a frame. */
  ghost predicate StuckAt(s: State, c: Conn, d: nat) {
    && d < |s.drainers| && s.drainers[d].conn == c && s.drainers[d].place.Handling?
    && c in s.queues && s.queues[c].processing
    && forall i :: 0 <= i < |s.drainers| && i != d ==> !Live(s.drainers[i], c)
  }

  predicate Without(run: seq<Action>, d: nat) {
    forall k :: 0 <= k < |run| ==> run[k] != Drain(d) && !run[k].CloseAll?
  }

  lemma StepKeepsStuck(s: State, a: Action, c: Conn, d: nat)
    requires StuckAt(s, c, d) && Enabled(s, a) && a != Drain(d) && !a.CloseAll?
    ensures StuckAt(Apply(s, a), c, d) && Log(Apply(s, a), c).handled == Log(s, c).handled
  {
    if a.Drain? {
      assert !Live(s.drainers[a.drainer], c);
    }
  }

  /** STRANDED. If the handling of a frame never returns, as when the handler panics, then whatever else
      arrives or closes, no frame of that connection is handled any more, and no drainer starts, until
      everything closes. */
  lemma {:induction false} PanicStrands(s: State, run: seq<Action>, c: Conn, d: nat)
    requires StuckAt(s, c, d) && Goes(s, run) && Without(run, d)
    ensures StuckAt(Reached(s, run), c, d) && Log(Reached(s, run), c).handled == Log(s, c).handled
    decreases |run|
  {
    if run != [] {
      StepKeepsStuck(s, run[0], c, d);
      assert forall k :: 0 <= k < |run| - 1 ==> run[1..][k] == run[k + 1];
      PanicStrands(Apply(s, run[0]), run[1..], c, d);
    }
  }

  /** It comes about: every drainer that handles a frame, in a run in which no id is reused after a full
      clear, is the only one of its connection; and until such a clear its entry is there. */
  lemma HandlingIsAlone(run: seq<Action>, d: nat)
    requires IsRun(EMPTY, run) && d < |After(EMPTY, run).drainers|
    requires var s := After(EMPTY, run); s.drainers[d].place.Handling? && s.drainers[d].conn !in s.retired
    ensures StuckAt(After(EMPTY, run), After(EMPTY, run).drainers[d].conn, d)
  {
    EmptyInv();
    RunKeepsInv(EMPTY, run);
  }
}
