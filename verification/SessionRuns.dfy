/** Any number of requests sharing one master: every interleaving of the steps of `wait_response`
    with arriving frames and errors. */
module SessionRuns {
  import opened Bytes
  import opened Adus
  import opened Session

  datatype Request = Request(broadcast: bool, checks: seq<PreCheck>)

  /** A master and the requests made of it. Only a TCP master may be concurrent. */
  datatype Master = Master(tcp: bool, concurrent: bool, requests: seq<Request>)

  predicate WellFormed(m: Master) { m.concurrent ==> m.tcp }

  datatype Result = Returned(adu: Adu) | Sent | Failed(error: MasterError)

  /** A request has yet to begin, has its key, has armed its waiter and is being written, awaits its
      response, or has returned. `number` is the allocation its transaction came from. */
  datatype Phase =
    | Fresh
    | Keyed(key: Key, number: nat)
    | Armed(key: Key, number: nat)
    | Waiting(key: Key, number: nat)
    | Done(key: Key, result: Result)

  predicate Live(p: Phase) { p.Keyed? || p.Armed? || p.Waiting? }

  predicate Sending(p: Phase) { p.Armed? || p.Waiting? }

  /** The slots, how many transactions have been issued, the requests, and the holder of the lock
      that serialises them when the master is not concurrent. */
  datatype State = State(slots: Slots, issued: nat, phases: seq<Phase>, lock: Option<nat>)

  datatype Move =
    | Allocate(i: nat)
    | Arm(i: nat)
    | WriteFails(i: nat)
    | Written(i: nat)
    | Wake(i: nat)
    | TimesOut(i: nat)
    | Loses(i: nat)
    | Arrives(adu: Adu)
    | Report(error: MasterError)

  function Initial(m: Master): State {
    State(Slots(map[], map[]), 0, seq(|m.requests|, _ => Fresh), None)
  }

  predicate UsesTid(m: Master, i: nat)
    requires i < |m.requests|
  {
    m.tcp && !m.requests[i].broadcast
  }

  /** The checks of a request, after one for its transaction if it has one. */
  function FinalChecks(m: Master, i: nat, key: Key): seq<PreCheck>
    requires i < |m.requests|
  {
    match key
    case Tid(tid) => [CheckTransaction(tid)] + m.requests[i].checks
    case Fifo => m.requests[i].checks
  }

  /** The waiter of the request is gone and nothing was sent to its receiver. */
  predicate Dropped(s: State, i: nat)
    requires i < |s.phases| && Live(s.phases[i])
  {
    && i !in s.slots.settled
    && !(s.phases[i].key in s.slots.waiters && s.slots.waiters[s.phases[i].key].owner == i)
  }

  predicate Enabled(m: Master, s: State, v: Move)
    requires |s.phases| == |m.requests|
  {
    match v
    case Allocate(i) => i < |s.phases| && s.phases[i].Fresh? && (m.concurrent || s.lock.None?)
    case Arm(i) => i < |s.phases| && s.phases[i].Keyed?
    case WriteFails(i) => i < |s.phases| && s.phases[i].Armed?
    case Written(i) => i < |s.phases| && s.phases[i].Armed?
    case Wake(i) => i < |s.phases| && s.phases[i].Waiting? && i in s.slots.settled
    case TimesOut(i) => i < |s.phases| && s.phases[i].Waiting?
    case Loses(i) => i < |s.phases| && s.phases[i].Waiting? && Dropped(s, i)
    case Arrives(_) => true
    case Report(_) => true
  }

  function Outcome(settled: Settlement): Result {
    match settled
    case Resolved(adu) => Returned(adu)
    case Rejected(e) => Failed(e)
  }

  /** Give up the slot and return. */
  function GiveUp(s: State, i: nat, result: Result): State
    requires i < |s.phases| && Live(s.phases[i])
  {
    Return(s.(slots := Stopped(s.slots, s.phases[i].key)), i, result)
  }

  function Return(s: State, i: nat, result: Result): State
    requires i < |s.phases| && Live(s.phases[i])
  {
    s.(phases := s.phases[i := Done(s.phases[i].key, result)], lock := if s.lock == Some(i) then None else s.lock)
  }

  function Step(m: Master, s: State, v: Move): (t: State)
    requires |s.phases| == |m.requests| && Enabled(m, s, v)
    ensures |t.phases| == |s.phases|
  {
    match v
    case Allocate(i) =>
      var key := if UsesTid(m, i) then Tid(TidOf(s.issued)) else Fifo;
      s.(phases := s.phases[i := Keyed(key, s.issued)],
         issued := if UsesTid(m, i) then s.issued + 1 else s.issued,
         lock := if m.concurrent then s.lock else Some(i))
    case Arm(i) =>
      var p := s.phases[i];
      s.(phases := s.phases[i := Armed(p.key, p.number)],
         slots := Started(s.slots, p.key, Waiter(i, FinalChecks(m, i, p.key))))
    case WriteFails(i) => GiveUp(s, i, Failed(WriteFailed))
    case Written(i) =>
      if m.requests[i].broadcast then GiveUp(s, i, Sent)
      else s.(phases := s.phases[i := Waiting(s.phases[i].key, s.phases[i].number)])
    case Wake(i) => Return(s, i, Outcome(s.slots.settled[i]))
    case TimesOut(i) => GiveUp(s, i, Failed(Timeout))
    case Loses(i) => Return(s, i, Failed(Cleared))
    case Arrives(adu) => s.(slots := Handled(s.slots, adu))
    case Report(e) => s.(slots := AllStopped(s.slots, e))
  }

  // ---------------------------------------------------------------- the invariant

  /** No request is still going 65535 allocations after its own. */
  predicate Timely(m: Master, s: State)
    requires |s.phases| == |m.requests|
  {
    forall i :: 0 <= i < |s.phases| && Live(s.phases[i]) && UsesTid(m, i) ==> s.issued - s.phases[i].number <= 65535
  }

  /** An armed slot belongs to a request that is going, has that key, and has not been answered. */
  ghost predicate SlotsOwned(m: Master, s: State)
    requires |s.phases| == |m.requests|
  {
    forall k :: k in s.slots.waiters ==>
      var w := s.slots.waiters[k];
      && w.owner < |s.phases| && Sending(s.phases[w.owner]) && s.phases[w.owner].key == k
      && w.owner !in s.slots.settled && w.checks == FinalChecks(m, w.owner, k)
  }

  ghost predicate LockHeld(m: Master, s: State)
    requires |s.phases| == |m.requests|
  {
    !m.concurrent ==> forall i :: 0 <= i < |s.phases| && Live(s.phases[i]) ==> s.lock == Some(i)
  }

  ghost predicate KeysFit(m: Master, s: State)
    requires |s.phases| == |m.requests|
  {
    forall i :: 0 <= i < |s.phases| && Live(s.phases[i]) ==>
      if UsesTid(m, i) then s.phases[i].number < s.issued && s.phases[i].key == Tid(TidOf(s.phases[i].number))
      else s.phases[i].key == Fifo
  }

  ghost predicate NumbersDiffer(m: Master, s: State)
    requires |s.phases| == |m.requests|
  {
    forall i, j :: 0 <= i < j < |s.phases| && Live(s.phases[i]) && Live(s.phases[j]) && UsesTid(m, i) && UsesTid(m, j) ==>
      s.phases[i].number != s.phases[j].number
  }

  predicate Answerable(m: Master, s: State, i: nat)
    requires |s.phases| == |m.requests| && i < |s.phases|
  {
    Sending(s.phases[i]) && !m.requests[i].broadcast && i !in s.slots.settled
  }

  /** A request that is going, expects an answer and has none still has its own waiter armed. */
  ghost predicate Awaited(m: Master, s: State)
    requires |s.phases| == |m.requests|
  {
    forall i :: 0 <= i < |s.phases| && Answerable(m, s, i) ==>
      s.phases[i].key in s.slots.waiters && s.slots.waiters[s.phases[i].key].owner == i
  }

  predicate Fits(m: Master, i: nat, key: Key, adu: Adu)
    requires i < |m.requests|
  {
    KeyOf(adu) == key && Verdicts(FinalChecks(m, i, key), adu) == Accept
  }

  /** What is sent to a request is a frame with its key that passes all its checks, or an error. */
  ghost predicate AnswersFit(m: Master, s: State)
    requires |s.phases| == |m.requests|
  {
    forall i :: i in s.slots.settled ==>
      && i < |s.phases| && (Sending(s.phases[i]) || s.phases[i].Done?)
      && (s.slots.settled[i].Resolved? ==> Fits(m, i, s.phases[i].key, s.slots.settled[i].adu))
  }

  ghost predicate ReturnsFit(m: Master, s: State)
    requires |s.phases| == |m.requests|
  {
    forall i :: 0 <= i < |s.phases| && s.phases[i].Done? ==>
      && (s.phases[i].result.Returned? ==> Fits(m, i, s.phases[i].key, s.phases[i].result.adu))
      && (UsesTid(m, i) <==> s.phases[i].key.Tid?)
  }

  /** What every move keeps. */
  ghost predicate Safe(m: Master, s: State) {
    && |s.phases| == |m.requests|
    && SlotsOwned(m, s) && LockHeld(m, s) && KeysFit(m, s) && NumbersDiffer(m, s)
    && AnswersFit(m, s) && ReturnsFit(m, s)
  }

  /** What a move keeps while no request has outlived the numbers. */
  ghost predicate Inv(m: Master, s: State) { Safe(m, s) && Awaited(m, s) }

  lemma StepKeepsSlotsOwned(m: Master, s: State, v: Move)
    requires |s.phases| == |m.requests| && Enabled(m, s, v) && SlotsOwned(m, s) && AnswersFit(m, s)
    ensures SlotsOwned(m, Step(m, s, v))
  {
    var t := Step(m, s, v);
    forall k | k in t.slots.waiters
      ensures var w := t.slots.waiters[k];
        && w.owner < |t.phases| && Sending(t.phases[w.owner]) && t.phases[w.owner].key == k
        && w.owner !in t.slots.settled && w.checks == FinalChecks(m, w.owner, k)
    {
      if k in s.slots.waiters {
        assert s.slots.waiters[k].owner !in s.slots.settled;
      }
    }
  }

  lemma StepKeepsLockHeld(m: Master, s: State, v: Move)
    requires |s.phases| == |m.requests| && Enabled(m, s, v) && LockHeld(m, s)
    ensures LockHeld(m, Step(m, s, v))
  {}

  lemma StepKeepsKeysFit(m: Master, s: State, v: Move)
    requires |s.phases| == |m.requests| && Enabled(m, s, v) && KeysFit(m, s)
    ensures KeysFit(m, Step(m, s, v))
  {}

  lemma StepKeepsNumbersDiffer(m: Master, s: State, v: Move)
    requires |s.phases| == |m.requests| && Enabled(m, s, v) && KeysFit(m, s) && NumbersDiffer(m, s)
    ensures NumbersDiffer(m, Step(m, s, v))
  {}

  lemma StepKeepsAnswersFit(m: Master, s: State, v: Move)
    requires |s.phases| == |m.requests| && Enabled(m, s, v) && SlotsOwned(m, s) && AnswersFit(m, s)
    ensures AnswersFit(m, Step(m, s, v))
  {
    var t := Step(m, s, v);
    forall i | i in t.slots.settled
      ensures i < |t.phases| && (Sending(t.phases[i]) || t.phases[i].Done?)
      ensures t.slots.settled[i].Resolved? ==> Fits(m, i, t.phases[i].key, t.slots.settled[i].adu)
    {
      if i !in s.slots.settled {
        assert exists k :: k in s.slots.waiters && s.slots.waiters[k].owner == i;
      }
    }
  }

  lemma StepKeepsReturnsFit(m: Master, s: State, v: Move)
    requires |s.phases| == |m.requests| && Enabled(m, s, v) && AnswersFit(m, s) && ReturnsFit(m, s) && KeysFit(m, s)
    ensures ReturnsFit(m, Step(m, s, v))
  {}

  /** Two requests that are going and of which one expects an answer never have the same key. */
  lemma KeysDiffer(m: Master, s: State, i: nat, j: nat)
    requires WellFormed(m) && |s.phases| == |m.requests|
    requires LockHeld(m, s) && KeysFit(m, s) && NumbersDiffer(m, s) && Timely(m, s)
    requires i < |s.phases| && j < |s.phases| && i != j && Live(s.phases[i]) && Live(s.phases[j])
    requires !m.requests[i].broadcast
    ensures s.phases[i].key != s.phases[j].key
  {
    if UsesTid(m, i) && UsesTid(m, j) {
      var a, b := s.phases[i].number, s.phases[j].number;
      assert a != b by {
        if i < j { assert NumbersDiffer(m, s); } else { assert NumbersDiffer(m, s); }
      }
      TidsDistinct(if a < b then a else b, if a < b then b else a);
    }
  }

  lemma StepKeepsAwaited(m: Master, s: State, v: Move)
    requires WellFormed(m) && Inv(m, s) && Timely(m, s) && Enabled(m, s, v)
    ensures Awaited(m, Step(m, s, v))
  {
    var t := Step(m, s, v);
    forall i | 0 <= i < |t.phases| && Answerable(m, t, i)
      ensures t.phases[i].key in t.slots.waiters && t.slots.waiters[t.phases[i].key].owner == i
    {
      if (v.Arm? || v.WriteFails? || v.Written? || v.TimesOut?) && v.i != i {
        KeysDiffer(m, s, i, v.i);
      }
    }
  }

  lemma StepKeepsSafe(m: Master, s: State, v: Move)
    requires Safe(m, s) && Enabled(m, s, v)
    ensures Safe(m, Step(m, s, v))
  {
    StepKeepsSlotsOwned(m, s, v);
    StepKeepsLockHeld(m, s, v);
    StepKeepsKeysFit(m, s, v);
    StepKeepsNumbersDiffer(m, s, v);
    StepKeepsAnswersFit(m, s, v);
    StepKeepsReturnsFit(m, s, v);
  }

  lemma StepKeepsInv(m: Master, s: State, v: Move)
    requires WellFormed(m) && Inv(m, s) && Timely(m, s) && Enabled(m, s, v)
    ensures Inv(m, Step(m, s, v))
  {
    StepKeepsSafe(m, s, v);
    StepKeepsAwaited(m, s, v);
  }

  // ---------------------------------------------------------------- all runs

  /** Any interleaving whatever. */
  ghost predicate IsRun(m: Master, s: State, moves: seq<Move>)
    requires |s.phases| == |m.requests|
    decreases |moves|
  {
    moves == [] || (Enabled(m, s, moves[0]) && IsRun(m, Step(m, s, moves[0]), moves[1..]))
  }

  function After(m: Master, s: State, moves: seq<Move>): (t: State)
    requires |s.phases| == |m.requests| && IsRun(m, s, moves)
    ensures |t.phases| == |s.phases|
    decreases |moves|
  {
    if moves == [] then s else After(m, Step(m, s, moves[0]), moves[1..])
  }

  /** A run before no move of which a request has outlived the numbers. */
  ghost predicate IsTimelyRun(m: Master, s: State, moves: seq<Move>)
    requires |s.phases| == |m.requests|
    ensures IsTimelyRun(m, s, moves) ==> IsRun(m, s, moves)
    decreases |moves|
  {
    moves == [] || (Timely(m, s) && Enabled(m, s, moves[0]) && IsTimelyRun(m, Step(m, s, moves[0]), moves[1..]))
  }

  lemma {:induction false} RunKeepsSafe(m: Master, s: State, moves: seq<Move>)
    requires Safe(m, s) && IsRun(m, s, moves)
    ensures Safe(m, After(m, s, moves))
    decreases |moves|
  {
    if moves != [] {
      StepKeepsSafe(m, s, moves[0]);
      RunKeepsSafe(m, Step(m, s, moves[0]), moves[1..]);
    }
  }

  lemma {:induction false} RunKeepsInv(m: Master, s: State, moves: seq<Move>)
    requires WellFormed(m) && Inv(m, s) && IsTimelyRun(m, s, moves)
    ensures Inv(m, After(m, s, moves))
    decreases |moves|
  {
    if moves != [] {
      StepKeepsInv(m, s, moves[0]);
      RunKeepsInv(m, Step(m, s, moves[0]), moves[1..]);
    }
  }

  lemma InitialInv(m: Master)
    ensures Inv(m, Initial(m))
  {}

  // ---------------------------------------------------------------- what it means

  /** How a request comes to be answered: by a frame with its key, judged by its checks, or by an
      error reported to all; and only if its waiter is armed and it has not been answered. */
  predicate Answers(m: Master, s: State, v: Move, i: nat, answer: Settlement)
    requires |s.phases| == |m.requests|
  {
    && i < |s.phases| && Sending(s.phases[i]) && i !in s.slots.settled
    && s.phases[i].key in s.slots.waiters && s.slots.waiters[s.phases[i].key].owner == i
    && match v
       case Arrives(adu) =>
         KeyOf(adu) == s.phases[i].key && answer == Answer(Verdicts(FinalChecks(m, i, s.phases[i].key), adu), adu)
       case Report(e) => answer == Rejected(e)
       case _ => false
  }

  lemma StepAnswers(m: Master, s: State, v: Move, i: nat)
    requires |s.phases| == |m.requests| && SlotsOwned(m, s) && Enabled(m, s, v)
    ensures var t := Step(m, s, v);
      && (i in s.slots.settled ==> i in t.slots.settled && t.slots.settled[i] == s.slots.settled[i])
      && (i !in s.slots.settled && i in t.slots.settled ==> Answers(m, s, v, i, t.slots.settled[i]))
  {
    if v.Report? && i in Owners(s.slots.waiters) {
      var k :| k in s.slots.waiters && s.slots.waiters[k].owner == i;
    }
  }

  /** AT MOST ONCE. In every run the answer to a request, once given, never changes. */
  lemma {:induction false} AnsweredOnce(m: Master, s: State, moves: seq<Move>, i: nat)
    requires Safe(m, s) && IsRun(m, s, moves) && i in s.slots.settled
    ensures var t := After(m, s, moves); i in t.slots.settled && t.slots.settled[i] == s.slots.settled[i]
    decreases |moves|
  {
    if moves != [] {
      StepAnswers(m, s, moves[0], i);
      StepKeepsSafe(m, s, moves[0]);
      AnsweredOnce(m, Step(m, s, moves[0]), moves[1..], i);
    }
  }

  /** ONLY ITS OWN. In every run a request that returns a frame returns one with its own transaction,
      if it has one, that every one of its checks accepts. */
  lemma ReturnsItsOwn(m: Master, moves: seq<Move>, i: nat)
    requires IsRun(m, Initial(m), moves) && i < |m.requests|
    requires var p := After(m, Initial(m), moves).phases[i]; p.Done? && p.result.Returned?
    ensures var p := After(m, Initial(m), moves).phases[i];
      && KeyOf(p.result.adu) == p.key
      && (UsesTid(m, i) <==> p.result.adu.transaction.Some?)
      && forall c :: c in m.requests[i].checks ==> Judge(c, p.result.adu) == Accept
  {
    InitialInv(m);
    RunKeepsSafe(m, Initial(m), moves);
    var p := After(m, Initial(m), moves).phases[i];
    var checks := FinalChecks(m, i, p.key);
    AcceptedByAll(checks, p.result.adu);
    forall c | c in m.requests[i].checks ensures Judge(c, p.result.adu) == Accept {
      assert c in checks;
      var k :| 0 <= k < |checks| && checks[k] == c;
    }
  }

  /** NOT DROPPED. While no request outlives the numbers, a request awaiting its response either has its
      waiter armed or has been answered: its receiver is never dropped under it. */
  lemma NotDropped(m: Master, moves: seq<Move>, i: nat)
    requires WellFormed(m) && IsTimelyRun(m, Initial(m), moves) && i < |m.requests|
    requires After(m, Initial(m), moves).phases[i].Waiting?
    ensures !Dropped(After(m, Initial(m), moves), i)
  {
    InitialInv(m);
    WaitingExpects(m, Initial(m), moves, i);
    RunKeepsInv(m, Initial(m), moves);
  }

  lemma {:induction false} WaitingExpects(m: Master, s: State, moves: seq<Move>, i: nat)
    requires |s.phases| == |m.requests| && IsRun(m, s, moves) && i < |s.phases|
    requires s.phases[i].Waiting? ==> !m.requests[i].broadcast
    ensures After(m, s, moves).phases[i].Waiting? ==> !m.requests[i].broadcast
    decreases |moves|
  {
    if moves != [] {
      WaitingExpects(m, Step(m, s, moves[0]), moves[1..], i);
    }
  }

  /** Arming overwrites nothing and giving up removes nothing of another request, unless both are
      broadcasts of a concurrent master, which await nothing. */
  lemma SlotIsOwn(m: Master, s: State, i: nat)
    requires WellFormed(m) && Inv(m, s) && Timely(m, s) && i < |s.phases| && Live(s.phases[i])
    requires s.phases[i].key in s.slots.waiters
    ensures var o := s.slots.waiters[s.phases[i].key].owner;
      (o == i && Sending(s.phases[i])) || (m.concurrent && m.requests[i].broadcast && m.requests[o].broadcast)
  {
    var o := s.slots.waiters[s.phases[i].key].owner;
    if o != i {
      if !m.requests[i].broadcast {
        KeysDiffer(m, s, i, o);
      } else if !m.requests[o].broadcast {
        KeysDiffer(m, s, o, i);
      }
    }
  }

  /** A master that is not concurrent has at most one waiter armed, in every run. */
  lemma OneAtATime(m: Master, s: State, k: Key, l: Key)
    requires Safe(m, s) && !m.concurrent && k in s.slots.waiters && l in s.slots.waiters
    ensures k == l
  {
    var a, b := s.slots.waiters[k].owner, s.slots.waiters[l].owner;
    assert Live(s.phases[a]) && Live(s.phases[b]);
  }

  /** Once every request has returned no waiter is left. */
  lemma NothingLeft(m: Master, s: State)
    requires Safe(m, s) && forall i :: 0 <= i < |s.phases| ==> s.phases[i].Done?
    ensures s.slots.waiters == map[]
  {
    forall k ensures k !in s.slots.waiters {}
  }

  // ---------------------------------------------------------------- the limit is exact

  /** If a request is still unanswered when 65534 further transactions have been issued, the next one to
      be issued gets its key, and arming takes its slot: its receiver is dropped. */
  lemma OutlivedIsDropped(m: Master, s: State, i: nat, j: nat)
    requires Safe(m, s) && m.tcp && m.concurrent && i < |s.phases| && j < |s.phases| && UsesTid(m, i) && UsesTid(m, j)
    requires Answerable(m, s, i) && s.phases[j].Fresh? && s.issued - s.phases[i].number == 65535
    ensures var t := Step(m, Step(m, s, Allocate(j)), Arm(j));
      && t.phases[j].key == t.phases[i].key && Answerable(m, t, i) && Dropped(t, i)
      && t.slots.waiters[t.phases[i].key].owner == j
  {
    TidsDistinct(s.phases[i].number, s.issued);
  }

  /** A concurrent TCP master with as many addressed requests as there are numbers, and one more. */
  predicate Crowded(m: Master) {
    m.tcp && m.concurrent && |m.requests| == 65536 && forall i :: 0 <= i < |m.requests| ==> !m.requests[i].broadcast
  }

  function Crowd(): (m: Master)
    ensures Crowded(m)
  {
    Master(true, true, seq(65536, _ => Request(false, [])))
  }

  /** Request 0 awaits its response; the next `k` have failed to write; the others have not begun. */
  ghost predicate OneWaits(m: Master, s: State, k: nat)
    requires Crowded(m) && k < 65536
  {
    && |s.phases| == 65536 && s.issued == k + 1
    && s.phases[0] == Waiting(Tid(TidOf(0)), 0)
    && (forall i :: 0 < i <= k ==> s.phases[i].Done?)
    && (forall i :: k < i < 65536 ==> s.phases[i].Fresh?)
    && s.slots == Slots(map[Tid(TidOf(0)) := Waiter(0, FinalChecks(m, 0, Tid(TidOf(0))))], map[])
  }

  function Failing(i: nat): seq<Move> { [Allocate(i), Arm(i), WriteFails(i)] }

  lemma ThreeMoves(m: Master, s: State, a: Move, b: Move, c: Move, more: seq<Move>)
    requires |s.phases| == |m.requests|
    requires Enabled(m, s, a) && Enabled(m, Step(m, s, a), b) && Enabled(m, Step(m, Step(m, s, a), b), c)
    ensures var t := Step(m, Step(m, Step(m, s, a), b), c);
      IsRun(m, t, more) ==> IsRun(m, s, [a, b, c] + more) && After(m, s, [a, b, c] + more) == After(m, t, more)
  {
    var moves := [a, b, c] + more;
    assert moves[1..] == [b, c] + more && moves[1..][1..] == [c] + more && moves[1..][1..][1..] == more;
    var s1 := Step(m, s, a);
    var s2 := Step(m, s1, b);
    var t := Step(m, s2, c);
    if IsRun(m, t, more) {
      assert IsRun(m, s2, [c] + more) && After(m, s2, [c] + more) == After(m, t, more);
      assert IsRun(m, s1, [b, c] + more) && After(m, s1, [b, c] + more) == After(m, s2, [c] + more);
    }
  }

  /** A request that fails to write while request 0 waits leaves the slots as they were. */
  lemma OneMoreFails(m: Master, s: State, k: nat)
    requires Crowded(m) && k < 65534 && OneWaits(m, s, k)
    ensures Enabled(m, s, Allocate(k + 1)) && Enabled(m, Step(m, s, Allocate(k + 1)), Arm(k + 1))
    ensures Enabled(m, Step(m, Step(m, s, Allocate(k + 1)), Arm(k + 1)), WriteFails(k + 1))
    ensures OneWaits(m, Step(m, Step(m, Step(m, s, Allocate(k + 1)), Arm(k + 1)), WriteFails(k + 1)), k + 1)
  {
    TidsDistinct(0, k + 1);
    var s1 := Step(m, s, Allocate(k + 1));
    var s2 := Step(m, s1, Arm(k + 1));
    var t := Step(m, s2, WriteFails(k + 1));
    assert t.slots.waiters == s.slots.waiters;
  }

  lemma {:induction false} ManyFail(m: Master, s: State, k: nat) returns (moves: seq<Move>)
    requires Crowded(m) && k < 65535 && OneWaits(m, s, k)
    ensures IsRun(m, s, moves) && OneWaits(m, After(m, s, moves), 65534)
    decreases 65535 - k
  {
    moves := [];
    if k < 65534 {
      OneMoreFails(m, s, k);
      var t := Step(m, Step(m, Step(m, s, Allocate(k + 1)), Arm(k + 1)), WriteFails(k + 1));
      var more := ManyFail(m, t, k + 1);
      ThreeMoves(m, s, Allocate(k + 1), Arm(k + 1), WriteFails(k + 1), more);
      moves := Failing(k + 1) + more;
    }
  }

  lemma FirstWaits(m: Master)
    requires Crowded(m)
    ensures var s := Initial(m);
      && Enabled(m, s, Allocate(0)) && Enabled(m, Step(m, s, Allocate(0)), Arm(0))
      && Enabled(m, Step(m, Step(m, s, Allocate(0)), Arm(0)), Written(0))
      && OneWaits(m, Step(m, Step(m, Step(m, s, Allocate(0)), Arm(0)), Written(0)), 0)
  {}

  /** And it is reached: a run in which request 0 waits while 65534 others fail to write, after which
      one more transaction drops its receiver, and it returns having lost it. */
  lemma DropIsReached() returns (m: Master, moves: seq<Move>)
    ensures WellFormed(m) && |m.requests| == 65536 && IsRun(m, Initial(m), moves)
    ensures var s := After(m, Initial(m), moves);
      && Answerable(m, s, 0) && !Dropped(s, 0)
      && Enabled(m, s, Allocate(65535)) && Enabled(m, Step(m, s, Allocate(65535)), Arm(65535))
      && var t := Step(m, Step(m, s, Allocate(65535)), Arm(65535));
         Dropped(t, 0) && Enabled(m, t, Loses(0))
         && Step(m, t, Loses(0)).phases[0] == Done(Tid(1), Failed(Cleared))
  {
    m := Crowd();
    FirstWaits(m);
    var s0 := Initial(m);
    var s1 := Step(m, Step(m, Step(m, s0, Allocate(0)), Arm(0)), Written(0));
    var more := ManyFail(m, s1, 0);
    ThreeMoves(m, s0, Allocate(0), Arm(0), Written(0), more);
    moves := [Allocate(0), Arm(0), Written(0)] + more;
    InitialInv(m);
    RunKeepsSafe(m, s0, moves);
    var s := After(m, s0, moves);
    assert OneWaits(m, s, 65534);
    assert !m.requests[0].broadcast && !m.requests[65535].broadcast;
    OutlivedIsDropped(m, s, 0, 65535);
  }
}
