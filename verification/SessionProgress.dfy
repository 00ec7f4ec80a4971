/** Requests sharing a master get on: none is ever stuck, each makes a bounded number of moves, and what
    arrives for a request is what it returns. */
module SessionProgress {
  import opened Bytes
  import opened Adus
  import opened Session
  import opened SessionRuns

  // ---------------------------------------------------------------- nobody is stuck

  /** A move of a request, and not of the world around. */
  predicate IsOwn(v: Move) { !v.Arrives? && !v.Report? }

  /** Whoever holds the lock is going, and a concurrent master has none. */
  predicate LockLive(m: Master, s: State)
    requires |s.phases| == |m.requests|
  {
    && (s.lock.Some? ==> s.lock.value < |s.phases| && SessionRuns.Live(s.phases[s.lock.value]))
    && (m.concurrent ==> s.lock.None?)
  }

  lemma StepKeepsLockLive(m: Master, s: State, v: Move)
    requires |s.phases| == |m.requests| && Enabled(m, s, v) && LockHeld(m, s) && LockLive(m, s)
    ensures LockLive(m, Step(m, s, v))
  {}

  lemma {:induction false} RunKeepsLockLive(m: Master, s: State, moves: seq<Move>)
    requires Safe(m, s) && LockLive(m, s) && IsRun(m, s, moves)
    ensures LockLive(m, After(m, s, moves))
    decreases |moves|
  {
    if moves != [] {
      StepKeepsSafe(m, s, moves[0]);
      StepKeepsLockLive(m, s, moves[0]);
      RunKeepsLockLive(m, Step(m, s, moves[0]), moves[1..]);
    }
  }

  /** NOT STUCK. In every run, as long as some request has not returned, some request can move. */
  lemma SomeoneCanMove(m: Master, moves: seq<Move>, i: nat) returns (v: Move)
    requires IsRun(m, Initial(m), moves) && i < |m.requests| && !After(m, Initial(m), moves).phases[i].Done?
    ensures IsOwn(v) && Enabled(m, After(m, Initial(m), moves), v)
  {
    InitialInv(m);
    RunKeepsLockLive(m, Initial(m), moves);
    var s := After(m, Initial(m), moves);
    if s.phases[i].Fresh? && s.lock.None? {
      v := Allocate(i);
    } else {
      var j := if s.phases[i].Fresh? then s.lock.value else i;
      v := if s.phases[j].Keyed? then Arm(j) else if s.phases[j].Armed? then Written(j) else TimesOut(j);
    }
  }

  // ---------------------------------------------------------------- and they end

  function MovesLeft(p: Phase): nat {
    match p
    case Fresh => 4
    case Keyed(_, _) => 3
    case Armed(_, _) => 2
    case Waiting(_, _) => 1
    case Done(_, _) => 0
  }

  function AllLeft(phases: seq<Phase>): nat {
    if phases == [] then 0 else MovesLeft(phases[0]) + AllLeft(phases[1..])
  }

  lemma {:induction false} OneUpdated(phases: seq<Phase>, i: nat, p: Phase)
    requires i < |phases|
    ensures AllLeft(phases[i := p]) == AllLeft(phases) - MovesLeft(phases[i]) + MovesLeft(p)
  {
    var after := phases[i := p];
    if i == 0 {
      assert after[1..] == phases[1..];
    } else {
      assert after[1..] == phases[1..][i - 1 := p];
      OneUpdated(phases[1..], i - 1, p);
    }
  }

  lemma MoveLowers(m: Master, s: State, v: Move)
    requires |s.phases| == |m.requests| && Enabled(m, s, v)
    ensures AllLeft(Step(m, s, v).phases) + (if IsOwn(v) then 1 else 0) <= AllLeft(s.phases)
  {
    if IsOwn(v) {
      OneUpdated(s.phases, v.i, Step(m, s, v).phases[v.i]);
      assert Step(m, s, v).phases == s.phases[v.i := Step(m, s, v).phases[v.i]];
    }
  }

  function OwnMoves(moves: seq<Move>): nat {
    if moves == [] then 0 else (if IsOwn(moves[0]) then 1 else 0) + OwnMoves(moves[1..])
  }

  lemma {:induction false} RunLowers(m: Master, s: State, moves: seq<Move>)
    requires |s.phases| == |m.requests| && IsRun(m, s, moves)
    ensures AllLeft(After(m, s, moves).phases) + OwnMoves(moves) <= AllLeft(s.phases)
    decreases |moves|
  {
    if moves != [] {
      MoveLowers(m, s, moves[0]);
      RunLowers(m, Step(m, s, moves[0]), moves[1..]);
    }
  }

  lemma {:induction false} AllFresh(n: nat)
    ensures AllLeft(seq(n, _ => Fresh)) == 4 * n
  {
    if n > 0 {
      assert seq(n, _ => Fresh)[1..] == seq(n - 1, _ => Fresh);
      AllFresh(n - 1);
    }
  }

  /** BOUNDED. Whatever arrives, a request makes at most four moves. */
  lemma MovesAreBounded(m: Master, moves: seq<Move>)
    requires IsRun(m, Initial(m), moves)
    ensures OwnMoves(moves) <= 4 * |m.requests|
  {
    RunLowers(m, Initial(m), moves);
    AllFresh(|m.requests|);
  }

  // ---------------------------------------------------------------- what a request returns

  /** The key of a request: a number for one to a single unit over TCP, and otherwise none. */
  lemma KeysAre(m: Master, moves: seq<Move>, i: nat)
    requires IsRun(m, Initial(m), moves) && i < |m.requests|
    requires SessionRuns.Live(After(m, Initial(m), moves).phases[i])
    ensures var p := After(m, Initial(m), moves).phases[i];
      p.key == if m.tcp && !m.requests[i].broadcast then Tid(1 + p.number % 65535) else Fifo
  {
    InitialInv(m);
    RunKeepsSafe(m, Initial(m), moves);
  }

  function ResultOf(v: Verdict, adu: Adu): Result {
    match v
    case Accept => Returned(adu)
    case Reject(e) => Failed(e)
  }

  lemma SameVerdict(m: Master, i: nat, key: Key, adu: Adu)
    requires i < |m.requests| && KeyOf(adu) == key
    ensures Verdicts(FinalChecks(m, i, key), adu) == Verdicts(m.requests[i].checks, adu)
  {
    if key.Tid? {
      assert FinalChecks(m, i, key)[1..] == m.requests[i].checks;
    }
  }

  /** RETURNED. A frame that arrives with the key of a waiting request whose waiter is armed is what that
      request then returns, if its own checks accept it, and otherwise the error of the first that does not;
      and the others are left alone. */
  lemma ReturnsWhatArrives(m: Master, s: State, i: nat, adu: Adu)
    requires Safe(m, s) && i < |s.phases| && s.phases[i].Waiting? && KeyOf(adu) == s.phases[i].key
    requires s.phases[i].key in s.slots.waiters && s.slots.waiters[s.phases[i].key].owner == i
    ensures var t := Step(m, s, Arrives(adu));
      && Enabled(m, t, Wake(i))
      && Step(m, t, Wake(i)).phases[i] == Done(s.phases[i].key, ResultOf(Verdicts(m.requests[i].checks, adu), adu))
      && forall j :: j != i ==> (j in t.slots.settled <==> j in s.slots.settled)
  {
    SameVerdict(m, i, s.phases[i].key, adu);
  }

  /** An error told to all is what each request still armed then returns. */
  lemma ReturnsTheError(m: Master, s: State, i: nat, e: MasterError)
    requires Safe(m, s) && i < |s.phases| && s.phases[i].Waiting?
    requires s.phases[i].key in s.slots.waiters && s.slots.waiters[s.phases[i].key].owner == i
    ensures var t := Step(m, s, Report(e));
      && t.slots.waiters == map[] && Enabled(m, t, Wake(i))
      && Step(m, t, Wake(i)).phases[i] == Done(s.phases[i].key, Failed(e))
  {
    assert i in Owners(s.slots.waiters);
  }

  /** ENDINGS. However else a request ends, its result says how, its slot is free and the lock is released. */
  lemma Endings(m: Master, s: State, v: Move)
    requires Safe(m, s) && Enabled(m, s, v) && (v.WriteFails? || v.TimesOut? || v.Loses? || v.Written?)
    ensures v.Written? && !m.requests[v.i].broadcast ==> Step(m, s, v).phases[v.i].Waiting?
    ensures !(v.Written? && !m.requests[v.i].broadcast) ==>
      var t := Step(m, s, v);
      && t.phases[v.i] == Done(s.phases[v.i].key,
           if v.WriteFails? then Failed(WriteFailed) else if v.TimesOut? then Failed(Timeout)
           else if v.Loses? then Failed(Cleared) else Sent)
      && (!v.Loses? ==> s.phases[v.i].key !in t.slots.waiters)
      && (!m.concurrent ==> t.lock == None)
  {}

  /** A waiting request may run out of time whenever it waits, and what arrives may arrive at any time. */
  lemma TheWorldIsFree(m: Master, s: State, i: nat, adu: Adu, e: MasterError)
    requires |s.phases| == |m.requests| && i < |s.phases|
    ensures s.phases[i].Waiting? ==> Enabled(m, s, TimesOut(i))
    ensures s.phases[i].Waiting? ==> (Enabled(m, s, Wake(i)) <==> i in s.slots.settled)
    ensures s.phases[i].Armed? ==> Enabled(m, s, WriteFails(i)) && Enabled(m, s, Written(i))
    ensures Enabled(m, s, Arrives(adu)) && Enabled(m, s, Report(e))
  {}

  /** Timely is a state in which no number has been issued 65536 times after that of a request still going. */
  lemma TimelyIff(m: Master, s: State)
    requires |s.phases| == |m.requests|
    ensures Timely(m, s) <==>
      forall i :: 0 <= i < |s.phases| && SessionRuns.Live(s.phases[i]) && m.tcp && !m.requests[i].broadcast ==>
        s.issued - s.phases[i].number < 65536
  {}
}
