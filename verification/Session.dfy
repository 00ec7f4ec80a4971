/** The master's slots for awaited responses, its transaction numbers, and the checks a response goes
    through. */
module Session {
  import opened Bytes
  import opened Adus

  // ---------------------------------------------------------------- checks

  datatype MasterError = Framing(error: FramingError) | InvalidResponse | Timeout | WriteFailed | Closed | Cleared

  datatype Outcome = Pass | NeedLength(n: nat) | Fail(error: MasterError) | NotEnough

  type PreCheck = Adu -> Outcome

  datatype Verdict = Accept | Reject(error: MasterError)

  /** What one check says of a unit; a required length is exact. */
  function Judge(check: PreCheck, adu: Adu): Verdict {
    match check(adu)
    case Pass => Accept
    case NeedLength(n) =>
      if |adu.data| < n then Reject(Framing(InsufficientData))
      else if |adu.data| != n then Reject(InvalidResponse)
      else Accept
    case Fail(e) => Reject(e)
    case NotEnough => Reject(Framing(InsufficientData))
  }

  function Verdicts(checks: seq<PreCheck>, adu: Adu): Verdict {
    if checks == [] then Accept
    else if Judge(checks[0], adu).Reject? then Judge(checks[0], adu)
    else Verdicts(checks[1..], adu)
  }

  /** A unit is accepted if and only if every check accepts it; otherwise the first that does not
      decides the error. */
  method RunPreChecks(checks: seq<PreCheck>, adu: Adu) returns (v: Verdict)
    ensures v == Verdicts(checks, adu)
    ensures v.Accept? <==> forall i :: 0 <= i < |checks| ==> Judge(checks[i], adu) == Accept
    ensures v.Reject? ==> exists i :: 0 <= i < |checks| && Judge(checks[i], adu) == v
                                   && forall j :: 0 <= j < i ==> Judge(checks[j], adu) == Accept
  {
    for i := 0 to |checks|
      invariant Verdicts(checks, adu) == Verdicts(checks[i..], adu)
      invariant forall j :: 0 <= j < i ==> Judge(checks[j], adu) == Accept
    {
      var judged := Judge(checks[i], adu);
      assert checks[i..][1..] == checks[i + 1..];
      if judged.Reject? {
        return judged;
      }
    }
    return Accept;
  }

  lemma {:induction false} AcceptedByAll(checks: seq<PreCheck>, adu: Adu)
    ensures Verdicts(checks, adu) == Accept <==> forall i :: 0 <= i < |checks| ==> Judge(checks[i], adu) == Accept
  {
    if checks != [] {
      AcceptedByAll(checks[1..], adu);
      if Verdicts(checks, adu) == Accept {
        forall i | 0 <= i < |checks| ensures Judge(checks[i], adu) == Accept {
          if i > 0 {
            assert checks[i] == checks[1..][i - 1];
          }
        }
      }
    }
  }

  function CheckUnitFc(unit: byte, fc: byte): PreCheck {
    (adu: Adu) => if adu.unit == unit && adu.fc == fc then Pass else Fail(InvalidResponse)
  }

  function CheckLength(expected: nat): PreCheck { (adu: Adu) => NeedLength(expected) }

  function CheckByteCount(expected: nat): PreCheck {
    (adu: Adu) => if adu.data != [] && adu.data[0] as nat == expected then Pass else Fail(InvalidResponse)
  }

  function CheckEcho(expected: seq<byte>): PreCheck {
    (adu: Adu) => if adu.data == expected then Pass else Fail(InvalidResponse)
  }

  function CheckTransaction(tid: u16): PreCheck {
    (adu: Adu) => if adu.transaction == Some(tid) then Pass else Fail(InvalidResponse)
  }

  // ---------------------------------------------------------------- the session

  /** Responses with a transaction are routed by it, the others share one slot. */
  datatype Key = Tid(tid: u16) | Fifo

  function KeyOf(adu: Adu): Key {
    match adu.transaction
    case Some(tid) => Tid(tid)
    case None => Fifo
  }

  /** A waiter: the request whose receiver it holds the other end of, and its checks. */
  datatype Waiter = Waiter(owner: nat, checks: seq<PreCheck>)

  datatype Settlement = Resolved(adu: Adu) | Rejected(error: MasterError)

  /** The armed waiters, and what has been sent to the receivers of the requests. */
  datatype Slots = Slots(waiters: map<Key, Waiter>, settled: map<nat, Settlement>)

  function Started(s: Slots, key: Key, w: Waiter): Slots { s.(waiters := s.waiters[key := w]) }

  function Stopped(s: Slots, key: Key): Slots { s.(waiters := s.waiters - {key}) }

  function Owners(waiters: map<Key, Waiter>): set<nat> { set k | k in waiters :: waiters[k].owner }

  function Told(settled: map<nat, Settlement>, owners: set<nat>, e: MasterError): map<nat, Settlement> {
    settled + map o | o in owners :: Rejected(e)
  }

  function AllStopped(s: Slots, e: MasterError): Slots { Slots(map[], Told(s.settled, Owners(s.waiters), e)) }

  lemma OneWaiterLess(waiters: map<Key, Waiter>, key: Key)
    requires key in waiters
    ensures Owners(waiters) == Owners(waiters - {key}) + {waiters[key].owner}
  {
    forall o | o in Owners(waiters) && o != waiters[key].owner ensures o in Owners(waiters - {key}) {
      var k :| k in waiters && waiters[k].owner == o;
      assert k in waiters - {key};
    }
  }

  lemma TellOne(settled: map<nat, Settlement>, waiters: map<Key, Waiter>, key: Key, e: MasterError)
    requires key in waiters
    ensures Told(settled[waiters[key].owner := Rejected(e)], Owners(waiters - {key}), e)
         == Told(settled, Owners(waiters), e)
  {
    OneWaiterLess(waiters, key);
  }

  lemma TellNone(settled: map<nat, Settlement>, waiters: map<Key, Waiter>, e: MasterError)
    requires waiters.Keys == {}
    ensures Told(settled, Owners(waiters), e) == settled
  {
    assert Owners(waiters) == {};
  }

  lemma KeyRemoved(waiters: map<Key, Waiter>, key: Key)
    requires key in waiters
    ensures |(waiters - {key}).Keys| < |waiters.Keys|
  {
    assert (waiters - {key}).Keys == waiters.Keys - {key};
  }

  function Answer(v: Verdict, adu: Adu): Settlement {
    match v
    case Accept => Resolved(adu)
    case Reject(e) => Rejected(e)
  }

  function Handled(s: Slots, adu: Adu): Slots {
    var key := KeyOf(adu);
    if key !in s.waiters then s
    else
      var w := s.waiters[key];
      Slots(s.waiters - {key}, s.settled[w.owner := Answer(Verdicts(w.checks, adu), adu)])
  }

  class MasterSession {
    var waiters: map<Key, Waiter>
    var settled: map<nat, Settlement>

    constructor ()
      ensures waiters == map[] && settled == map[]
    {
      waiters, settled := map[], map[];
    }

    method Start(key: Key, owner: nat, checks: seq<PreCheck>)
      modifies this
      ensures Slots(waiters, settled) == Started(old(Slots(waiters, settled)), key, Waiter(owner, checks))
    {
      waiters := waiters[key := Waiter(owner, checks)];
    }

    method Stop(key: Key)
      modifies this
      ensures Slots(waiters, settled) == Stopped(old(Slots(waiters, settled)), key)
    {
      waiters := waiters - {key};
    }

    /** Drain the waiters, then tell each. */
    method StopAll(e: MasterError)
      modifies this
      ensures Slots(waiters, settled) == AllStopped(old(Slots(waiters, settled)), e)
    {
      var drained := waiters;
      waiters := map[];
      ghost var all := Told(settled, Owners(drained), e);
      while drained.Keys != {}
        invariant waiters == map[] && Told(settled, Owners(drained), e) == all
        decreases |drained.Keys|
      {
        var key :| key in drained.Keys;
        var w := drained[key];
        TellOne(settled, drained, key, e);
        KeyRemoved(drained, key);
        drained := drained - {key};
        settled := settled[w.owner := Rejected(e)];
      }
      TellNone(settled, drained, e);
    }

    method HandleFrame(adu: Adu)
      modifies this
      ensures Slots(waiters, settled) == Handled(old(Slots(waiters, settled)), adu)
    {
      var key := KeyOf(adu);
      if key in waiters {
        var state := waiters[key];
        waiters := waiters - {key};
        var v := RunPreChecks(state.checks, adu);
        settled := settled[state.owner := Answer(v, adu)];
      }
    }
  }

  // ---------------------------------------------------------------- transaction numbers

  const LAST_TID: u16 := 65535

  function NextTid(t: u16): u16 { if t == LAST_TID then 1 else t + 1 }

  /** The number given to the `n`th allocation, counting from 0. */
  function TidOf(n: nat): (t: u16)
    ensures t != 0
  {
    1 + n % 65535
  }

  lemma TidsCycle(n: nat)
    ensures TidOf(0) == 1 && NextTid(TidOf(n)) == TidOf(n + 1)
  {}

  /** Two allocations give the same number exactly if they are a multiple of 65535 apart. */
  lemma TidsDistinct(n: nat, m: nat)
    requires n <= m
    ensures TidOf(n) == TidOf(m) <==> (m - n) % 65535 == 0
  {
    assert m == n + (m - n);
  }

  class TidAllocator {
    var nextTid: u16
    ghost var issued: nat

    constructor ()
      ensures issued == 0 && nextTid == TidOf(0)
    {
      nextTid, issued := 1, 0;
    }

    method AllocateTid() returns (tid: u16)
      requires nextTid == TidOf(issued)
      modifies this
      ensures tid == TidOf(old(issued)) && issued == old(issued) + 1 && nextTid == TidOf(issued)
    {
      tid := nextTid;
      TidsCycle(issued);
      nextTid := NextTid(nextTid);
      issued := issued + 1;
    }
  }
}
