/** The per-address locks of the slave: `with_address_lock` as a step relation over any number of
    tasks. One step is one critical section of the lock map's own mutex, one acquire or release of
    an address mutex, one drop of a mutex handle, or one access to the register store. */
module AddressLocks {
  import opened Bytes

  type TaskId = nat
  type LockId = nat

  // ---------------------------------------------------------------- requests

  /** The two operations that run under address locks, with the default store fallbacks: a read
      followed by a write of a new value, and a loop of single writes. */
  datatype Request =
    | Modify(address: u16, update: bv16 -> bv16)
    | WriteMany(address: u16, values: seq<bv16>)

  function Masked(current: bv16, andMask: bv16, orMask: bv16): bv16 {
    (current & andMask) | (orMask & !andMask)
  }

  /** The mask write of function code 22. */
  function MaskWrite(address: u16, andMask: bv16, orMask: bv16): Request {
    Modify(address, current => Masked(current, andMask, orMask))
  }

  /** The number of values is a 16-bit one. */
  ghost predicate InRange(r: Request) {
    r.WriteMany? ==> |r.values| < SPACE
  }

  predicate Touches(r: Request, a: u16) {
    match r
    case Modify(b, _) => a == b
    case WriteMany(b, values) => Offset(a, b) < |values|
  }

  function Span(a: u16, n: nat): (addresses: seq<u16>)
    requires n < SPACE
    ensures forall b :: b in addresses <==> Offset(b, a) < n
    decreases n
  {
    if n == 0 then [] else [a] + Span(Wrap(a + 1), n - 1)
  }

  function Addresses(r: Request): (addresses: seq<u16>)
    requires InRange(r)
    ensures forall a :: a in addresses <==> Touches(r, a)
  {
    match r
    case Modify(a, _) => [a]
    case WriteMany(a, values) => Span(a, |values|)
  }

  ghost predicate Ascending(s: seq<u16>) {
    forall i, j :: 0 <= i < j < |s| ==> s[i] < s[j]
  }

  function Insert(a: u16, s: seq<u16>): (r: seq<u16>)
    requires Ascending(s)
    ensures Ascending(r)
    ensures forall b :: b in r <==> b == a || b in s
    ensures r != [] && r[0] == if s == [] || a < s[0] then a else s[0]
  {
    if s == [] || a < s[0] then [a] + s
    else if a == s[0] then s
    else
      [s[0]] + Insert(a, s[1..])
  }

  /** Sorting without duplicates. */
  function SortDedup(s: seq<u16>): (r: seq<u16>)
    ensures Ascending(r)
    ensures forall b :: b in r <==> b in s
  {
    if s == [] then [] else Insert(s[0], SortDedup(s[1..]))
  }

  // ---------------------------------------------------------------- the state

  datatype Phase =
    | Start
    | Acquiring(guards: nat)
    | Running
    | Releasing(released: nat)
    | Dropping(dropped: nat)
    | Cleaning(cleaned: nat)
    | Done

  datatype Task = Task(request: Request, sorted: seq<u16>, handles: seq<LockId>, phase: Phase,
                       pc: nat, current: bv16)

  /** `locks` is the shared map, `owner` who holds each mutex, `mapHolder` who holds the map's own
      mutex across several steps, and `entered` the tasks in the order they began their work. */
  datatype State = State(tasks: seq<Task>, locks: map<u16, LockId>, nextLock: LockId,
                         owner: map<LockId, TaskId>, mapHolder: Option<TaskId>,
                         registers: map<u16, bv16>, entered: seq<TaskId>)

  function NewTask(r: Request): Task
    requires InRange(r)
  {
    Task(r, SortDedup(Addresses(r)), [], Start, 0, 0)
  }

  ghost predicate Initial(s: State) {
    && (forall i :: 0 <= i < |s.tasks| ==> InRange(s.tasks[i].request) && s.tasks[i] == NewTask(s.tasks[i].request))
    && s.locks == map[] && s.owner == map[] && s.mapHolder == None && s.entered == []
  }

  /** A task still has its clone of the handle for its `k`-th address. */
  predicate Live(t: Task, k: int) {
    0 <= k < |t.sorted| && match t.phase
      case Acquiring(_) => true
      case Running => true
      case Releasing(_) => true
      case Dropping(n) => n <= k
      case _ => false
  }

  /** A task holds the mutex of its `k`-th address. */
  predicate Holds(t: Task, k: int) {
    0 <= k < |t.sorted| && match t.phase
      case Acquiring(n) => k < n
      case Running => true
      case Releasing(n) => n <= k
      case _ => false
  }

  /** A task has cloned the handle of its `k`-th address and not yet cleaned up after it. */
  predicate Owes(t: Task, k: int) {
    0 <= k < |t.sorted| && match t.phase
      case Start => false
      case Cleaning(n) => n <= k
      case Done => false
      case _ => true
  }

  /** How many clones of a lock's handle exist, the map's own included. */
  ghost function StrongCount(s: State, l: LockId): nat {
    1 + |Clones(s, l)|
  }

  ghost function Clones(s: State, l: LockId): set<(int, int)> {
    set i, k | 0 <= i < |s.tasks| && 0 <= k < |s.tasks[i].sorted| && HasClone(s, i, k, l) :: (i, k)
  }

  predicate HasClone(s: State, i: int, k: int, l: LockId) {
    0 <= i < |s.tasks| && Live(s.tasks[i], k) && k < |s.tasks[i].handles| && s.tasks[i].handles[k] == l
  }

  lemma StrongCountIsOne(s: State, l: LockId)
    ensures StrongCount(s, l) == 1 <==> forall i, k :: !HasClone(s, i, k, l)
  {
    if i, k :| HasClone(s, i, k, l) {
      assert (i, k) in Clones(s, l);
    } else {
      assert Clones(s, l) == {};
    }
  }

  // ---------------------------------------------------------------- the register store

  function Read(registers: map<u16, bv16>, a: u16): bv16 {
    if a in registers then registers[a] else 0
  }

  /** Store accesses a request makes when none fails. */
  function Accesses(r: Request): nat {
    match r
    case Modify(_, _) => 2
    case WriteMany(_, values) => |values|
  }

  /** Access number `pc`: the value read so far and the store after it. */
  function Access(r: Request, pc: nat, current: bv16, registers: map<u16, bv16>): (bv16, map<u16, bv16>)
    requires InRange(r) && pc < Accesses(r)
  {
    match r
    case Modify(a, update) =>
      if pc == 0 then (Read(registers, a), registers)
      else (current, registers[a := update(current)])
    case WriteMany(a, values) =>
      (current, registers[Wrap(a + pc) := values[pc]])
  }

  // ---------------------------------------------------------------- steps

  /** Clone, or create and clone, the handle of every address from position `i` on. */
  function CloneFrom(locks: map<u16, LockId>, next: LockId, sorted: seq<u16>, i: nat)
    : (r: (map<u16, LockId>, LockId, seq<LockId>))
    requires i <= |sorted|
    ensures |r.2| == |sorted| - i
    decreases |sorted| - i
  {
    if i == |sorted| then (locks, next, [])
    else
      var a := sorted[i];
      var locks1, next1 := CloneOne(locks, next, a), if a in locks then next else next + 1;
      var rest := CloneFrom(locks1, next1, sorted, i + 1);
      (rest.0, rest.1, [locks1[a]] + rest.2)
  }

  function CloneOne(locks: map<u16, LockId>, next: LockId, a: u16): (r: map<u16, LockId>)
    ensures a in r
  {
    if a in locks then locks else locks[a := next]
  }

  ghost predicate Distinct(locks: map<u16, LockId>, next: LockId) {
    && (forall a :: a in locks ==> locks[a] < next)
    && (forall a, b :: a in locks && b in locks && locks[a] == locks[b] ==> a == b)
  }

  ghost predicate Extends(more: map<u16, LockId>, locks: map<u16, LockId>, next: LockId, sorted: seq<u16>) {
    && (forall a :: a in locks ==> a in more && more[a] == locks[a])
    && (forall a :: a in more ==> a in locks || (next <= more[a] && a in sorted))
  }

  lemma CloneOneDistinct(locks: map<u16, LockId>, next: LockId, a: u16)
    requires Distinct(locks, next)
    ensures Distinct(CloneOne(locks, next, a), if a in locks then next else next + 1)
  {}

  lemma {:induction false} CloneFromDistinct(locks: map<u16, LockId>, next: LockId, sorted: seq<u16>, i: nat)
    requires i <= |sorted| && Distinct(locks, next)
    ensures var r := CloneFrom(locks, next, sorted, i); next <= r.1 && Distinct(r.0, r.1)
    decreases |sorted| - i
  {
    if i < |sorted| {
      CloneOneDistinct(locks, next, sorted[i]);
      CloneFromDistinct(CloneOne(locks, next, sorted[i]),
                        if sorted[i] in locks then next else next + 1, sorted, i + 1);
    }
  }

  /** Cloning keeps every lock already there and adds locks only for the given addresses, never
      reusing an identity. */
  lemma {:induction false} CloneFromExtends(locks: map<u16, LockId>, next: LockId, sorted: seq<u16>, i: nat)
    requires i <= |sorted|
    ensures Extends(CloneFrom(locks, next, sorted, i).0, locks, next, sorted)
    decreases |sorted| - i
  {
    if i < |sorted| {
      CloneFromExtends(CloneOne(locks, next, sorted[i]),
                       if sorted[i] in locks then next else next + 1, sorted, i + 1);
    }
  }

  /** The handle cloned for each address is the lock now in the map. */
  lemma {:induction false} CloneFromHandles(locks: map<u16, LockId>, next: LockId, sorted: seq<u16>, i: nat, k: nat)
    requires i <= k < |sorted|
    ensures var r := CloneFrom(locks, next, sorted, i);
      sorted[k] in r.0 && r.0[sorted[k]] == r.2[k - i]
    decreases |sorted| - i
  {
    var a := sorted[i];
    var locks1, next1 := CloneOne(locks, next, a), if a in locks then next else next + 1;
    CloneFromExtends(locks1, next1, sorted, i + 1);
    if i < k {
      CloneFromHandles(locks1, next1, sorted, i + 1, k);
    }
  }

  ghost predicate WellFormed(t: Task) {
    && InRange(t.request)
    && Ascending(t.sorted)
    && (forall a :: a in t.sorted <==> Touches(t.request, a))
    && (t.phase.Start? || |t.handles| == |t.sorted|)
    && (t.phase.Acquiring? ==> t.phase.guards <= |t.sorted|)
    && (t.phase.Releasing? ==> t.phase.released <= |t.sorted|)
    && (t.phase.Dropping? ==> t.phase.dropped <= |t.sorted|)
    && (t.phase.Cleaning? ==> t.phase.cleaned <= |t.sorted|)
    && t.pc <= Accesses(t.request)
    && (t.phase.Start? || t.phase.Acquiring? ==> t.pc == 0)
  }

  ghost predicate Tasks(s: State) {
    forall i :: 0 <= i < |s.tasks| ==> WellFormed(s.tasks[i])
  }

  /** Whether task `i` can take its next step; `leave` chooses between the next store access and
      leaving the critical section, which is forced when the accesses are used up and is how a
      failing access ends it. */
  ghost predicate Enabled(s: State, i: TaskId, leave: bool) {
    i < |s.tasks| && Tasks(s) &&
    var t := s.tasks[i];
    match t.phase
    case Start => s.mapHolder == None
    case Acquiring(n) => n < |t.sorted| ==> t.handles[n] !in s.owner
    case Running => leave || t.pc < Accesses(t.request)
    case Releasing(_) => true
    case Dropping(n) => n < |t.sorted| || s.mapHolder == None
    case Cleaning(_) => true
    case Done => false
  }

  function SetTask(s: State, i: TaskId, t: Task): State
    requires i < |s.tasks|
  {
    s.(tasks := s.tasks[i := t])
  }

  ghost function Step(s: State, i: TaskId, leave: bool): State
    requires Enabled(s, i, leave)
  {
    var t := s.tasks[i];
    match t.phase
    case Start => StepClone(s, i)
    case Acquiring(n) => if n < |t.sorted| then StepAcquire(s, i) else StepEnter(s, i)
    case Running => if leave then SetTask(s, i, t.(phase := Releasing(0))) else StepAccess(s, i)
    case Releasing(n) =>
      if n < |t.sorted| then StepRelease(s, i) else SetTask(s, i, t.(phase := Dropping(0)))
    case Dropping(n) =>
      if n < |t.sorted| then SetTask(s, i, t.(phase := Dropping(n + 1)))
      else SetTask(s, i, t.(phase := Cleaning(0))).(mapHolder := Some(i))
    case Cleaning(n) =>
      if n < |t.sorted| then StepClean(s, i)
      else SetTask(s, i, t.(phase := Done)).(mapHolder := None)
  }

  ghost function StepClone(s: State, i: TaskId): State
    requires i < |s.tasks| && Tasks(s)
  {
    var t := s.tasks[i];
    var c := CloneFrom(s.locks, s.nextLock, t.sorted, 0);
    SetTask(s, i, t.(handles := c.2, phase := Acquiring(0))).(locks := c.0, nextLock := c.1)
  }

  ghost function StepAcquire(s: State, i: TaskId): State
    requires i < |s.tasks| && Tasks(s)
    requires s.tasks[i].phase.Acquiring? && s.tasks[i].phase.guards < |s.tasks[i].sorted|
  {
    var t := s.tasks[i];
    var n := t.phase.guards;
    SetTask(s, i, t.(phase := Acquiring(n + 1))).(owner := s.owner[t.handles[n] := i])
  }

  ghost function StepEnter(s: State, i: TaskId): State
    requires i < |s.tasks|
  {
    SetTask(s, i, s.tasks[i].(phase := Running)).(entered := s.entered + [i])
  }

  ghost function StepAccess(s: State, i: TaskId): State
    requires i < |s.tasks| && Tasks(s) && s.tasks[i].pc < Accesses(s.tasks[i].request)
  {
    var t := s.tasks[i];
    var (current, registers) := Access(t.request, t.pc, t.current, s.registers);
    SetTask(s, i, t.(pc := t.pc + 1, current := current)).(registers := registers)
  }

  ghost function StepRelease(s: State, i: TaskId): State
    requires i < |s.tasks| && Tasks(s)
    requires s.tasks[i].phase.Releasing? && s.tasks[i].phase.released < |s.tasks[i].sorted|
  {
    var t := s.tasks[i];
    var n := t.phase.released;
    SetTask(s, i, t.(phase := Releasing(n + 1))).(owner := s.owner - {t.handles[n]})
  }

  /** Forget the lock of an address, the map's mutex held, if this is the only clone of its handle. */
  function ForgetOne(locks: map<u16, LockId>, a: u16, count: nat): map<u16, LockId> {
    if a in locks && count == 1 then locks - {a} else locks
  }

  /** Address after address, with the counts found when it was the turn of each. */
  function Forgotten(locks: map<u16, LockId>, addresses: seq<u16>, counts: seq<nat>): map<u16, LockId>
    requires |counts| == |addresses|
    decreases |addresses|
  {
    if addresses == [] then locks
    else Forgotten(ForgetOne(locks, addresses[0], counts[0]), addresses[1..], counts[1..])
  }

  lemma {:induction false} ForgottenThen(locks: map<u16, LockId>, addresses: seq<u16>, counts: seq<nat>, a: u16, n: nat)
    requires |counts| == |addresses|
    ensures Forgotten(locks, addresses + [a], counts + [n]) == ForgetOne(Forgotten(locks, addresses, counts), a, n)
    decreases |addresses|
  {
    var more, ns := addresses + [a], counts + [n];
    if addresses == [] {
      assert more[1..] == [] && ns[1..] == [];
    } else {
      assert more[1..] == addresses[1..] + [a] && ns[1..] == counts[1..] + [n];
      ForgottenThen(ForgetOne(locks, addresses[0], counts[0]), addresses[1..], counts[1..], a, n);
    }
  }

  /** How many clones there are of the handle of an address. */
  ghost function CountOf(s: State, a: u16): nat { if a in s.locks then StrongCount(s, s.locks[a]) else 0 }

  /** Cleanup of one address. */
  ghost function StepClean(s: State, i: TaskId): State
    requires i < |s.tasks| && Tasks(s)
    requires s.tasks[i].phase.Cleaning? && s.tasks[i].phase.cleaned < |s.tasks[i].sorted|
  {
    var t := s.tasks[i];
    var a := t.sorted[t.phase.cleaned];
    SetTask(s, i, t.(phase := Cleaning(t.phase.cleaned + 1))).(locks := ForgetOne(s.locks, a, CountOf(s, a)))
  }

  // ---------------------------------------------------------------- the critical sections

  /** The shared lock map of the slave and its two critical sections. */
  class LockTable {
    var locks: map<u16, LockId>
    var nextLock: LockId

    constructor ()
      ensures locks == map[] && nextLock == 0
    {
      locks, nextLock := map[], 0;
    }

    method CloneHandles(sorted: seq<u16>) returns (handles: seq<LockId>)
      modifies this
      ensures var c := CloneFrom(old(locks), old(nextLock), sorted, 0);
        locks == c.0 && nextLock == c.1 && handles == c.2
    {
      handles := [];
      var i := 0;
      while i < |sorted|
        invariant 0 <= i <= |sorted|
        invariant var rest, c := CloneFrom(locks, nextLock, sorted, i), CloneFrom(old(locks), old(nextLock), sorted, 0);
          c.0 == rest.0 && c.1 == rest.1 && c.2 == handles + rest.2
      {
        ghost var rest := CloneFrom(locks, nextLock, sorted, i);
        if sorted[i] !in locks {
          locks, nextLock := locks[sorted[i] := nextLock], nextLock + 1;
        }
        assert rest.2 == [locks[sorted[i]]] + CloneFrom(locks, nextLock, sorted, i + 1).2;
        handles := handles + [locks[sorted[i]]];
        i := i + 1;
      }
    }

    /** The cleanup loop; `counts` are the numbers of clones it finds, which other tasks lower meanwhile. */
    method Forget(sorted: seq<u16>, counts: seq<nat>)
      requires |counts| == |sorted|
      modifies this`locks
      ensures locks == Forgotten(old(locks), sorted, counts)
    {
      var i := 0;
      while i < |sorted|
        invariant 0 <= i <= |sorted|
        invariant locks == Forgotten(old(locks), sorted[..i], counts[..i])
      {
        ForgottenThen(old(locks), sorted[..i], counts[..i], sorted[i], counts[i]);
        assert sorted[..i + 1] == sorted[..i] + [sorted[i]] && counts[..i + 1] == counts[..i] + [counts[i]];
        if sorted[i] in locks && counts[i] == 1 {
          locks := locks - {sorted[i]};
        }
        i := i + 1;
      }
      assert sorted[..i] == sorted && counts[..i] == counts;
    }
  }
}
