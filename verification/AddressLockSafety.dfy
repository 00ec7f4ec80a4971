/** Safety of the address locks over every run: mutual exclusion, whatever locks are discarded and
    recreated; reclamation of the lock map; freedom from deadlock; termination. */
module AddressLockSafety {
  import opened Bytes
  import opened AddressLocks

  // ---------------------------------------------------------------- the invariant

  /** The lock that a task cloned for its `k`-th address is still the one in the map. */
  predicate IsCurrent(s: State, t: Task, k: int) {
    0 <= k < |t.sorted| && k < |t.handles| && t.sorted[k] in s.locks && s.locks[t.sorted[k]] == t.handles[k]
  }

  ghost predicate HandlesCurrent(s: State) {
    forall i, k :: 0 <= i < |s.tasks| && Live(s.tasks[i], k) ==> IsCurrent(s, s.tasks[i], k)
  }

  predicate IsOwner(s: State, i: TaskId, t: Task, k: int) {
    0 <= k < |t.handles| && t.handles[k] in s.owner && s.owner[t.handles[k]] == i
  }

  ghost predicate GuardsOwned(s: State) {
    forall i, k :: 0 <= i < |s.tasks| && Holds(s.tasks[i], k) ==> IsOwner(s, i, s.tasks[i], k)
  }

  predicate Guards(t: Task, k: int, l: LockId) {
    Holds(t, k) && k < |t.handles| && t.handles[k] == l
  }

  ghost predicate OwnersGuard(s: State) {
    forall l :: l in s.owner ==> s.owner[l] < |s.tasks| && exists k :: Guards(s.tasks[s.owner[l]], k, l)
  }

  ghost predicate MapHolderCleans(s: State) {
    && (s.mapHolder.Some? ==> s.mapHolder.value < |s.tasks|)
    && forall i :: 0 <= i < |s.tasks| ==> (s.tasks[i].phase.Cleaning? <==> s.mapHolder == Some(i))
  }

  predicate OwesAddress(t: Task, k: int, a: u16) { Owes(t, k) && t.sorted[k] == a }

  ghost predicate Owed(s: State, a: u16) {
    exists i, k :: 0 <= i < |s.tasks| && OwesAddress(s.tasks[i], k, a)
  }

  ghost predicate Reclaimable(s: State) { forall a :: a in s.locks ==> Owed(s, a) }

  ghost predicate Inv(s: State) {
    && Tasks(s) && Distinct(s.locks, s.nextLock) && HandlesCurrent(s) && GuardsOwned(s)
    && OwnersGuard(s) && MapHolderCleans(s) && Reclaimable(s)
  }

  lemma InitialInv(s: State)
    requires Initial(s)
    ensures Inv(s)
  {}

  // ---------------------------------------------------------------- each step keeps it

  /** Only task `i` changed, and neither its addresses nor its handles did. */
  ghost predicate OnlyTask(s: State, i: TaskId, s': State) {
    && i < |s.tasks| && |s'.tasks| == |s.tasks|
    && (forall j :: 0 <= j < |s.tasks| && j != i ==> s'.tasks[j] == s.tasks[j])
    && s'.tasks[i].sorted == s.tasks[i].sorted
    && s'.tasks[i].handles == s.tasks[i].handles
  }

  lemma TasksKept(s: State, i: TaskId, s': State)
    requires Tasks(s) && MapHolderCleans(s) && OnlyTask(s, i, s') && WellFormed(s'.tasks[i])
    requires s'.mapHolder == s.mapHolder && (s'.tasks[i].phase.Cleaning? <==> s.tasks[i].phase.Cleaning?)
    ensures Tasks(s') && MapHolderCleans(s')
  {}

  lemma HandlesKept(s: State, i: TaskId, s': State)
    requires HandlesCurrent(s) && OnlyTask(s, i, s') && s'.locks == s.locks
    requires forall k :: Live(s'.tasks[i], k) ==> Live(s.tasks[i], k)
    ensures HandlesCurrent(s')
  {
    forall j, k | 0 <= j < |s'.tasks| && Live(s'.tasks[j], k) ensures IsCurrent(s', s'.tasks[j], k) {
      assert IsCurrent(s, s.tasks[j], k);
    }
  }

  lemma OwedKept(s: State, i: TaskId, s': State)
    requires Reclaimable(s) && OnlyTask(s, i, s') && s'.locks == s.locks
    requires forall k :: Owes(s.tasks[i], k) ==> Owes(s'.tasks[i], k)
    ensures Reclaimable(s')
  {
    forall a | a in s'.locks ensures Owed(s', a) {
      var j, k :| 0 <= j < |s.tasks| && OwesAddress(s.tasks[j], k, a);
      assert OwesAddress(s'.tasks[j], k, a);
    }
  }

  lemma OwnersKept(s: State, i: TaskId, s': State)
    requires OwnersGuard(s) && OnlyTask(s, i, s')
    requires forall l :: l in s'.owner ==> l in s.owner && s'.owner[l] == s.owner[l]
    requires forall k, l :: l in s'.owner && Guards(s.tasks[i], k, l) ==> Guards(s'.tasks[i], k, l)
    ensures OwnersGuard(s')
  {
    forall l | l in s'.owner ensures s'.owner[l] < |s'.tasks| && exists k :: Guards(s'.tasks[s'.owner[l]], k, l) {
      var k :| Guards(s.tasks[s.owner[l]], k, l);
      assert Guards(s'.tasks[s'.owner[l]], k, l);
    }
  }

  lemma GuardsKept(s: State, i: TaskId, s': State)
    requires GuardsOwned(s) && OnlyTask(s, i, s')
    requires forall l :: l in s.owner ==> l in s'.owner && s'.owner[l] == s.owner[l]
    requires forall k :: Holds(s'.tasks[i], k) ==> Holds(s.tasks[i], k) || IsOwner(s', i, s'.tasks[i], k)
    ensures GuardsOwned(s')
  {
    forall j, k | 0 <= j < |s'.tasks| && Holds(s'.tasks[j], k) ensures IsOwner(s', j, s'.tasks[j], k) {
      if j != i || Holds(s.tasks[i], k) {
        assert IsOwner(s, j, s.tasks[j], k);
      }
    }
  }

  /** A step that moves one task to a phase with the same guards and debts and no new clones. */
  lemma QuietKeepsInv(s: State, i: TaskId, s': State)
    requires Inv(s) && OnlyTask(s, i, s') && MapHolderCleans(s') && WellFormed(s'.tasks[i])
    requires s'.locks == s.locks && s'.nextLock == s.nextLock && s'.owner == s.owner
    requires forall k :: Live(s'.tasks[i], k) ==> Live(s.tasks[i], k)
    requires forall k :: Holds(s'.tasks[i], k) <==> Holds(s.tasks[i], k)
    requires forall k :: Owes(s'.tasks[i], k) <==> Owes(s.tasks[i], k)
    ensures Inv(s')
  {
    HandlesKept(s, i, s');
    OwedKept(s, i, s');
    OwnersKept(s, i, s');
    GuardsKept(s, i, s');
  }

  // ---- cloning the handles

  lemma CloneKeepsHandles(s: State, i: TaskId)
    requires Tasks(s) && Distinct(s.locks, s.nextLock) && HandlesCurrent(s)
    requires i < |s.tasks| && s.tasks[i].phase.Start?
    ensures HandlesCurrent(StepClone(s, i))
  {
    var s', t := StepClone(s, i), s.tasks[i];
    CloneFromExtends(s.locks, s.nextLock, t.sorted, 0);
    forall j, k | 0 <= j < |s'.tasks| && Live(s'.tasks[j], k) ensures IsCurrent(s', s'.tasks[j], k) {
      if j == i {
        CloneFromHandles(s.locks, s.nextLock, t.sorted, 0, k);
      } else {
        assert IsCurrent(s, s.tasks[j], k);
      }
    }
  }

  lemma CloneKeepsReclaimable(s: State, i: TaskId)
    requires Tasks(s) && Reclaimable(s) && i < |s.tasks| && s.tasks[i].phase.Start?
    ensures Reclaimable(StepClone(s, i))
  {
    var s', t := StepClone(s, i), s.tasks[i];
    CloneFromExtends(s.locks, s.nextLock, t.sorted, 0);
    forall a | a in s'.locks ensures Owed(s', a) {
      if a in s.locks {
        var j, k :| 0 <= j < |s.tasks| && OwesAddress(s.tasks[j], k, a);
        assert OwesAddress(s'.tasks[j], k, a);
      } else {
        var k :| 0 <= k < |t.sorted| && t.sorted[k] == a;
        assert OwesAddress(s'.tasks[i], k, a);
      }
    }
  }

  lemma CloneKeepsOwners(s: State, i: TaskId)
    requires Tasks(s) && GuardsOwned(s) && OwnersGuard(s) && i < |s.tasks| && s.tasks[i].phase.Start?
    ensures GuardsOwned(StepClone(s, i)) && OwnersGuard(StepClone(s, i))
  {
    var s' := StepClone(s, i);
    forall j, k | 0 <= j < |s'.tasks| && Holds(s'.tasks[j], k) ensures IsOwner(s', j, s'.tasks[j], k) {
      assert IsOwner(s, j, s.tasks[j], k);
    }
    forall l | l in s'.owner ensures s'.owner[l] < |s'.tasks| && exists k :: Guards(s'.tasks[s'.owner[l]], k, l) {
      var k :| Guards(s.tasks[s.owner[l]], k, l);
      assert Guards(s'.tasks[s'.owner[l]], k, l);
    }
  }

  lemma CloneKeepsInv(s: State, i: TaskId)
    requires Inv(s) && Enabled(s, i, false) && s.tasks[i].phase.Start?
    ensures Inv(StepClone(s, i))
  {
    CloneFromDistinct(s.locks, s.nextLock, s.tasks[i].sorted, 0);
    CloneKeepsHandles(s, i);
    CloneKeepsReclaimable(s, i);
    CloneKeepsOwners(s, i);
  }

  // ---- taking and giving back a mutex

  /** Two handles of one lock are for one address, so one task has a lock at most once. */
  lemma OneHandlePerLock(s: State, i: TaskId, j: nat, k: nat)
    requires Tasks(s) && Distinct(s.locks, s.nextLock) && HandlesCurrent(s) && i < |s.tasks|
    requires Live(s.tasks[i], j) && Live(s.tasks[i], k) && s.tasks[i].handles[j] == s.tasks[i].handles[k]
    ensures j == k
  {
    assert IsCurrent(s, s.tasks[i], j) && IsCurrent(s, s.tasks[i], k);
  }

  lemma AcquireKeepsOwners(s: State, i: TaskId)
    requires Tasks(s) && GuardsOwned(s) && OwnersGuard(s) && i < |s.tasks|
    requires s.tasks[i].phase.Acquiring? && s.tasks[i].phase.guards < |s.tasks[i].sorted|
    requires s.tasks[i].handles[s.tasks[i].phase.guards] !in s.owner
    ensures GuardsOwned(StepAcquire(s, i)) && OwnersGuard(StepAcquire(s, i))
  {
    var s', t := StepAcquire(s, i), s.tasks[i];
    var n := t.phase.guards;
    GuardsKept(s, i, s');
    forall l | l in s'.owner ensures s'.owner[l] < |s'.tasks| && exists k :: Guards(s'.tasks[s'.owner[l]], k, l) {
      if l == t.handles[n] {
        assert Guards(s'.tasks[i], n, l);
      } else {
        var k :| Guards(s.tasks[s.owner[l]], k, l);
        assert Guards(s'.tasks[s'.owner[l]], k, l);
      }
    }
  }

  lemma AcquireKeepsInv(s: State, i: TaskId)
    requires Inv(s) && Enabled(s, i, false)
    requires s.tasks[i].phase.Acquiring? && s.tasks[i].phase.guards < |s.tasks[i].sorted|
    ensures Inv(StepAcquire(s, i))
  {
    TasksKept(s, i, StepAcquire(s, i));
    AcquireKeepsOwners(s, i);
    HandlesKept(s, i, StepAcquire(s, i));
    OwedKept(s, i, StepAcquire(s, i));
  }

  lemma ReleaseKeepsGuards(s: State, i: TaskId)
    requires Tasks(s) && Distinct(s.locks, s.nextLock) && HandlesCurrent(s) && GuardsOwned(s) && i < |s.tasks|
    requires s.tasks[i].phase.Releasing? && s.tasks[i].phase.released < |s.tasks[i].sorted|
    ensures GuardsOwned(StepRelease(s, i))
  {
    var s', n := StepRelease(s, i), s.tasks[i].phase.released;
    assert Holds(s.tasks[i], n) && IsOwner(s, i, s.tasks[i], n);
    forall j, k | 0 <= j < |s'.tasks| && Holds(s'.tasks[j], k) ensures IsOwner(s', j, s'.tasks[j], k) {
      assert Holds(s.tasks[j], k) && IsOwner(s, j, s.tasks[j], k);
      if s.tasks[j].handles[k] == s.tasks[i].handles[n] {
        OneHandlePerLock(s, i, n, k);
      }
    }
  }

  lemma ReleaseKeepsOwners(s: State, i: TaskId)
    requires Tasks(s) && OwnersGuard(s) && i < |s.tasks|
    requires s.tasks[i].phase.Releasing? && s.tasks[i].phase.released < |s.tasks[i].sorted|
    ensures OwnersGuard(StepRelease(s, i))
  {
    OwnersKept(s, i, StepRelease(s, i));
  }

  lemma ReleaseKeepsInv(s: State, i: TaskId)
    requires Inv(s) && Enabled(s, i, false)
    requires s.tasks[i].phase.Releasing? && s.tasks[i].phase.released < |s.tasks[i].sorted|
    ensures Inv(StepRelease(s, i))
  {
    TasksKept(s, i, StepRelease(s, i));
    ReleaseKeepsGuards(s, i);
    ReleaseKeepsOwners(s, i);
    HandlesKept(s, i, StepRelease(s, i));
    OwedKept(s, i, StepRelease(s, i));
  }

  // ---- cleaning up

  /** If the lock survives the cleanup then another clone keeps its count up, and that clone's
      task still owes a cleanup. */
  lemma CleanKeepsReclaimable(s: State, i: TaskId)
    requires Tasks(s) && Distinct(s.locks, s.nextLock) && HandlesCurrent(s) && Reclaimable(s) && i < |s.tasks|
    requires s.tasks[i].phase.Cleaning? && s.tasks[i].phase.cleaned < |s.tasks[i].sorted|
    ensures Reclaimable(StepClean(s, i))
  {
    var s', a := StepClean(s, i), s.tasks[i].sorted[s.tasks[i].phase.cleaned];
    forall b | b in s'.locks ensures Owed(s', b) {
      var j, k :| 0 <= j < |s.tasks| && OwesAddress(s.tasks[j], k, b);
      if j != i || b != a {
        assert OwesAddress(s'.tasks[j], k, b);
      } else {
        StrongCountIsOne(s, s.locks[a]);
        var j', k' :| HasClone(s, j', k', s.locks[a]);
        SameAddress(s, j', k', a);
        assert OwesAddress(s'.tasks[j'], k', a);
      }
    }
  }

  /** A clone of the lock of an address is a clone made for that address. */
  lemma SameAddress(s: State, i: int, k: int, a: u16)
    requires Tasks(s) && HandlesCurrent(s) && Distinct(s.locks, s.nextLock)
    requires a in s.locks && HasClone(s, i, k, s.locks[a])
    ensures s.tasks[i].sorted[k] == a
  {
    assert IsCurrent(s, s.tasks[i], k);
  }

  lemma CleanKeepsHandles(s: State, i: TaskId)
    requires Tasks(s) && HandlesCurrent(s) && i < |s.tasks|
    requires s.tasks[i].phase.Cleaning? && s.tasks[i].phase.cleaned < |s.tasks[i].sorted|
    ensures HandlesCurrent(StepClean(s, i))
  {
    var s', a := StepClean(s, i), s.tasks[i].sorted[s.tasks[i].phase.cleaned];
    forall j, k | 0 <= j < |s'.tasks| && Live(s'.tasks[j], k) ensures IsCurrent(s', s'.tasks[j], k) {
      assert IsCurrent(s, s.tasks[j], k);
      if s.tasks[j].sorted[k] == a {
        assert HasClone(s, j, k, s.locks[a]);
        StrongCountIsOne(s, s.locks[a]);
      }
    }
  }

  lemma CleanKeepsInv(s: State, i: TaskId)
    requires Inv(s) && Enabled(s, i, false)
    requires s.tasks[i].phase.Cleaning? && s.tasks[i].phase.cleaned < |s.tasks[i].sorted|
    ensures Inv(StepClean(s, i))
  {
    TasksKept(s, i, StepClean(s, i));
    CleanKeepsReclaimable(s, i);
    CleanKeepsHandles(s, i);
    OwnersKept(s, i, StepClean(s, i));
    GuardsKept(s, i, StepClean(s, i));
  }

  // ---- the other steps

  lemma EnterKeepsInv(s: State, i: TaskId)
    requires Inv(s) && Enabled(s, i, false)
    requires s.tasks[i].phase.Acquiring? && s.tasks[i].phase.guards == |s.tasks[i].sorted|
    ensures Inv(StepEnter(s, i))
  {
    TasksKept(s, i, StepEnter(s, i));
    QuietKeepsInv(s, i, StepEnter(s, i));
  }

  lemma RunningKeepsInv(s: State, i: TaskId, leave: bool)
    requires Inv(s) && Enabled(s, i, leave) && s.tasks[i].phase.Running?
    ensures Inv(Step(s, i, leave))
  {
    TasksKept(s, i, Step(s, i, leave));
    QuietKeepsInv(s, i, Step(s, i, leave));
  }

  lemma DropKeepsInv(s: State, i: TaskId)
    requires Inv(s) && Enabled(s, i, false)
    requires (s.tasks[i].phase.Dropping? && s.tasks[i].phase.dropped < |s.tasks[i].sorted|)
          || (s.tasks[i].phase.Releasing? && s.tasks[i].phase.released == |s.tasks[i].sorted|)
    ensures Inv(Step(s, i, false))
  {
    TasksKept(s, i, Step(s, i, false));
    QuietKeepsInv(s, i, Step(s, i, false));
  }

  lemma BeginCleanKeepsInv(s: State, i: TaskId)
    requires Inv(s) && Enabled(s, i, false)
    requires s.tasks[i].phase.Dropping? && s.tasks[i].phase.dropped == |s.tasks[i].sorted|
    ensures Inv(Step(s, i, false))
  {
    QuietKeepsInv(s, i, Step(s, i, false));
  }

  lemma FinishKeepsInv(s: State, i: TaskId)
    requires Inv(s) && Enabled(s, i, false)
    requires s.tasks[i].phase.Cleaning? && s.tasks[i].phase.cleaned == |s.tasks[i].sorted|
    ensures Inv(Step(s, i, false))
  {
    QuietKeepsInv(s, i, Step(s, i, false));
  }

  /** Every step keeps the invariant. */
  lemma StepKeepsInv(s: State, i: TaskId, leave: bool)
    requires Inv(s) && Enabled(s, i, leave)
    ensures Inv(Step(s, i, leave))
  {
    match s.tasks[i].phase
    case Start => CloneKeepsInv(s, i);
    case Acquiring(n) => if n < |s.tasks[i].sorted| { AcquireKeepsInv(s, i); } else { EnterKeepsInv(s, i); }
    case Running => RunningKeepsInv(s, i, leave);
    case Releasing(n) => if n < |s.tasks[i].sorted| { ReleaseKeepsInv(s, i); } else { DropKeepsInv(s, i); }
    case Dropping(n) => if n < |s.tasks[i].sorted| { DropKeepsInv(s, i); } else { BeginCleanKeepsInv(s, i); }
    case Cleaning(n) => if n < |s.tasks[i].sorted| { CleanKeepsInv(s, i); } else { FinishKeepsInv(s, i); }
  }

  // ---------------------------------------------------------------- runs

  /** A run: which task steps, and whether a running one leaves. */
  type Run = seq<(TaskId, bool)>

  ghost predicate IsRun(s: State, run: Run)
    decreases |run|
  {
    run == [] || (Enabled(s, run[0].0, run[0].1) && IsRun(Step(s, run[0].0, run[0].1), run[1..]))
  }

  ghost function After(s: State, run: Run): State
    requires IsRun(s, run)
    decreases |run|
  {
    if run == [] then s else After(Step(s, run[0].0, run[0].1), run[1..])
  }

  lemma {:induction false} RunKeepsInv(s: State, run: Run)
    requires Inv(s) && IsRun(s, run)
    ensures Inv(After(s, run))
    decreases |run|
  {
    if run != [] {
      StepKeepsInv(s, run[0].0, run[0].1);
      RunKeepsInv(Step(s, run[0].0, run[0].1), run[1..]);
    }
  }

  // ---------------------------------------------------------------- the counts

  /** A task that owes a cleanup has cloned the handle. */
  lemma OwesAClone(s: State, i: TaskId, k: int)
    requires Tasks(s) && i < |s.tasks| && Owes(s.tasks[i], k)
    ensures k < |s.tasks[i].handles|
  {}

  lemma DropTakesOne(s: State, i: TaskId, n: nat, l: LockId, leave: bool, j: int, k: int)
    requires Enabled(s, i, leave) && s.tasks[i].phase == Dropping(n) && n < |s.tasks[i].sorted|
    ensures HasClone(Step(s, i, leave), j, k, l) <==> HasClone(s, j, k, l) && (j != i || k != n)
    ensures HasClone(s, i, n, l) <==> s.tasks[i].handles[n] == l
  {}

  lemma OneTakenAway(before: set<(int, int)>, after: set<(int, int)>, x: (int, int))
    requires forall y :: y in after <==> y in before && y != x
    ensures |after| == |before| - if x in before then 1 else 0
  {
    assert after == before - {x};
  }

  /** COUNTED. Dropping a handle takes exactly that clone away, and so lowers the count of its lock by one and
      no other. */
  lemma DropLowersCount(s: State, i: TaskId, n: nat, l: LockId, leave: bool)
    requires Enabled(s, i, leave) && s.tasks[i].phase == Dropping(n) && n < |s.tasks[i].sorted|
    ensures StrongCount(Step(s, i, leave), l) == StrongCount(s, l) - if s.tasks[i].handles[n] == l then 1 else 0
  {
    var t := Step(s, i, leave);
    forall j, k ensures HasClone(t, j, k, l) <==> HasClone(s, j, k, l) && (j != i || k != n) {
      DropTakesOne(s, i, n, l, leave, j, k);
    }
    DropTakesOne(s, i, n, l, leave, i, n);
    ClonesAre(s, l);
    ClonesAre(t, l);
    OneTakenAway(Clones(s, l), Clones(t, l), (i, n));
  }

  lemma ClonesAre(s: State, l: LockId)
    ensures forall x :: x in Clones(s, l) <==> HasClone(s, x.0, x.1, l)
  {}

  /** Only cloning and dropping change it. */
  lemma OthersKeepCount(s: State, i: TaskId, l: LockId, leave: bool)
    requires Enabled(s, i, leave) && !s.tasks[i].phase.Start?
    requires s.tasks[i].phase.Dropping? ==> s.tasks[i].phase.dropped == |s.tasks[i].sorted|
    ensures StrongCount(Step(s, i, leave), l) == StrongCount(s, l)
  {
    var t := Step(s, i, leave);
    forall j, k ensures HasClone(t, j, k, l) <==> HasClone(s, j, k, l) {}
    assert Clones(t, l) == Clones(s, l);
  }

  /** And cloning makes one clone of the handle for every address of the task. */
  lemma CloneRaisesCount(s: State, i: TaskId, l: LockId, leave: bool)
    requires Enabled(s, i, leave) && s.tasks[i].phase.Start?
    ensures var t := Step(s, i, leave);
      Clones(t, l) == Clones(s, l) + set k: int | 0 <= k < |t.tasks[i].handles| && t.tasks[i].handles[k] == l :: (i, k)
  {
    var t := Step(s, i, leave);
    forall j, k ensures HasClone(t, j, k, l) <==>
      HasClone(s, j, k, l) || (j == i && 0 <= k < |t.tasks[i].handles| && t.tasks[i].handles[k] == l) {}
  }

  // ---------------------------------------------------------------- cleanups are not mixed

  /** The counts that a cleanup finds in a run, other tasks dropping their clones in between. */
  ghost function CountsFound(s: State, run: Run, i: TaskId): seq<nat>
    requires IsRun(s, run)
    decreases |run|
  {
    if run == [] then []
    else
      var first := run[0].0;
      var t := s.tasks[first];
      (if first == i && t.phase.Cleaning? && t.phase.cleaned < |t.sorted| then [CountOf(s, t.sorted[t.phase.cleaned])]
       else [])
      + CountsFound(Step(s, first, run[0].1), run[1..], i)
  }

  ghost predicate CleaningAt(s: State, i: TaskId, n: nat) { i < |s.tasks| && s.tasks[i].phase == Cleaning(n) }

  lemma NobodyElse(s: State, i: TaskId, j: TaskId, leave: bool, n: nat)
    requires MapHolderCleans(s) && Enabled(s, j, leave) && CleaningAt(s, i, n) && i != j
    ensures !s.tasks[j].phase.Start? && !s.tasks[j].phase.Cleaning?
  {
    assert s.mapHolder == Some(i);
  }

  lemma OtherKeepsLocks(s: State, i: TaskId, j: TaskId, leave: bool)
    requires Enabled(s, j, leave) && i < |s.tasks| && i != j
    requires !s.tasks[j].phase.Start? && !s.tasks[j].phase.Cleaning?
    ensures Step(s, j, leave).locks == s.locks
    ensures i < |Step(s, j, leave).tasks| && Step(s, j, leave).tasks[i] == s.tasks[i]
  {}

  lemma {:induction false} StaysDone(s: State, run: Run, i: TaskId)
    requires IsRun(s, run) && i < |s.tasks| && s.tasks[i].phase.Done?
    ensures i < |After(s, run).tasks| && After(s, run).tasks[i].phase.Done?
    decreases |run|
  {
    if run != [] {
      StaysDone(Step(s, run[0].0, run[0].1), run[1..], i);
    }
  }

  /** One step of the cleanup itself. */
  lemma CleaningStep(s: State, i: TaskId, leave: bool, n: nat)
    requires Tasks(s) && CleaningAt(s, i, n) && n < |s.tasks[i].sorted|
    ensures var s1, a := Step(s, i, leave), s.tasks[i].sorted[n];
      && CleaningAt(s1, i, n + 1) && s1.tasks[i].sorted == s.tasks[i].sorted
      && s1.locks == ForgetOne(s.locks, a, CountOf(s, a))
  {}

  lemma LastCleaningStep(s: State, i: TaskId, leave: bool)
    requires Tasks(s) && i < |s.tasks| && CleaningAt(s, i, |s.tasks[i].sorted|)
    ensures var s1 := Step(s, i, leave); i < |s1.tasks| && s1.tasks[i].phase.Done?
  {}

  lemma FoundFirst(locks: map<u16, LockId>, sorted: seq<u16>, n: nat, m: nat, count: nat, found: seq<nat>)
    requires n < m <= |sorted| && |found| == m - n - 1
    ensures Forgotten(locks, sorted[n..m], [count] + found)
         == Forgotten(ForgetOne(locks, sorted[n], count), sorted[n + 1..m], found)
  {
    assert sorted[n..m][0] == sorted[n] && sorted[n..m][1..] == sorted[n + 1..m];
    assert ([count] + found)[1..] == found;
  }

  /** What a run does from a state on, its first step aside. */
  lemma AfterFirst(s: State, run: Run, i: TaskId)
    requires IsRun(s, run) && run != [] && i < |s.tasks|
    ensures var s1 := Step(s, run[0].0, run[0].1);
      && IsRun(s1, run[1..]) && After(s, run) == After(s1, run[1..])
      && (run[0].0 != i ==> CountsFound(s, run, i) == CountsFound(s1, run[1..], i))
      && (forall n: nat :: run[0].0 == i && CleaningAt(s, i, n) && n < |s.tasks[i].sorted| ==>
           CountsFound(s, run, i) == [CountOf(s, s.tasks[i].sorted[n])] + CountsFound(s1, run[1..], i))
  {}

  /** NOT MIXED. However the steps of other tasks come between those of a cleanup, it does to the map what
      the loop over its addresses does, given the counts it found. */
  lemma {:induction false} CleanupIsForget(s: State, run: Run, i: TaskId, n: nat, m: nat)
    requires Inv(s) && IsRun(s, run) && CleaningAt(s, i, n) && CleaningAt(After(s, run), i, m)
    ensures n <= m <= |s.tasks[i].sorted| && |CountsFound(s, run, i)| == m - n
    ensures After(s, run).locks == Forgotten(s.locks, s.tasks[i].sorted[n..m], CountsFound(s, run, i))
    decreases |run|
  {
    assert n <= |s.tasks[i].sorted| by { assert WellFormed(s.tasks[i]); }
    if run == [] {
      assert n == m && s.tasks[i].sorted[n..m] == [];
    } else {
      var j, leave, sorted := run[0].0, run[0].1, s.tasks[i].sorted;
      var s1 := Step(s, j, leave);
      AfterFirst(s, run, i);
      StepKeepsInv(s, j, leave);
      if i != j {
        NobodyElse(s, i, j, leave, n);
        OtherKeepsLocks(s, i, j, leave);
        CleanupIsForget(s1, run[1..], i, n, m);
      } else if n == |sorted| {
        LastCleaningStep(s, i, leave);
        StaysDone(s1, run[1..], i);
      } else {
        CleaningStep(s, i, leave, n);
        CleanupIsForget(s1, run[1..], i, n + 1, m);
        FoundFirst(s.locks, sorted, n, m, CountOf(s, sorted[n]), CountsFound(s1, run[1..], i));
      }
    }
  }

  // ---------------------------------------------------------------- mutual exclusion

  lemma OneGuardPerAddress(s: State, i: TaskId, j: int, u: TaskId, k: int)
    requires Inv(s) && i < |s.tasks| && u < |s.tasks|
    requires Holds(s.tasks[i], j) && Holds(s.tasks[u], k) && s.tasks[i].sorted[j] == s.tasks[u].sorted[k]
    ensures i == u
  {
    assert IsCurrent(s, s.tasks[i], j) && IsCurrent(s, s.tasks[u], k);
    assert IsOwner(s, i, s.tasks[i], j) && IsOwner(s, u, s.tasks[u], k);
  }

  lemma RunningAreDisjoint(s: State, i: TaskId, u: TaskId, a: u16)
    requires Inv(s) && i < |s.tasks| && u < |s.tasks|
    requires s.tasks[i].phase.Running? && s.tasks[u].phase.Running?
    requires Touches(s.tasks[i].request, a) && Touches(s.tasks[u].request, a)
    ensures i == u
  {
    var j :| 0 <= j < |s.tasks[i].sorted| && s.tasks[i].sorted[j] == a;
    var k :| 0 <= k < |s.tasks[u].sorted| && s.tasks[u].sorted[k] == a;
    OneGuardPerAddress(s, i, j, u, k);
  }

  /** In every reachable state no two tasks run on overlapping addresses, although locks are
      discarded and recreated along the way. */
  lemma MutualExclusion(s: State, run: Run, i: TaskId, u: TaskId, a: u16)
    requires Initial(s) && IsRun(s, run)
    requires i < |After(s, run).tasks| && u < |After(s, run).tasks| && i != u
    requires After(s, run).tasks[i].phase.Running? && After(s, run).tasks[u].phase.Running?
    ensures !(Touches(After(s, run).tasks[i].request, a) && Touches(After(s, run).tasks[u].request, a))
  {
    InitialInv(s);
    RunKeepsInv(s, run);
    if Touches(After(s, run).tasks[i].request, a) && Touches(After(s, run).tasks[u].request, a) {
      RunningAreDisjoint(After(s, run), i, u, a);
    }
  }

  // ---------------------------------------------------------------- reclamation

  ghost predicate AllDone(s: State) {
    forall i :: 0 <= i < |s.tasks| ==> s.tasks[i].phase.Done?
  }

  /** Every lock in the map has a task that cloned it and has not yet done its cleanup, so once all
      tasks have returned the map is empty. */
  lemma MapIsReclaimed(s: State, run: Run)
    requires Initial(s) && IsRun(s, run)
    ensures forall a :: a in After(s, run).locks ==> Owed(After(s, run), a)
    ensures AllDone(After(s, run)) ==> After(s, run).locks == map[]
  {
    InitialInv(s);
    RunKeepsInv(s, run);
    var e := After(s, run);
    if AllDone(e) {
      forall a ensures a !in e.locks {
        NothingOwed(e, a);
      }
    }
  }

  lemma NothingOwed(s: State, a: u16)
    requires AllDone(s)
    ensures !Owed(s, a)
  {}

  // ---------------------------------------------------------------- freedom from deadlock

  predicate Waiting(s: State, i: TaskId) {
    && i < |s.tasks| && s.tasks[i].phase.Acquiring?
    && s.tasks[i].phase.guards < |s.tasks[i].sorted| && s.tasks[i].phase.guards < |s.tasks[i].handles|
    && s.tasks[i].handles[s.tasks[i].phase.guards] in s.owner
  }

  function Awaited(s: State, i: TaskId): u16
    requires Waiting(s, i)
  {
    s.tasks[i].sorted[s.tasks[i].phase.guards]
  }

  /** The holder of the mutex a task waits for. If it waits too, then for a higher address. */
  lemma HolderIsAhead(s: State, i: TaskId) returns (u: TaskId)
    requires Inv(s) && Waiting(s, i)
    ensures u < |s.tasks| && !s.tasks[u].phase.Done?
    ensures Waiting(s, u) ==> Awaited(s, u) > Awaited(s, i)
  {
    var t := s.tasks[i];
    var n := t.phase.guards;
    var l := t.handles[n];
    u := s.owner[l];
    var k :| Guards(s.tasks[u], k, l);
    assert Live(t, n) && IsCurrent(s, t, n);
    assert Live(s.tasks[u], k) && IsCurrent(s, s.tasks[u], k);
    assert s.tasks[u].sorted[k] == t.sorted[n];
  }

  lemma {:induction false} SomeoneCanStep(s: State, i: TaskId) returns (u: TaskId)
    requires Inv(s) && s.mapHolder == None
    requires i < |s.tasks| && !s.tasks[i].phase.Done?
    ensures Enabled(s, u, true)
    decreases if Waiting(s, i) then 0x1_0000 - Awaited(s, i) else 0
  {
    u := i;
    if Waiting(s, i) {
      var v := HolderIsAhead(s, i);
      if Waiting(s, v) {
        u := SomeoneCanStep(s, v);
      } else {
        u := v;
      }
    }
  }

  /** Every reachable state with an unfinished task has an enabled step. */
  lemma DeadlockFree(s: State, run: Run)
    requires Initial(s) && IsRun(s, run) && !AllDone(After(s, run))
    ensures exists u :: Enabled(After(s, run), u, true)
  {
    InitialInv(s);
    RunKeepsInv(s, run);
    var e := After(s, run);
    var i :| 0 <= i < |e.tasks| && !e.tasks[i].phase.Done?;
    if e.mapHolder == None {
      var u := SomeoneCanStep(e, i);
    } else {
      assert e.tasks[e.mapHolder.value].phase.Cleaning?;
      assert Enabled(e, e.mapHolder.value, true);
    }
  }

  // ---------------------------------------------------------------- termination

  /** Steps a task can still take. */
  function Rank(t: Task): int {
    var n, m := |t.sorted|, Accesses(t.request);
    match t.phase
    case Start => 4 * n + m + 6
    case Acquiring(g) => 4 * n + m + 5 - g
    case Running => 3 * n + m - t.pc + 4
    case Releasing(r) => 3 * n + 3 - r
    case Dropping(d) => 2 * n + 2 - d
    case Cleaning(c) => n + 1 - c
    case Done => 0
  }

  function Ranks(tasks: seq<Task>): int {
    if tasks == [] then 0 else Rank(tasks[0]) + Ranks(tasks[1..])
  }

  lemma {:induction false} RanksUpdate(tasks: seq<Task>, i: nat, t: Task)
    requires i < |tasks|
    ensures Ranks(tasks[i := t]) == Ranks(tasks) - Rank(tasks[i]) + Rank(t)
  {
    if i == 0 {
      assert tasks[i := t][1..] == tasks[1..];
    } else {
      assert tasks[i := t][1..] == tasks[1..][i - 1 := t];
      RanksUpdate(tasks[1..], i - 1, t);
    }
  }

  lemma {:induction false} RanksNonNegative(tasks: seq<Task>)
    requires forall i :: 0 <= i < |tasks| ==> WellFormed(tasks[i])
    ensures 0 <= Ranks(tasks)
  {
    if tasks != [] {
      RanksNonNegative(tasks[1..]);
    }
  }

  /** `s'` is `s` with task `i` in a lower rank. */
  ghost predicate Lowers(s: State, i: TaskId, s': State) {
    i < |s.tasks| && i < |s'.tasks| && s'.tasks == s.tasks[i := s'.tasks[i]] && Rank(s'.tasks[i]) < Rank(s.tasks[i])
  }

  lemma CloneLowers(s: State, i: TaskId)
    requires Tasks(s) && i < |s.tasks| && s.tasks[i].phase.Start?
    ensures Lowers(s, i, StepClone(s, i))
  {}

  lemma GuardsLower(s: State, i: TaskId)
    requires Tasks(s) && i < |s.tasks| && s.tasks[i].phase.Acquiring?
    ensures s.tasks[i].phase.guards < |s.tasks[i].sorted| ==> Lowers(s, i, StepAcquire(s, i))
    ensures s.tasks[i].phase.guards == |s.tasks[i].sorted| ==> Lowers(s, i, StepEnter(s, i))
  {}

  lemma AccessLowers(s: State, i: TaskId)
    requires Tasks(s) && i < |s.tasks| && s.tasks[i].phase.Running?
    requires s.tasks[i].pc < Accesses(s.tasks[i].request)
    ensures Lowers(s, i, StepAccess(s, i))
  {}

  lemma ReleaseLowers(s: State, i: TaskId)
    requires Tasks(s) && i < |s.tasks|
    requires s.tasks[i].phase.Releasing? && s.tasks[i].phase.released < |s.tasks[i].sorted|
    ensures Lowers(s, i, StepRelease(s, i))
  {}

  lemma CleanLowers(s: State, i: TaskId)
    requires Tasks(s) && i < |s.tasks|
    requires s.tasks[i].phase.Cleaning? && s.tasks[i].phase.cleaned < |s.tasks[i].sorted|
    ensures Lowers(s, i, StepClean(s, i))
  {}

  lemma PhaseLowers(s: State, i: TaskId, leave: bool)
    requires Enabled(s, i, leave)
    requires match s.tasks[i].phase
             case Running => leave
             case Releasing(n) => n == |s.tasks[i].sorted|
             case Dropping(_) => true
             case Cleaning(n) => n == |s.tasks[i].sorted|
             case _ => false
    ensures Lowers(s, i, Step(s, i, leave))
  {
    assert WellFormed(s.tasks[i]);
  }

  lemma StepLowers(s: State, i: TaskId, leave: bool)
    requires Enabled(s, i, leave)
    ensures Lowers(s, i, Step(s, i, leave))
  {
    match s.tasks[i].phase
    case Start => CloneLowers(s, i);
    case Acquiring(_) => GuardsLower(s, i);
    case Running => if leave { PhaseLowers(s, i, leave); } else { AccessLowers(s, i); }
    case Releasing(n) => if n < |s.tasks[i].sorted| { ReleaseLowers(s, i); } else { PhaseLowers(s, i, leave); }
    case Dropping(_) => PhaseLowers(s, i, leave);
    case Cleaning(n) => if n < |s.tasks[i].sorted| { CleanLowers(s, i); } else { PhaseLowers(s, i, leave); }
  }

  /** A run is never longer than the ranks of its tasks: every set of tasks finishes. */
  lemma {:induction false} Terminates(s: State, run: Run)
    requires Inv(s) && IsRun(s, run)
    ensures |run| + Ranks(After(s, run).tasks) <= Ranks(s.tasks)
    ensures 0 <= Ranks(After(s, run).tasks)
    decreases |run|
  {
    if run == [] {
      RanksNonNegative(s.tasks);
    } else {
      var s' := Step(s, run[0].0, run[0].1);
      StepLowers(s, run[0].0, run[0].1);
      RanksUpdate(s.tasks, run[0].0, s'.tasks[run[0].0]);
      StepKeepsInv(s, run[0].0, run[0].1);
      Terminates(Step(s, run[0].0, run[0].1), run[1..]);
    }
  }
}
