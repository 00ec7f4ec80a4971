/** Serialisability of the register updates made under the address locks: whatever the
    interleaving, the store is the one left by running the critical sections one after another in
    the order in which they were entered. */
module AddressLockSerial {
  import opened Bytes
  import opened AddressLocks
  import opened AddressLockSafety

  // ---------------------------------------------------------------- running alone

  /** The first `n` accesses of a request, starting at access `pc`, with nobody else around. */
  function RunAlone(r: Request, pc: nat, n: nat, current: bv16, registers: map<u16, bv16>): map<u16, bv16>
    requires InRange(r) && pc <= n <= Accesses(r)
    decreases n - pc
  {
    if pc == n then registers
    else
      var (current1, registers1) := Access(r, pc, current, registers);
      RunAlone(r, pc + 1, n, current1, registers1)
  }

  ghost predicate Names(order: seq<TaskId>, tasks: seq<Task>) {
    && (forall i :: 0 <= i < |tasks| ==> WellFormed(tasks[i]))
    && (forall x :: 0 <= x < |order| ==> order[x] < |tasks|)
  }

  /** The critical sections of the tasks one after another, each as far as it got. */
  ghost function SerialRun(tasks: seq<Task>, order: seq<TaskId>, registers: map<u16, bv16>): map<u16, bv16>
    requires Names(order, tasks)
  {
    if order == [] then registers
    else
      var t := tasks[order[|order| - 1]];
      RunAlone(t.request, 0, t.pc, 0, SerialRun(tasks, order[..|order| - 1], registers))
  }

  // ---------------------------------------------------------------- one address at a time

  /** The value at `a` after the first `pc` accesses, from the value before. */
  function Local(r: Request, pc: nat, a: u16, v: bv16): bv16
    requires pc <= Accesses(r)
  {
    match r
    case Modify(b, update) => if pc == 2 && a == b then update(v) else v
    case WriteMany(b, values) => if Offset(a, b) < pc then values[Offset(a, b)] else v
  }

  lemma AccessIsLocal(r: Request, pc: nat, current: bv16, registers: map<u16, bv16>, a: u16, v: bv16)
    requires InRange(r) && pc < Accesses(r)
    requires r.Modify? && pc == 1 ==> current == Read(registers, r.address)
    requires Read(registers, a) == Local(r, pc, a, v)
    ensures Read(Access(r, pc, current, registers).1, a) == Local(r, pc + 1, a, v)
  {}

  lemma {:induction false} RunAloneIsLocal(
    r: Request, pc: nat, n: nat, current: bv16, registers: map<u16, bv16>, a: u16, v: bv16)
    requires InRange(r) && pc <= n <= Accesses(r)
    requires r.Modify? && pc == 1 ==> current == Read(registers, r.address)
    requires Read(registers, a) == Local(r, pc, a, v)
    ensures Read(RunAlone(r, pc, n, current, registers), a) == Local(r, n, a, v)
    decreases n - pc
  {
    if pc < n {
      AccessIsLocal(r, pc, current, registers, a, v);
      var (current1, registers1) := Access(r, pc, current, registers);
      RunAloneIsLocal(r, pc + 1, n, current1, registers1, a, v);
    }
  }

  ghost function ReplayAt(tasks: seq<Task>, order: seq<TaskId>, a: u16, v: bv16): bv16
    requires Names(order, tasks)
  {
    if order == [] then v
    else
      var t := tasks[order[|order| - 1]];
      Local(t.request, t.pc, a, ReplayAt(tasks, order[..|order| - 1], a, v))
  }

  lemma {:induction false} SerialRunAt(tasks: seq<Task>, order: seq<TaskId>, registers: map<u16, bv16>, a: u16)
    requires Names(order, tasks)
    ensures Read(SerialRun(tasks, order, registers), a) == ReplayAt(tasks, order, a, Read(registers, a))
  {
    if order != [] {
      var prefix, t := order[..|order| - 1], tasks[order[|order| - 1]];
      SerialRunAt(tasks, prefix, registers, a);
      var before := SerialRun(tasks, prefix, registers);
      RunAloneIsLocal(t.request, 0, t.pc, 0, before, a, Read(before, a));
    }
  }

  /** Tasks that did not get further, or do not touch `a`, replay to the same value. */
  lemma {:induction false} ReplaySame(tasks: seq<Task>, tasks': seq<Task>, order: seq<TaskId>, a: u16, v: bv16)
    requires Names(order, tasks) && Names(order, tasks')
    requires forall x :: 0 <= x < |order| ==> tasks'[order[x]].request == tasks[order[x]].request
    requires forall x :: 0 <= x < |order| ==>
      tasks'[order[x]].pc == tasks[order[x]].pc || !Touches(tasks[order[x]].request, a)
    ensures ReplayAt(tasks', order, a, v) == ReplayAt(tasks, order, a, v)
  {
    if order != [] {
      var n := |order| - 1;
      ReplaySame(tasks, tasks', order[..n], a, v);
      assert tasks'[order[n]].request == tasks[order[n]].request;
      if tasks'[order[n]].pc != tasks[order[n]].pc {
        assert !Touches(tasks[order[n]].request, a);
      }
    }
  }

  /** If nobody after position `x` touches `a`, the value is decided at position `x`. */
  lemma {:induction false} ReplayLastToucher(tasks: seq<Task>, order: seq<TaskId>, x: nat, a: u16, v: bv16)
    requires Names(order, tasks) && x < |order|
    requires forall y :: x < y < |order| ==> !Touches(tasks[order[y]].request, a)
    ensures ReplayAt(tasks, order, a, v)
         == Local(tasks[order[x]].request, tasks[order[x]].pc, a, ReplayAt(tasks, order[..x], a, v))
  {
    var n := |order| - 1;
    if x < n {
      assert !Touches(tasks[order[n]].request, a);
      assert order[..n][..x] == order[..x];
      ReplayLastToucher(tasks, order[..n], x, a, v);
    } else {
      assert order[..n] == order[..x];
    }
  }

  // ---------------------------------------------------------------- the invariant

  predicate HasEntered(t: Task) { !t.phase.Start? && !t.phase.Acquiring? }

  ghost predicate OrderIsEntry(s: State) {
    && (forall x :: 0 <= x < |s.entered| ==> s.entered[x] < |s.tasks| && HasEntered(s.tasks[s.entered[x]]))
    && (forall x, y :: 0 <= x < y < |s.entered| ==> s.entered[x] != s.entered[y])
    && (forall i :: 0 <= i < |s.tasks| && HasEntered(s.tasks[i]) ==> i in s.entered)
  }

  ghost predicate Apart(t: Task, u: Task) {
    forall a: u16 :: Touches(t.request, a) ==> !Touches(u.request, a)
  }

  /** Whoever entered while a task is still running is apart from it. */
  ghost predicate LaterApart(s: State)
    requires OrderIsEntry(s)
  {
    forall x, y :: 0 <= x < y < |s.entered| && s.tasks[s.entered[x]].phase.Running? ==>
      Apart(s.tasks[s.entered[x]], s.tasks[s.entered[y]])
  }

  ghost predicate ReadIsFresh(s: State) {
    forall i :: 0 <= i < |s.tasks| && s.tasks[i].phase.Running? && s.tasks[i].request.Modify? && s.tasks[i].pc == 1 ==>
      s.tasks[i].current == Read(s.registers, s.tasks[i].request.address)
  }

  ghost predicate IsReplay(s: State, registers: map<u16, bv16>)
    requires Names(s.entered, s.tasks)
  {
    forall a: u16 :: Read(s.registers, a) == ReplayAt(s.tasks, s.entered, a, Read(registers, a))
  }

  ghost predicate SerialInv(s: State, registers: map<u16, bv16>) {
    Inv(s) && OrderIsEntry(s) && LaterApart(s) && ReadIsFresh(s) && IsReplay(s, registers)
  }

  // ---------------------------------------------------------------- entering

  lemma EnterKeepsOrder(s: State, i: TaskId)
    requires OrderIsEntry(s) && i < |s.tasks| && s.tasks[i].phase.Acquiring?
    ensures OrderIsEntry(StepEnter(s, i))
  {
    var s' := StepEnter(s, i);
    forall j | 0 <= j < |s'.tasks| && HasEntered(s'.tasks[j]) ensures j in s'.entered {
      if j != i {
        assert HasEntered(s.tasks[j]);
      }
    }
  }

  lemma EnterKeepsApart(s: State, i: TaskId)
    requires OrderIsEntry(s) && LaterApart(s) && i < |s.tasks| && s.tasks[i].phase.Acquiring?
    requires OrderIsEntry(StepEnter(s, i)) && Inv(StepEnter(s, i))
    ensures LaterApart(StepEnter(s, i))
  {
    var s', n := StepEnter(s, i), |s.entered|;
    forall x, y | 0 <= x < y < |s'.entered| && s'.tasks[s'.entered[x]].phase.Running?
      ensures Apart(s'.tasks[s'.entered[x]], s'.tasks[s'.entered[y]])
    {
      if y == n {
        forall a: u16 | Touches(s'.tasks[s'.entered[x]].request, a) ensures !Touches(s'.tasks[i].request, a) {
          if Touches(s'.tasks[i].request, a) {
            RunningAreDisjoint(s', s'.entered[x], i, a);
          }
        }
      } else {
        assert s.tasks[s.entered[x]].phase.Running?;
        assert Apart(s.tasks[s.entered[x]], s.tasks[s.entered[y]]);
      }
    }
  }

  lemma EnterKeepsReplay(s: State, i: TaskId, registers: map<u16, bv16>)
    requires Tasks(s) && OrderIsEntry(s) && i < |s.tasks| && s.tasks[i].phase.Acquiring?
    requires IsReplay(s, registers) && Names(StepEnter(s, i).entered, StepEnter(s, i).tasks)
    ensures IsReplay(StepEnter(s, i), registers)
  {
    var s' := StepEnter(s, i);
    forall a: u16 ensures Read(s'.registers, a) == ReplayAt(s'.tasks, s'.entered, a, Read(registers, a)) {
      assert s'.entered[..|s'.entered| - 1] == s.entered;
      ReplaySame(s.tasks, s'.tasks, s.entered, a, Read(registers, a));
    }
  }

  lemma EnterKeepsSerial(s: State, i: TaskId, registers: map<u16, bv16>)
    requires SerialInv(s, registers) && Enabled(s, i, false)
    requires s.tasks[i].phase.Acquiring? && s.tasks[i].phase.guards == |s.tasks[i].sorted|
    ensures SerialInv(StepEnter(s, i), registers)
  {
    EnterKeepsInv(s, i);
    EnterKeepsOrder(s, i);
    EnterKeepsApart(s, i);
    EnterKeepsReplay(s, i, registers);
  }

  // ---------------------------------------------------------------- one store access

  lemma AccessTouchesOnly(r: Request, pc: nat, current: bv16, registers: map<u16, bv16>, a: u16)
    requires InRange(r) && pc < Accesses(r) && !Touches(r, a)
    ensures Read(Access(r, pc, current, registers).1, a) == Read(registers, a)
  {}

  /** What progress of the last task to touch `a` does to the replayed value. */
  lemma ReplayAdvance(tasks: seq<Task>, order: seq<TaskId>, x: nat, t': Task, a: u16, v: bv16)
    requires Names(order, tasks) && x < |order| && WellFormed(t') && t'.request == tasks[order[x]].request
    requires forall y, z :: 0 <= y < z < |order| ==> order[y] != order[z]
    requires forall y :: x < y < |order| ==> !Touches(tasks[order[y]].request, a)
    ensures Names(order, tasks[order[x] := t'])
    ensures var w := ReplayAt(tasks, order[..x], a, v);
      && ReplayAt(tasks, order, a, v) == Local(t'.request, tasks[order[x]].pc, a, w)
      && ReplayAt(tasks[order[x] := t'], order, a, v) == Local(t'.request, t'.pc, a, w)
  {
    var tasks' := tasks[order[x] := t'];
    ReplayLastToucher(tasks, order, x, a, v);
    ReplayLastToucher(tasks', order, x, a, v);
    ReplaySame(tasks, tasks', order[..x], a, v);
  }

  lemma LaterDoNotTouch(s: State, x: nat, a: u16)
    requires OrderIsEntry(s) && LaterApart(s) && x < |s.entered|
    requires s.tasks[s.entered[x]].phase.Running? && Touches(s.tasks[s.entered[x]].request, a)
    ensures forall y :: x < y < |s.entered| ==> !Touches(s.tasks[s.entered[y]].request, a)
  {
    forall y | x < y < |s.entered| ensures !Touches(s.tasks[s.entered[y]].request, a) {
      assert Apart(s.tasks[s.entered[x]], s.tasks[s.entered[y]]);
    }
  }

  lemma UntouchedAddressKept(s: State, i: TaskId, a: u16, v: bv16)
    requires Tasks(s) && OrderIsEntry(s)
    requires i < |s.tasks| && s.tasks[i].pc < Accesses(s.tasks[i].request) && !Touches(s.tasks[i].request, a)
    requires Read(s.registers, a) == ReplayAt(s.tasks, s.entered, a, v)
    requires Names(s.entered, StepAccess(s, i).tasks)
    ensures Read(StepAccess(s, i).registers, a) == ReplayAt(StepAccess(s, i).tasks, s.entered, a, v)
  {
    var t := s.tasks[i];
    AccessTouchesOnly(t.request, t.pc, t.current, s.registers, a);
    ReplaySame(s.tasks, StepAccess(s, i).tasks, s.entered, a, v);
  }

  lemma TouchedAddressKept(s: State, i: TaskId, x: nat, t': Task, a: u16, v: bv16)
    requires Tasks(s) && OrderIsEntry(s) && LaterApart(s) && x < |s.entered| && s.entered[x] == i
    requires s.tasks[i].phase.Running? && Touches(s.tasks[i].request, a) && s.tasks[i].pc < Accesses(s.tasks[i].request)
    requires s.tasks[i].request.Modify? && s.tasks[i].pc == 1 ==>
      s.tasks[i].current == Read(s.registers, s.tasks[i].request.address)
    requires Read(s.registers, a) == ReplayAt(s.tasks, s.entered, a, v)
    requires WellFormed(t') && t'.request == s.tasks[i].request && t'.pc == s.tasks[i].pc + 1
    ensures Names(s.entered, s.tasks[i := t'])
    ensures Read(Access(t'.request, s.tasks[i].pc, s.tasks[i].current, s.registers).1, a)
         == ReplayAt(s.tasks[i := t'], s.entered, a, v)
  {
    var t := s.tasks[i];
    LaterDoNotTouch(s, x, a);
    ReplayAdvance(s.tasks, s.entered, x, t', a, v);
    AccessIsLocal(t.request, t.pc, t.current, s.registers, a, ReplayAt(s.tasks, s.entered[..x], a, v));
  }

  lemma AccessKeepsReplayAt(s: State, i: TaskId, registers: map<u16, bv16>, a: u16)
    requires Tasks(s) && OrderIsEntry(s) && LaterApart(s) && ReadIsFresh(s)
    requires i < |s.tasks| && s.tasks[i].phase.Running? && s.tasks[i].pc < Accesses(s.tasks[i].request)
    requires Read(s.registers, a) == ReplayAt(s.tasks, s.entered, a, Read(registers, a))
    requires Names(s.entered, StepAccess(s, i).tasks)
    ensures Read(StepAccess(s, i).registers, a) == ReplayAt(StepAccess(s, i).tasks, s.entered, a, Read(registers, a))
  {
    if Touches(s.tasks[i].request, a) {
      var x :| 0 <= x < |s.entered| && s.entered[x] == i;
      TouchedAddressKept(s, i, x, StepAccess(s, i).tasks[i], a, Read(registers, a));
    } else {
      UntouchedAddressKept(s, i, a, Read(registers, a));
    }
  }

  lemma AccessKeepsFresh(s: State, i: TaskId)
    requires Inv(s) && ReadIsFresh(s)
    requires i < |s.tasks| && s.tasks[i].phase.Running? && s.tasks[i].pc < Accesses(s.tasks[i].request)
    ensures ReadIsFresh(StepAccess(s, i))
  {
    var s', t := StepAccess(s, i), s.tasks[i];
    forall j | 0 <= j < |s'.tasks| && s'.tasks[j].phase.Running? && s'.tasks[j].request.Modify? && s'.tasks[j].pc == 1
      ensures s'.tasks[j].current == Read(s'.registers, s'.tasks[j].request.address)
    {
      if j != i {
        var a := s.tasks[j].request.address;
        if Touches(t.request, a) {
          RunningAreDisjoint(s, i, j, a);
        }
        AccessTouchesOnly(t.request, t.pc, t.current, s.registers, a);
      }
    }
  }

  lemma AccessKeepsSerial(s: State, i: TaskId, registers: map<u16, bv16>)
    requires SerialInv(s, registers) && Enabled(s, i, false) && s.tasks[i].phase.Running?
    ensures SerialInv(StepAccess(s, i), registers)
  {
    var s' := StepAccess(s, i);
    RunningKeepsInv(s, i, false);
    AccessKeepsFresh(s, i);
    forall a: u16 ensures Read(s'.registers, a) == ReplayAt(s'.tasks, s'.entered, a, Read(registers, a)) {
      AccessKeepsReplayAt(s, i, registers, a);
    }
    SameOrder(s, i, s');
  }

  // ---------------------------------------------------------------- every other step

  /** Only task `i` changed; what it asks for did not, and it is not running anew. */
  ghost predicate SameProgress(s: State, i: TaskId, s': State) {
    && i < |s.tasks| && |s'.tasks| == |s.tasks| && s'.entered == s.entered
    && (forall j :: 0 <= j < |s.tasks| && j != i ==> s'.tasks[j] == s.tasks[j])
    && s'.tasks[i].request == s.tasks[i].request
    && (s'.tasks[i].phase.Running? ==> s.tasks[i].phase.Running?)
    && (HasEntered(s'.tasks[i]) <==> HasEntered(s.tasks[i]))
  }

  lemma SameOrder(s: State, i: TaskId, s': State)
    requires OrderIsEntry(s) && LaterApart(s) && SameProgress(s, i, s')
    ensures OrderIsEntry(s') && LaterApart(s')
  {
    forall x, y | 0 <= x < y < |s'.entered| && s'.tasks[s'.entered[x]].phase.Running?
      ensures Apart(s'.tasks[s'.entered[x]], s'.tasks[s'.entered[y]])
    {
      assert Apart(s.tasks[s.entered[x]], s.tasks[s.entered[y]]);
    }
  }

  lemma OtherKeepsSerial(s: State, i: TaskId, s': State, registers: map<u16, bv16>)
    requires SerialInv(s, registers) && Inv(s') && NoAccess(s, i, s')
    ensures SerialInv(s', registers)
  {
    SameOrder(s, i, s');
    forall a: u16 ensures Read(s'.registers, a) == ReplayAt(s'.tasks, s'.entered, a, Read(registers, a)) {
      ReplaySame(s.tasks, s'.tasks, s.entered, a, Read(registers, a));
    }
  }

  lemma StepKeepsSerial(s: State, i: TaskId, leave: bool, registers: map<u16, bv16>)
    requires SerialInv(s, registers) && Enabled(s, i, leave)
    ensures SerialInv(Step(s, i, leave), registers)
  {
    var t := s.tasks[i];
    if t.phase.Acquiring? && t.phase.guards == |t.sorted| {
      EnterKeepsSerial(s, i, registers);
    } else if t.phase.Running? && !leave {
      AccessKeepsSerial(s, i, registers);
    } else {
      StepKeepsInv(s, i, leave);
      OtherStep(s, i, leave);
      OtherKeepsSerial(s, i, Step(s, i, leave), registers);
    }
  }

  ghost predicate NoAccess(s: State, i: TaskId, s': State) {
    && SameProgress(s, i, s') && s'.registers == s.registers
    && s'.tasks[i].pc == s.tasks[i].pc && s'.tasks[i].current == s.tasks[i].current
  }

  lemma CloneHasNoAccess(s: State, i: TaskId)
    requires Tasks(s) && i < |s.tasks| && s.tasks[i].phase.Start?
    ensures NoAccess(s, i, StepClone(s, i))
  {}

  lemma MutexHasNoAccess(s: State, i: TaskId)
    requires Tasks(s) && i < |s.tasks|
    ensures s.tasks[i].phase.Acquiring? && s.tasks[i].phase.guards < |s.tasks[i].sorted| ==>
      NoAccess(s, i, StepAcquire(s, i))
    ensures s.tasks[i].phase.Releasing? && s.tasks[i].phase.released < |s.tasks[i].sorted| ==>
      NoAccess(s, i, StepRelease(s, i))
  {}

  lemma CleanHasNoAccess(s: State, i: TaskId)
    requires Tasks(s) && i < |s.tasks|
    requires s.tasks[i].phase.Cleaning? && s.tasks[i].phase.cleaned < |s.tasks[i].sorted|
    ensures NoAccess(s, i, StepClean(s, i))
  {}

  lemma OtherStep(s: State, i: TaskId, leave: bool)
    requires Enabled(s, i, leave)
    requires !(s.tasks[i].phase.Acquiring? && s.tasks[i].phase.guards == |s.tasks[i].sorted|)
    requires !(s.tasks[i].phase.Running? && !leave)
    ensures NoAccess(s, i, Step(s, i, leave))
  {
    match s.tasks[i].phase
    case Start => CloneHasNoAccess(s, i);
    case Acquiring(_) => MutexHasNoAccess(s, i);
    case Releasing(_) => MutexHasNoAccess(s, i);
    case Cleaning(n) => if n < |s.tasks[i].sorted| { CleanHasNoAccess(s, i); }
    case _ =>
  }

  // ---------------------------------------------------------------- the theorem

  lemma {:induction false} RunKeepsSerial(s: State, run: Run, registers: map<u16, bv16>)
    requires SerialInv(s, registers) && IsRun(s, run)
    ensures SerialInv(After(s, run), registers)
    decreases |run|
  {
    if run != [] {
      StepKeepsSerial(s, run[0].0, run[0].1, registers);
      RunKeepsSerial(Step(s, run[0].0, run[0].1), run[1..], registers);
    }
  }

  /** In every run of any number of tasks the registers are those of the serial execution, in the
      order of entry, of the critical sections as far as each got: no update is lost. */
  lemma Serialisable(s: State, run: Run)
    requires Initial(s) && IsRun(s, run)
    ensures var e := After(s, run);
      && OrderIsEntry(e) && Names(e.entered, e.tasks)
      && forall a: u16 :: Read(e.registers, a) == Read(SerialRun(e.tasks, e.entered, s.registers), a)
  {
    InitialInv(s);
    RunKeepsSerial(s, run, s.registers);
    var e := After(s, run);
    forall a: u16 ensures Read(e.registers, a) == Read(SerialRun(e.tasks, e.entered, s.registers), a) {
      SerialRunAt(e.tasks, e.entered, s.registers, a);
    }
  }

  // ---------------------------------------------------------------- complete runs

  /** No store access fails: a task leaves only when it has made them all. */
  ghost predicate Unfailing(s: State, run: Run)
    requires IsRun(s, run)
    decreases |run|
  {
    run == []
    || ((s.tasks[run[0].0].phase.Running? && run[0].1 ==> s.tasks[run[0].0].pc == Accesses(s.tasks[run[0].0].request))
        && Unfailing(Step(s, run[0].0, run[0].1), run[1..]))
  }

  ghost predicate LeftComplete(s: State) {
    forall i :: 0 <= i < |s.tasks| ==>
      s.tasks[i].phase.Start? || s.tasks[i].phase.Acquiring? || s.tasks[i].phase.Running?
      || s.tasks[i].pc == Accesses(s.tasks[i].request)
  }

  lemma StepKeepsComplete(s: State, i: TaskId, leave: bool)
    requires LeftComplete(s) && Enabled(s, i, leave)
    requires s.tasks[i].phase.Running? && leave ==> s.tasks[i].pc == Accesses(s.tasks[i].request)
    ensures LeftComplete(Step(s, i, leave))
  {
    if (s.tasks[i].phase.Acquiring? && s.tasks[i].phase.guards == |s.tasks[i].sorted|)
      || (s.tasks[i].phase.Running? && !leave) {
    } else {
      OtherStep(s, i, leave);
    }
  }

  lemma {:induction false} RunKeepsComplete(s: State, run: Run)
    requires LeftComplete(s) && IsRun(s, run) && Unfailing(s, run)
    ensures LeftComplete(After(s, run))
    decreases |run|
  {
    if run != [] {
      StepKeepsComplete(s, run[0].0, run[0].1);
      RunKeepsComplete(Step(s, run[0].0, run[0].1), run[1..]);
    }
  }

  /** Whole requests, one after another. */
  ghost function Sequential(tasks: seq<Task>, order: seq<TaskId>, registers: map<u16, bv16>): map<u16, bv16>
    requires Names(order, tasks)
  {
    if order == [] then registers
    else
      var r := tasks[order[|order| - 1]].request;
      RunAlone(r, 0, Accesses(r), 0, Sequential(tasks, order[..|order| - 1], registers))
  }

  lemma {:induction false} SequentialIsSerial(tasks: seq<Task>, order: seq<TaskId>, registers: map<u16, bv16>)
    requires Names(order, tasks)
    requires forall x :: 0 <= x < |order| ==> tasks[order[x]].pc == Accesses(tasks[order[x]].request)
    ensures Sequential(tasks, order, registers) == SerialRun(tasks, order, registers)
  {
    if order != [] {
      assert tasks[order[|order| - 1]].pc == Accesses(tasks[order[|order| - 1]].request);
      SequentialIsSerial(tasks, order[..|order| - 1], registers);
    }
  }

  /** Once all tasks have returned without a store failure, every one of them is in the order of
      entry, once, and the registers are those of the whole requests run in that order. */
  lemma CompleteRunIsSequential(s: State, run: Run)
    requires Initial(s) && IsRun(s, run) && Unfailing(s, run) && AllDone(After(s, run))
    ensures var e := After(s, run);
      && Names(e.entered, e.tasks)
      && (forall x, y :: 0 <= x < y < |e.entered| ==> e.entered[x] != e.entered[y])
      && (forall i :: 0 <= i < |e.tasks| ==> i in e.entered)
      && forall a: u16 :: Read(e.registers, a) == Read(Sequential(e.tasks, e.entered, s.registers), a)
  {
    Serialisable(s, run);
    RunKeepsComplete(s, run);
    var e := After(s, run);
    forall i | 0 <= i < |e.tasks| ensures i in e.entered {
      assert HasEntered(e.tasks[i]);
    }
    SequentialIsSerial(e.tasks, e.entered, s.registers);
  }
}
