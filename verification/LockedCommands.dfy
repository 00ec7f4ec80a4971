/** What the address locks are for: concurrent mask writes and register writes leave a model's tables
    as the same commands carried out one after another would. */
module LockedCommands {
  import opened Bytes
  import opened AddressLocks
  import opened AddressLockSafety
  import opened AddressLockSerial
  import opened Pdu
  import V = Serving

  /** The commands whose writing half runs under address locks. */
  predicate Locked(c: Command) { c.MaskWriteRegister? || c.ReadWriteRegisters? }

  /** The critical section of such a command. */
  function Section(c: Command): Request
    requires Locked(c)
  {
    match c
    case MaskWriteRegister(a, andMask, orMask) => MaskWrite(a, andMask, orMask)
    case ReadWriteRegisters(_, _, w, v) => WriteMany(w, v)
  }

  ghost predicate AllLocked(commands: seq<Command>) {
    forall i :: 0 <= i < |commands| ==> Locked(commands[i]) && InLimit(commands[i])
  }

  /** Each task runs the critical section of its command. */
  ghost predicate RunsCommands(s: State, commands: seq<Command>)
    requires AllLocked(commands)
  {
    |s.tasks| == |commands| && forall i :: 0 <= i < |commands| ==> s.tasks[i].request == Section(commands[i])
  }

  /** The register store of the tasks is the model's table of holding registers. */
  ghost predicate Mirrors(registers: map<u16, bv16>, t: V.Store)
    requires V.Whole(t)
  {
    forall a: u16 :: Read(registers, a) == t.holding[a]
  }

  ghost predicate SameRequests(s: State, s': State) {
    |s'.tasks| == |s.tasks| && forall j :: 0 <= j < |s.tasks| ==> s'.tasks[j].request == s.tasks[j].request
  }

  lemma CloneKeepsRequests(s: State, i: TaskId)
    requires i < |s.tasks| && Tasks(s)
    ensures SameRequests(s, StepClone(s, i))
  {}

  lemma AccessKeepsRequests(s: State, i: TaskId)
    requires i < |s.tasks| && Tasks(s) && s.tasks[i].pc < Accesses(s.tasks[i].request)
    ensures SameRequests(s, StepAccess(s, i))
  {}

  lemma CleanKeepsRequests(s: State, i: TaskId)
    requires i < |s.tasks| && Tasks(s)
    requires s.tasks[i].phase.Cleaning? && s.tasks[i].phase.cleaned < |s.tasks[i].sorted|
    ensures SameRequests(s, StepClean(s, i))
  {}

  lemma MutexKeepsRequests(s: State, i: TaskId)
    requires i < |s.tasks| && Tasks(s)
    ensures s.tasks[i].phase.Acquiring? && s.tasks[i].phase.guards < |s.tasks[i].sorted| ==>
      SameRequests(s, StepAcquire(s, i))
    ensures s.tasks[i].phase.Releasing? && s.tasks[i].phase.released < |s.tasks[i].sorted| ==>
      SameRequests(s, StepRelease(s, i))
  {}

  lemma StepKeepsRequests(s: State, i: TaskId, leave: bool)
    requires Enabled(s, i, leave)
    ensures SameRequests(s, Step(s, i, leave))
  {
    var t := s.tasks[i];
    match t.phase
    case Start => CloneKeepsRequests(s, i);
    case Acquiring(_) => MutexKeepsRequests(s, i);
    case Running =>
      if !leave {
        AccessKeepsRequests(s, i);
      }
    case Releasing(_) => MutexKeepsRequests(s, i);
    case Cleaning(n) =>
      if n < |t.sorted| {
        CleanKeepsRequests(s, i);
      }
    case _ =>
  }

  lemma {:induction false} RunKeepsRequests(s: State, run: Run, commands: seq<Command>)
    requires AllLocked(commands) && RunsCommands(s, commands) && IsRun(s, run)
    ensures RunsCommands(After(s, run), commands)
    decreases |run|
  {
    if run != [] {
      var t := Step(s, run[0].0, run[0].1);
      StepKeepsRequests(s, run[0].0, run[0].1);
      RunKeepsRequests(t, run[1..], commands);
    }
  }

  /** A critical section by itself does to the store what the command does to the table. */
  lemma SectionIsCommand(c: Command, registers: map<u16, bv16>, t: V.Store)
    requires Locked(c) && InLimit(c) && V.Whole(t) && Mirrors(registers, t)
    ensures var r := Section(c);
      InRange(r) && Mirrors(RunAlone(r, 0, Accesses(r), 0, registers), V.Written(c, t))
  {
    var r := Section(c);
    forall a: u16 ensures Read(RunAlone(r, 0, Accesses(r), 0, registers), a) == V.Written(c, t).holding[a] {
      RunAloneIsLocal(r, 0, Accesses(r), 0, registers, a, t.holding[a]);
    }
  }

  ghost predicate Indices(order: seq<TaskId>, n: nat) { forall x :: 0 <= x < |order| ==> order[x] < n }

  /** The commands carried out one after another. */
  ghost function InTurn(commands: seq<Command>, order: seq<TaskId>, t: V.Store): (u: V.Store)
    requires AllLocked(commands) && Indices(order, |commands|) && V.Whole(t)
    ensures V.Whole(u)
  {
    if order == [] then t
    else
      var n := |order| - 1;
      V.Written(commands[order[n]], InTurn(commands, order[..n], t))
  }

  lemma {:induction false} SequentialIsInTurn(
    tasks: seq<Task>, commands: seq<Command>, order: seq<TaskId>, registers: map<u16, bv16>, t: V.Store)
    requires AllLocked(commands) && Names(order, tasks) && |tasks| == |commands| && Indices(order, |commands|)
    requires forall i :: 0 <= i < |commands| ==> tasks[i].request == Section(commands[i])
    requires V.Whole(t) && Mirrors(registers, t)
    ensures Mirrors(Sequential(tasks, order, registers), InTurn(commands, order, t))
    decreases |order|
  {
    if order != [] {
      var n := |order| - 1;
      SequentialIsInTurn(tasks, commands, order[..n], registers, t);
      SectionIsCommand(commands[order[n]], Sequential(tasks, order[..n], registers), InTurn(commands, order[..n], t));
    }
  }

  /** NO UPDATE LOST. Any number of mask writes and read-and-writes in any interleaving, none of whose
      store accesses fails: once all have returned, the holding registers are those of the commands
      carried out one after another, each exactly once, in the order in which they were let in. */
  lemma ConcurrentIsInTurn(s: State, run: Run, commands: seq<Command>, t: V.Store) returns (order: seq<TaskId>)
    requires AllLocked(commands) && Initial(s) && RunsCommands(s, commands) && V.Whole(t) && Mirrors(s.registers, t)
    requires IsRun(s, run) && Unfailing(s, run) && AllDone(After(s, run))
    ensures Indices(order, |commands|) && forall x, y :: 0 <= x < y < |order| ==> order[x] != order[y]
    ensures forall i :: 0 <= i < |commands| ==> i in order
    ensures Mirrors(After(s, run).registers, InTurn(commands, order, t))
  {
    var e := After(s, run);
    CompleteRunIsSequential(s, run);
    RunKeepsRequests(s, run, commands);
    order := e.entered;
    SequentialIsInTurn(e.tasks, commands, order, s.registers, t);
    forall a: u16 ensures Read(e.registers, a) == InTurn(commands, order, t).holding[a] {
      assert Read(e.registers, a) == Read(Sequential(e.tasks, order, s.registers), a);
    }
  }
}
