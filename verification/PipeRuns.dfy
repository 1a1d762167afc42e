/**
 * Runs of the protocol of k-wait.hh and k-vfs.cc, and what holds in every reachable state.
 */
module PipeRuns {
  import opened Collections
  import opened Sched
  import opened PipeProtocol
  import opened PipeInvariant

  // ---------------------------------------------------------------- runs

  /** Nothing has been started, and every pipe is new. */
  ghost predicate Initial(s: System) {
    && Sched.Init(s.k) && |s.pcs| == |s.k.tasks| && |s.queues| == 2 * |s.pipes|
    && (forall t :: 0 <= t < |s.pcs| ==> s.pcs[t] == Out(NoResult))
    && (forall q :: 0 <= q < |s.queues| ==> s.queues[q] == WaitQueue(None, []))
    && (forall p :: 0 <= p < |s.pipes| ==> s.pipes[p] == Pipe(None, false, false, [], [], []))
  }

  /** `steps` leads from `s` to `s'`, each step being enabled where it is taken. */
  ghost predicate Leads(s: System, steps: seq<Step>, s': System)
    decreases |steps|
  {
    if steps == [] then s' == s
    else Enabled(s, steps[0]) && Leads(After(s, steps[0]), steps[1..], s')
  }

  ghost predicate Reachable(s: System) {
    exists s0: System, steps: seq<Step> :: Initial(s0) && Leads(s0, steps, s)
  }

  lemma InitialInv(s: System)
    requires Initial(s)
    ensures Inv(s)
  {
    InitOk(s.k);
  }

  lemma {:induction false} RunKeeps(s: System, steps: seq<Step>, s': System)
    requires Inv(s) && Leads(s, steps, s')
    ensures Inv(s')
    decreases |steps|
  {
    if steps != [] {
      StepKeeps(s, steps[0]);
      RunKeeps(After(s, steps[0]), steps[1..], s');
    }
  }

  lemma ReachableInv(s: System)
    requires Reachable(s)
    ensures Inv(s)
  {
    var s0, steps :| Initial(s0) && Leads(s0, steps, s);
    InitialInv(s0);
    RunKeeps(s0, steps, s);
  }

  // ---------------------------------------------------------------- what holds in every reachable state

  /** Task `t` sleeps after finding its predicate false. */
  predicate Sleeps(s: System, t: nat) {
    && |s.pcs| == |s.k.tasks| && t < |s.pcs|
    && s.k.tasks[t].status.Blocked? && SawFalse(s.pcs[t]) && s.pcs[t].op.pipe < |s.pipes|
    && QueueOf(s.pcs[t].op) < |s.queues|
  }

  predicate OnItsCpu(k: Kernel, u: nat) {
    && u < |k.tasks| && k.tasks[u].cpu < |k.cpus|
    && (k.cpus[k.tasks[u].cpu].current == Some(u) || u in k.cpus[k.tasks[u].cpu].runq)
  }

  /**
   * No lost wake-ups: a task that saw its predicate false and is still blocked is linked on its
   * wait queue or already in the hands of a task waking that queue; and if its predicate holds
   * now, some task has yet to finish a `wake_all` on that queue, and is itself not blocked but
   * current or queued on its CPU.
   */
  lemma NoLostWakeups(s: System, t: nat)
    requires Reachable(s) && Sleeps(s, t)
    ensures var q := QueueOf(s.pcs[t].op); t in s.queues[q].list || InHand(s, q, t)
    ensures Ready(s.pipes[s.pcs[t].op.pipe], s.pcs[t].op) ==>
              exists u: nat :: u < |s.pcs| && Notifies(s.pcs[u], QueueOf(s.pcs[t].op)) && OnItsCpu(s.k, u)
  {
    ReachableInv(s);
    assert WaitOk(s, t) && NotLost(s, t);
    if Ready(s.pipes[s.pcs[t].op.pipe], s.pcs[t].op) {
      var u: nat :| u < |s.pcs| && Notifies(s.pcs[u], QueueOf(s.pcs[t].op));
      assert WaitOk(s, u) && PcOk(s, u);
      assert Sched.TaskOk(s.k, u);
    }
  }

  /** With no `wake_all` outstanding, every sleeper's predicate is false. */
  lemma QuiescentSleepersWait(s: System, t: nat)
    requires Reachable(s) && Sleeps(s, t) && forall u :: 0 <= u < |s.pcs| ==> !Notifies(s.pcs[u], QueueOf(s.pcs[t].op))
    ensures !Ready(s.pipes[s.pcs[t].op.pipe], s.pcs[t].op)
  {
    ReachableInv(s);
    assert NotLost(s, t);
  }

  /** Run-queue safety in every reachable state. */
  lemma ReachableRunQueues(s: System, t: nat)
    requires Reachable(s) && t < |s.k.tasks|
    ensures forall c, i, c', i' :: QueuedAt(s.k, c, i, t) && QueuedAt(s.k, c', i', t) ==> c == c' && i == i'
    ensures forall c :: 0 <= c < |s.k.cpus| && t in s.k.cpus[c].runq ==>
              c == s.k.tasks[t].cpu && s.k.cpus[c].current != Some(t)
    ensures forall c :: 0 <= c < |s.k.cpus| && s.k.cpus[c].current == Some(t) ==> c == s.k.tasks[t].cpu
    ensures s.k.tasks[t].status.Runnable? && !IsIdle(s.k, t) ==> OnItsCpu(s.k, t)
  {
    ReachableInv(s);
    RunQueueSafety(s.k, t);
  }

  /** A task that holds a spinlock is never off its CPU. */
  lemma LockHoldersExecute(s: System, t: nat)
    requires Reachable(s) && t < |s.pcs| && !LockFree(s.pcs[t])
    ensures Executing(s.k, t)
  {
    ReachableInv(s);
    assert LocksOk(s, t);
  }

  /** At most one task holds a given pipe's lock or a given wait queue's lock. */
  lemma LocksExclude(s: System, t: nat, u: nat, x: nat)
    requires Reachable(s) && t < |s.pcs| && u < |s.pcs|
    requires (x < |s.pipes| && HoldsPipe(s.pcs[t], x) && HoldsPipe(s.pcs[u], x))
          || (x < |s.queues| && HoldsQueue(s.pcs[t], x) && HoldsQueue(s.pcs[u], x))
    ensures t == u
  {
    ReachableInv(s);
    assert LocksOk(s, t) && LocksOk(s, u);
  }

  /** The next step of the task needs the lock of queue `q`. */
  predicate NeedsQueue(pc: Pc, q: nat) {
    match pc
    case Prepare(op) => QueueOf(op) == q
    case Resumed(op) => QueueOf(op) == q
    case Accepted(op) => QueueOf(op) == q
    case Notify(other, _) => other == q
    case _ => false
  }

  /**
   * No lock is held up for good: a task that holds a lock can take its next step, or it waits for
   * the lock of a wait queue, whose holder, in the middle of a `wake_all`, can take its own.
   */
  lemma LockProgress(s: System, t: nat)
    requires Reachable(s) && t < |s.pcs| && !LockFree(s.pcs[t])
    ensures Enabled(s, StepAdvance(t))
         || exists u: nat :: u < |s.pcs| && s.pcs[u].Waking? && NeedsQueue(s.pcs[t], s.pcs[u].q)
                             && Enabled(s, StepAdvance(u))
  {
    ReachableInv(s);
    assert LocksOk(s, t);
    if !CanAdvance(s, s.pcs[t]) {
      var q := if s.pcs[t].Notify? then s.pcs[t].q else QueueOf(s.pcs[t].op);
      HolderAdvances(s, q);
    }
  }

  /** Whoever holds the lock of a wait queue can take its next step. */
  lemma HolderAdvances(s: System, q: nat)
    requires Inv(s) && q < |s.queues| && s.queues[q].holder.Some?
    ensures var u := s.queues[q].holder.value;
            u < |s.pcs| && s.pcs[u].Waking? && s.pcs[u].q == q && Enabled(s, StepAdvance(u))
  {
    assert LocksOk(s, s.queues[q].holder.value);
  }

  /** Pipe conservation in every reachable state; and no call ever returns -1. */
  lemma PipeConservation(s: System, p: nat, t: nat)
    requires Reachable(s) && p < |s.pipes| && t < |s.pcs|
    ensures s.pipes[p].accepted == s.pipes[p].delivered + s.pipes[p].contents
    ensures |s.pipes[p].contents| <= BBUFFER_SIZE
    ensures s.pcs[t].Out? ==> s.pcs[t].last != Failed
  {
    ReachableInv(s);
    assert PipeOk(s.pipes[p]) && PcOk(s, t);
  }

  /**
   * What a call reports, and when: end of file only with the writer closed and every accepted
   * byte delivered; a broken pipe only with the reader closed; a count otherwise, which is zero
   * only for a request of zero bytes.
   */
  lemma ReportedResult(s: System, t: nat)
    requires Reachable(s) && Enabled(s, StepAdvance(t)) && s.pcs[t].Transfer?
    ensures s.pcs[t].op.pipe < |s.pipes|
    ensures var op := s.pcs[t].op;
            var pipe := s.pipes[op.pipe];
            var pc := After(s, StepAdvance(t)).pcs[t];
            && (pc == Out(Eof) <==> op.Read? && pipe.writeClosed && pipe.delivered == pipe.accepted)
            && (pc == Out(BrokenPipe) <==> op.Write? && pipe.readClosed)
            && (!pc.Out? ==> pc.Notify? && pc.q == OtherQueue(op) && pc.andThen.Return? && pc.andThen.r.Count?
                             && (pc.andThen.r.n == 0 <==> SizeOf(op) == 0))
            && (pc.Out? ==> pc.last == Eof || pc.last == BrokenPipe)
  {
    ReachableInv(s);
    var op := s.pcs[t].op;
    var pipe := s.pipes[op.pipe];
    assert PcOk(s, t) && PipeOk(pipe);
    assert pipe.delivered == pipe.accepted <==> |pipe.contents| == 0;
  }

  // ---------------------------------------------------------------- an example

  lemma {:induction false} LeadsOn(s0: System, steps: seq<Step>, s: System, step: Step)
    requires Leads(s0, steps, s) && Enabled(s, step)
    ensures Leads(s0, steps + [step], After(s, step))
    decreases |steps|
  {
    if steps == [] {
      assert [step][1..] == [];
      assert Leads(After(s0, step), [step][1..], After(s, step));
      assert steps + [step] == [step];
    } else {
      LeadsOn(After(s0, steps[0]), steps[1..], s, step);
      assert (steps + [step])[1..] == steps[1..] + [step];
    }
  }

  /** What can be reached can be gone on from. */
  lemma ReachableStep(s: System, step: Step)
    requires Reachable(s) && Enabled(s, step)
    ensures Reachable(After(s, step))
  {
    var s0, steps :| Initial(s0) && Leads(s0, steps, s);
    LeadsOn(s0, steps, s, step);
  }

  /** One CPU with an idle task, one other task and one pipe. */
  function Example(cpu: Cpu, t: Task, pc: Pc, q: WaitQueue, pipe: Pipe): System {
    System(Kernel([Task(Runnable, 0, true), t], [cpu]), [Out(NoResult), pc], [q, WaitQueue(None, [])], [pipe])
  }

  const NEW_PIPE: Pipe := Pipe(None, false, false, [], [], [])

  function Waiting(cpu: Cpu, t: Task): System {
    Example(cpu, t, Out(NoResult), WaitQueue(None, []), NEW_PIPE)
  }

  lemma GoOn(s: System, step: Step, s': System)
    requires Reachable(s) && Enabled(s, step) && After(s, step) == s'
    ensures Reachable(s')
  {
    ReachableStep(s, step);
  }

  lemma ExampleBegins()
    ensures Reachable(Waiting(Cpu(None, [], 0, Head(None)), Task(Blank, 0, true)))
  {
    var s := Waiting(Cpu(None, [], 0, Head(None)), Task(Blank, 0, true));
    assert Initial(s) && Leads(s, [], s);
  }

  lemma ExampleStarts()
    ensures Reachable(Waiting(Cpu(None, [1], 0, Head(None)), Task(Runnable, 0, true)))
  {
    ExampleBegins();
    var s := Waiting(Cpu(None, [], 0, Head(None)), Task(Blank, 0, true));
    var s' := Waiting(Cpu(None, [1], 0, Head(None)), Task(Runnable, 0, true));
    var k1 := s.k.(tasks := s.k.tasks[1 := s.k.tasks[1].(status := Runnable, resumable := true)]);
    assert !Linked(k1, 1);
    assert [] + [1] == [1];
    assert Start(s.k, 1).cpus == s'.k.cpus && Start(s.k, 1).tasks == s'.k.tasks;
    GoOn(s, StepStart(1), s');
  }

  lemma ExampleSchedules(cpu: Cpu, t: Task, cpu': Cpu, t': Task)
    requires Reachable(Waiting(cpu, t))
    requires Schedule(Waiting(cpu, t).k, 0) == Waiting(cpu', t').k
    ensures Reachable(Waiting(cpu', t'))
  {
    GoOn(Waiting(cpu, t), StepSchedule(0), Waiting(cpu', t'));
  }

  lemma ExampleTakesNext()
    ensures Reachable(Waiting(Cpu(Some(1), [], 0, Pick), Task(Runnable, 0, true)))
  {
    var t, c1 := Task(Runnable, 0, true), Cpu(None, [1], 0, Head(None));
    var c2, c3 := Cpu(None, [1], 0, Swap), Cpu(Some(1), [], 0, Pick);
    ExampleStarts();
    assert Schedule(Waiting(c1, t).k, 0).cpus == [c2];
    ExampleSchedules(c1, t, c2, t);
    assert [1][1..] == [];
    assert Schedule(Waiting(c2, t).k, 0).cpus == [c3];
    ExampleSchedules(c2, t, c3, t);
  }

  lemma ExamplePicks()
    ensures Reachable(Waiting(Cpu(Some(1), [], 0, Head(None)), Task(Runnable, 0, true)))
  {
    var t, c3, c4 := Task(Runnable, 0, true), Cpu(Some(1), [], 0, Pick), Cpu(Some(1), [], 0, Head(None));
    ExampleTakesNext();
    assert Schedule(Waiting(c3, t).k, 0).cpus == [c4];
    ExampleSchedules(c3, t, c4, t);
  }

  /** The started task comes to execute. */
  lemma ExampleExecutes()
    ensures Reachable(Waiting(Cpu(Some(1), [], 0, Run), Task(Runnable, 0, false)))
  {
    var t, c4 := Task(Runnable, 0, true), Cpu(Some(1), [], 0, Head(None));
    var c5, t5 := Cpu(Some(1), [], 0, Run), Task(Runnable, 0, false);
    ExamplePicks();
    assert Schedule(Waiting(c4, t).k, 0).cpus == [c5];
    assert Schedule(Waiting(c4, t).k, 0).tasks == Waiting(c5, t5).k.tasks;
    ExampleSchedules(c4, t, c5, t5);
  }

  /** The other task executing, at `pc`. */
  function Acting(status: Status, pc: Pc, q: WaitQueue, pipe: Pipe): System {
    Example(Cpu(Some(1), [], 0, Run), Task(status, 0, false), pc, q, pipe)
  }

  lemma ExampleReads(op: Op)
    requires op == Read(0, 1)
    ensures Reachable(Acting(Runnable, Prepare(op), WaitQueue(None, []), NEW_PIPE.(holder := Some(1))))
  {
    ExampleExecutes();
    var s := Acting(Runnable, Out(NoResult), WaitQueue(None, []), NEW_PIPE);
    var s' := Acting(Runnable, Prepare(op), WaitQueue(None, []), NEW_PIPE.(holder := Some(1)));
    assert Begin(s, 1, op).pcs == s'.pcs && Begin(s, 1, op).pipes == s'.pipes;
    GoOn(s, StepBegin(1, op), s');
  }

  lemma ExamplePrepares(op: Op)
    requires op == Read(0, 1)
    ensures Reachable(Acting(Blocked, Check(op), WaitQueue(None, [1]), NEW_PIPE.(holder := Some(1))))
  {
    ExampleReads(op);
    var s := Acting(Runnable, Prepare(op), WaitQueue(None, []), NEW_PIPE.(holder := Some(1)));
    var s' := Acting(Blocked, Check(op), WaitQueue(None, [1]), NEW_PIPE.(holder := Some(1)));
    assert [] + [1] == [1];
    var d := DoPrepare(s, 1);
    assert d.pcs == s'.pcs && d.queues == s'.queues && d.k.tasks == s'.k.tasks;
    GoOn(s, StepAdvance(1), s');
  }

  lemma ExampleYields(op: Op)
    requires op == Read(0, 1)
    ensures Reachable(Acting(Blocked, Yielding(op), WaitQueue(None, [1]), NEW_PIPE))
  {
    ExamplePrepares(op);
    var s := Acting(Blocked, Check(op), WaitQueue(None, [1]), NEW_PIPE.(holder := Some(1)));
    var s' := Acting(Blocked, Yielding(op), WaitQueue(None, [1]), NEW_PIPE);
    assert DoCheck(s, 1).pcs == s'.pcs && DoCheck(s, 1).pipes == s'.pipes;
    GoOn(s, StepAdvance(1), s');
  }

  /** And, reading from the empty pipe, to sleep: sleepers do occur. */
  lemma ExampleSleeps()
    ensures exists s: System :: Reachable(s) && Sleeps(s, 1)
  {
    ExampleYields(Read(0, 1));
    assert Sleeps(Acting(Blocked, Yielding(Read(0, 1)), WaitQueue(None, [1]), NEW_PIPE), 1);
  }
}
