/**
 * Run queues and the scheduler loop (k-cpu.cc, kernel.hh), as a state machine: every region
 * guarded by a run-queue lock is one step, and steps of different CPUs interleave freely.
 */
module Sched {
  import opened Collections

  /** `Blank` tasks have not been started. */
  datatype Status = Blank | Runnable | Blocked

  /** `resumable`: the task's registers or yield state are saved, so it can be resumed. */
  datatype Task = Task(status: Status, cpu: nat, resumable: bool)

  /**
   * Where a CPU stands: executing its current task, or in the scheduler loop at its head, before
   * the locked region, or after it.
   */
  datatype Phase = Run | Head(yieldingFrom: Option<nat>) | Swap | Pick

  datatype Cpu = Cpu(current: Option<nat>, runq: seq<nat>, idle: nat, phase: Phase)

  datatype Kernel = Kernel(tasks: seq<Task>, cpus: seq<Cpu>)

  // ---------------------------------------------------------------- steps

  predicate Linked(k: Kernel, t: nat) {
    exists c :: 0 <= c < |k.cpus| && t in k.cpus[c].runq
  }

  predicate Executing(k: Kernel, t: nat) {
    && t < |k.tasks| && k.tasks[t].cpu < |k.cpus|
    && var cpu := k.cpus[k.tasks[t].cpu]; cpu.phase.Run? && cpu.current == Some(t)
  }

  /** `cpustate::enqueue`. */
  function Enqueue(k: Kernel, c: nat, t: nat): Kernel
    requires c < |k.cpus|
  {
    if k.cpus[c].current != Some(t) && !Linked(k, t)
    then k.(cpus := k.cpus[c := k.cpus[c].(runq := k.cpus[c].runq + [t])])
    else k
  }

  /** The assertion inside `enqueue`. */
  predicate EnqueueAssertion(k: Kernel, c: nat, t: nat)
    requires c < |k.cpus| && t < |k.tasks|
  {
    k.cpus[c].current != Some(t) && !Linked(k, t) ==> k.tasks[t].resumable || !k.tasks[t].status.Runnable?
  }

  function SetStatus(k: Kernel, t: nat, status: Status): Kernel
    requires t < |k.tasks|
  {
    k.(tasks := k.tasks[t := k.tasks[t].(status := status)])
  }

  /** `proc::wake`. */
  function Wake(k: Kernel, t: nat): Kernel
    requires t < |k.tasks| && k.tasks[t].cpu < |k.cpus|
  {
    if k.tasks[t].status.Blocked? then Enqueue(SetStatus(k, t, Runnable), k.tasks[t].cpu, t) else k
  }

  /** The first time a task is put on a run queue, its registers having been set up. */
  function Start(k: Kernel, t: nat): Kernel
    requires t < |k.tasks| && k.tasks[t].cpu < |k.cpus|
  {
    Enqueue(k.(tasks := k.tasks[t := k.tasks[t].(status := Runnable, resumable := true)]), k.tasks[t].cpu, t)
  }

  /** The executing task saves its state and enters the scheduler: `proc::yield`, or an interrupt. */
  function Leave(k: Kernel, t: nat): Kernel
    requires Executing(k, t)
  {
    var c := k.tasks[t].cpu;
    Kernel(k.tasks[t := k.tasks[t].(resumable := true)], k.cpus[c := k.cpus[c].(phase := Head(Some(t)))])
  }

  /** The test at the head of the loop: resume the current task, or go on to the locked region. */
  function AtHead(k: Kernel, c: nat): Kernel
    requires c < |k.cpus| && k.cpus[c].phase.Head?
  {
    var cpu := k.cpus[c];
    if cpu.current.Some? && cpu.current.value < |k.tasks|
       && k.tasks[cpu.current.value].status.Runnable? && cpu.current != cpu.phase.yieldingFrom
    then Kernel(k.tasks[cpu.current.value := k.tasks[cpu.current.value].(resumable := false)],
                k.cpus[c := cpu.(phase := Run)])
    else k.(cpus := k.cpus[c := cpu.(phase := Swap)])
  }

  /** The locked region up to the re-enqueueing of the task given up. */
  function PutBack(k: Kernel, c: nat): Kernel
    requires c < |k.cpus|
  {
    var cpu := k.cpus[c];
    if cpu.current.None? then k
    else
      var p := cpu.current.value;
      var k' := k.(cpus := k.cpus[c := cpu.(current := None)]);
      if p < |k.tasks| && k.tasks[p].status.Runnable? then Enqueue(k', c, p) else k'
  }

  /** The rest of the locked region: take the head of the run queue. */
  function TakeNext(k: Kernel, c: nat): Kernel
    requires c < |k.cpus|
  {
    var cpu := k.cpus[c];
    k.(cpus := k.cpus[c := if cpu.runq == [] then cpu.(phase := Pick)
                           else cpu.(current := Some(cpu.runq[0]), runq := cpu.runq[1..], phase := Pick)])
  }

  /** After the locked region: fall back on the idle task. */
  function AfterSwap(k: Kernel, c: nat): Kernel
    requires c < |k.cpus|
  {
    var cpu := k.cpus[c];
    var current := if cpu.current.None? then Some(cpu.idle) else cpu.current;
    k.(cpus := k.cpus[c := cpu.(current := current, phase := Head(None))])
  }

  function Schedule(k: Kernel, c: nat): (k': Kernel)
    requires c < |k.cpus|
    ensures |k'.tasks| == |k.tasks| && |k'.cpus| == |k.cpus|
  {
    match k.cpus[c].phase
    case Run => k
    case Head(_) => AtHead(k, c)
    case Swap => TakeNext(PutBack(k, c), c)
    case Pick => AfterSwap(k, c)
  }

  // ---------------------------------------------------------------- invariant

  ghost predicate CurrentOk(k: Kernel, c: nat)
    requires c < |k.cpus|
  {
    var cpu := k.cpus[c];
    && (cpu.current.Some? ==>
          && cpu.current.value < |k.tasks| && k.tasks[cpu.current.value].cpu == c
          && !k.tasks[cpu.current.value].status.Blank?
          && (k.tasks[cpu.current.value].resumable <==> !cpu.phase.Run?))
    && (cpu.current.None? ==> cpu.idle !in cpu.runq && !cpu.phase.Run?)
    && (cpu.phase.Head? && cpu.phase.yieldingFrom.Some? ==> cpu.phase.yieldingFrom == cpu.current)
  }

  ghost predicate QueuedOk(k: Kernel, c: nat, t: nat)
    requires c < |k.cpus|
  {
    && t < |k.tasks| && k.tasks[t].cpu == c && k.tasks[t].status.Runnable? && k.tasks[t].resumable
    && k.cpus[c].current != Some(t)
  }

  ghost predicate CpuOk(k: Kernel, c: nat)
    requires c < |k.cpus|
  {
    var cpu := k.cpus[c];
    && cpu.idle < |k.tasks| && k.tasks[cpu.idle].cpu == c && k.tasks[cpu.idle].status.Runnable?
    && CurrentOk(k, c) && Distinct(cpu.runq)
    && forall t :: t in cpu.runq ==> QueuedOk(k, c, t)
  }

  ghost predicate IsIdle(k: Kernel, t: nat) {
    t < |k.tasks| && k.tasks[t].cpu < |k.cpus| && t == k.cpus[k.tasks[t].cpu].idle
  }

  ghost predicate TaskOk(k: Kernel, t: nat)
    requires t < |k.tasks|
  {
    var c := k.tasks[t].cpu;
    && c < |k.cpus|
    && (!k.tasks[t].status.Blank? && !Executing(k, t) ==> k.tasks[t].resumable)
    && (k.tasks[t].status.Runnable? && !IsIdle(k, t) ==> k.cpus[c].current == Some(t) || t in k.cpus[c].runq)
  }

  ghost predicate KernelOk(k: Kernel) {
    && (forall c :: 0 <= c < |k.cpus| ==> CpuOk(k, c))
    && (forall t :: 0 <= t < |k.tasks| ==> TaskOk(k, t))
  }

  /** Every CPU about to enter the scheduler loop for the first time, its idle task set up. */
  ghost predicate Init(k: Kernel) {
    && (forall c :: 0 <= c < |k.cpus| ==>
          var cpu := k.cpus[c];
          && cpu.current == None && cpu.runq == [] && cpu.phase == Head(None)
          && cpu.idle < |k.tasks| && k.tasks[cpu.idle] == Task(Runnable, c, true))
    && (forall t :: 0 <= t < |k.tasks| ==>
          k.tasks[t].cpu < |k.cpus| && (k.tasks[t].status.Blank? || IsIdle(k, t)) && k.tasks[t].resumable)
  }

  lemma InitOk(k: Kernel)
    requires Init(k)
    ensures KernelOk(k)
  {
  }

  /** A task is on a run queue only if it is on that of its own CPU. */
  lemma LinkedHere(k: Kernel, t: nat)
    requires KernelOk(k) && t < |k.tasks|
    ensures k.tasks[t].cpu < |k.cpus| && (Linked(k, t) <==> t in k.cpus[k.tasks[t].cpu].runq)
  {
    assert TaskOk(k, t);
    forall c | 0 <= c < |k.cpus| && t in k.cpus[c].runq ensures c == k.tasks[t].cpu {
      assert CpuOk(k, c);
      assert QueuedOk(k, c, t);
    }
  }

  predicate QueuedAt(k: Kernel, c: int, i: int, t: nat) {
    0 <= c < |k.cpus| && 0 <= i < |k.cpus[c].runq| && k.cpus[c].runq[i] == t
  }

  /** A task that is blocked or not yet started is on no run queue. */
  lemma NotQueued(k: Kernel, t: nat)
    requires KernelOk(k) && t < |k.tasks| && !k.tasks[t].status.Runnable?
    ensures !Linked(k, t)
  {
    forall c | 0 <= c < |k.cpus| ensures t !in k.cpus[c].runq {
      assert CpuOk(k, c);
    }
  }

  /**
   * Run-queue safety: a task stands in at most one run queue, once, that of its own CPU, never
   * while it is current, and a runnable task that has been started is current or queued.
   */
  lemma RunQueueSafety(k: Kernel, t: nat)
    requires KernelOk(k) && t < |k.tasks|
    ensures k.tasks[t].cpu < |k.cpus|
    ensures forall c, i, c', i' :: QueuedAt(k, c, i, t) && QueuedAt(k, c', i', t) ==> c == c' && i == i'
    ensures forall c :: 0 <= c < |k.cpus| && t in k.cpus[c].runq ==> c == k.tasks[t].cpu && k.cpus[c].current != Some(t)
    ensures forall c :: 0 <= c < |k.cpus| && k.cpus[c].current == Some(t) ==> c == k.tasks[t].cpu
    ensures k.tasks[t].status.Runnable? && !IsIdle(k, t) ==>
              var cpu := k.cpus[k.tasks[t].cpu]; cpu.current == Some(t) || t in cpu.runq
  {
    assert TaskOk(k, t);
    forall c | 0 <= c < |k.cpus| && t in k.cpus[c].runq ensures c == k.tasks[t].cpu && k.cpus[c].current != Some(t) {
      assert CpuOk(k, c);
      assert QueuedOk(k, c, t);
    }
    forall c | 0 <= c < |k.cpus|
      ensures Distinct(k.cpus[c].runq) && (k.cpus[c].current == Some(t) ==> c == k.tasks[t].cpu)
    {
      assert CpuOk(k, c);
    }
  }

  // ---------------------------------------------------------------- every step keeps it

  /** Two kernels agree on what the invariant says about the other CPUs and tasks. */
  ghost predicate SameElsewhere(k: Kernel, k': Kernel, c: nat, t: nat) {
    && |k'.tasks| == |k.tasks| && |k'.cpus| == |k.cpus|
    && (forall u :: 0 <= u < |k.tasks| && u != t ==> k'.tasks[u] == k.tasks[u])
    && (forall d :: 0 <= d < |k.cpus| && d != c ==> k'.cpus[d] == k.cpus[d])
    && c < |k.cpus| && t < |k.tasks| && k.tasks[t].cpu == k'.tasks[t].cpu == c && k'.cpus[c].idle == k.cpus[c].idle
  }

  /** A step of CPU `c` that concerns its task `t` need only be checked there. */
  lemma LocalStep(k: Kernel, k': Kernel, c: nat, t: nat)
    requires KernelOk(k) && SameElsewhere(k, k', c, t)
    requires CpuOk(k', c) && TaskOk(k', t)
    requires forall u :: 0 <= u < |k.tasks| && u != t && k.tasks[u].cpu == c ==>
               && (k'.cpus[c].current == Some(u) || u in k'.cpus[c].runq <==>
                   k.cpus[c].current == Some(u) || u in k.cpus[c].runq)
               && (Executing(k, u) ==> Executing(k', u) || k'.tasks[u].resumable)
    ensures KernelOk(k')
  {
    forall d | 0 <= d < |k'.cpus| ensures CpuOk(k', d) {
      assert CpuOk(k, d);
      if d != c {
        forall u | u in k'.cpus[d].runq ensures QueuedOk(k', d, u) {
          assert QueuedOk(k, d, u);
        }
      }
    }
    forall u | 0 <= u < |k'.tasks| ensures TaskOk(k', u) {
      assert TaskOk(k, u);
    }
  }

  lemma EnqueuedCpu(k: Kernel, c: nat, t: nat)
    requires c < |k.cpus| && CpuOk(k, c) && t < |k.tasks| && !Linked(k, t)
    requires k.tasks[t].cpu == c && k.tasks[t].status.Runnable? && k.tasks[t].resumable && k.cpus[c].current != Some(t)
    requires k.cpus[c].current.None? ==> t != k.cpus[c].idle
    ensures CpuOk(Enqueue(k, c, t), c)
  {
  }

  /** The executing task may change its own status between runnable and blocked. */
  lemma SetStatusKeeps(k: Kernel, t: nat, status: Status)
    requires KernelOk(k) && Executing(k, t) && !status.Blank? && !IsIdle(k, t)
    ensures KernelOk(SetStatus(k, t, status))
  {
    var k', c := SetStatus(k, t, status), k.tasks[t].cpu;
    assert CpuOk(k, c);
    forall u | u in k'.cpus[c].runq ensures QueuedOk(k', c, u) {
      assert QueuedOk(k, c, u);
    }
    LocalStep(k, k', c, t);
  }

  lemma LeaveKeeps(k: Kernel, t: nat)
    requires KernelOk(k) && Executing(k, t)
    ensures KernelOk(Leave(k, t))
  {
    var k', c := Leave(k, t), k.tasks[t].cpu;
    assert CpuOk(k, c) && TaskOk(k, t);
    forall u | u in k'.cpus[c].runq ensures QueuedOk(k', c, u) {
      assert QueuedOk(k, c, u);
    }
    LocalStep(k, k', c, t);
  }

  /** The task that `enqueue` is handed can be resumed. */
  lemma WakeKeeps(k: Kernel, t: nat)
    requires KernelOk(k) && t < |k.tasks|
    ensures k.tasks[t].cpu < |k.cpus| && KernelOk(Wake(k, t))
    ensures k.tasks[t].status.Blocked? ==> EnqueueAssertion(SetStatus(k, t, Runnable), k.tasks[t].cpu, t)
    ensures Executing(k, t) ==> Executing(Wake(k, t), t)
  {
    assert TaskOk(k, t);
    var c := k.tasks[t].cpu;
    assert CpuOk(k, c);
    if k.tasks[t].status.Blocked? {
      NotQueued(k, t);
      var k1, k' := SetStatus(k, t, Runnable), Wake(k, t);
      assert Linked(k1, t) <==> Linked(k, t);
      forall u | u in k1.cpus[c].runq ensures QueuedOk(k1, c, u) {
        assert QueuedOk(k, c, u);
      }
      if k.cpus[c].current != Some(t) {
        EnqueuedCpu(k1, c, t);
      }
      LocalStep(k, k', c, t);
    }
  }

  lemma StartKeeps(k: Kernel, t: nat)
    requires KernelOk(k) && t < |k.tasks| && k.tasks[t].status.Blank?
    ensures k.tasks[t].cpu < |k.cpus| && KernelOk(Start(k, t))
  {
    assert TaskOk(k, t);
    var c := k.tasks[t].cpu;
    assert CpuOk(k, c);
    NotQueued(k, t);
    var k1, k' := k.(tasks := k.tasks[t := k.tasks[t].(status := Runnable, resumable := true)]), Start(k, t);
    assert Linked(k1, t) <==> Linked(k, t);
    forall u | u in k1.cpus[c].runq ensures QueuedOk(k1, c, u) {
      assert QueuedOk(k, c, u);
    }
    EnqueuedCpu(k1, c, t);
    LocalStep(k, k', c, t);
  }

  lemma AtHeadKeeps(k: Kernel, c: nat)
    requires KernelOk(k) && c < |k.cpus| && k.cpus[c].phase.Head?
    ensures KernelOk(AtHead(k, c))
  {
    var k', cpu := AtHead(k, c), k.cpus[c];
    assert CpuOk(k, c);
    var t := if cpu.current.Some? then cpu.current.value else cpu.idle;
    assert TaskOk(k, t);
    forall u | u in k'.cpus[c].runq ensures QueuedOk(k', c, u) {
      assert QueuedOk(k, c, u);
    }
    LocalStep(k, k', c, t);
  }

  /** Between giving up one task and taking the next. */
  ghost predicate Vacant(k: Kernel, c: nat)
    requires c < |k.cpus|
  {
    && k.cpus[c].current.None? && k.cpus[c].phase.Swap?
    && k.cpus[c].idle < |k.tasks| && k.tasks[k.cpus[c].idle].cpu == c && k.tasks[k.cpus[c].idle].status.Runnable?
    && Distinct(k.cpus[c].runq) && forall t :: t in k.cpus[c].runq ==> QueuedOk(k, c, t)
  }

  lemma PutBackVacant(k: Kernel, c: nat)
    requires KernelOk(k) && c < |k.cpus| && k.cpus[c].phase.Swap?
    ensures var k' := PutBack(k, c);
            && |k'.cpus| == |k.cpus| && k'.tasks == k.tasks && Vacant(k', c) && k'.cpus[c].idle == k.cpus[c].idle
            && (forall d :: 0 <= d < |k.cpus| && d != c ==> k'.cpus[d] == k.cpus[d])
            && (forall u: nat :: u in k'.cpus[c].runq <==>
                  u in k.cpus[c].runq || (k.cpus[c].current == Some(u) && u < |k.tasks| && k.tasks[u].status.Runnable?))
  {
    assert CpuOk(k, c);
    var cpu := k.cpus[c];
    if cpu.current.Some? {
      var p := cpu.current.value;
      LinkedHere(k, p);
      assert p in cpu.runq ==> QueuedOk(k, c, p);
      var k1 := k.(cpus := k.cpus[c := cpu.(current := None)]);
      forall d | 0 <= d < |k.cpus| ensures k1.cpus[d].runq == k.cpus[d].runq {
      }
      assert !Linked(k1, p);
    }
    var k' := PutBack(k, c);
    forall t | t in k'.cpus[c].runq ensures QueuedOk(k', c, t) {
      assert t in cpu.runq ==> QueuedOk(k, c, t);
    }
  }

  /** The task put back can be resumed. */
  lemma PutBackAssertion(k: Kernel, c: nat)
    requires KernelOk(k) && c < |k.cpus| && k.cpus[c].phase.Swap? && k.cpus[c].current.Some?
    ensures k.cpus[c].current.value < |k.tasks|
    ensures EnqueueAssertion(k.(cpus := k.cpus[c := k.cpus[c].(current := None)]), c, k.cpus[c].current.value)
  {
    assert CpuOk(k, c);
  }

  lemma SwapKeeps(k: Kernel, c: nat)
    requires KernelOk(k) && c < |k.cpus| && k.cpus[c].phase.Swap?
    ensures KernelOk(Schedule(k, c))
  {
    PutBackVacant(k, c);
    var k1, k' := PutBack(k, c), Schedule(k, c);
    var q := k1.cpus[c].runq;
    forall u | u in k'.cpus[c].runq ensures QueuedOk(k', c, u) {
      assert u in q && QueuedOk(k1, c, u);
    }
    if q != [] {
      assert QueuedOk(k1, c, q[0]);
    }
    assert CpuOk(k', c);
    forall d | 0 <= d < |k'.cpus| && d != c ensures CpuOk(k', d) {
      assert CpuOk(k, d);
      forall u | u in k'.cpus[d].runq ensures QueuedOk(k', d, u) {
        assert QueuedOk(k, d, u);
      }
    }
    forall u: nat | u < |k'.tasks| ensures TaskOk(k', u) {
      assert TaskOk(k, u);
      assert q != [] ==> (u in q <==> u == q[0] || u in q[1..]);
      assert CpuOk(k, k.tasks[u].cpu);
      assert CurrentOk(k, k.tasks[u].cpu);
    }
  }

  lemma PickKeeps(k: Kernel, c: nat)
    requires KernelOk(k) && c < |k.cpus| && k.cpus[c].phase.Pick?
    ensures KernelOk(Schedule(k, c))
  {
    var k', cpu := Schedule(k, c), k.cpus[c];
    assert CpuOk(k, c);
    var t := if cpu.current.Some? then cpu.current.value else cpu.idle;
    assert TaskOk(k, t);
    forall u | u in k'.cpus[c].runq ensures QueuedOk(k', c, u) {
      assert QueuedOk(k, c, u);
    }
    LocalStep(k, k', c, t);
  }

  /** Every turn of the scheduler loop keeps the invariant. */
  lemma ScheduleKeeps(k: Kernel, c: nat)
    requires KernelOk(k) && c < |k.cpus|
    ensures KernelOk(Schedule(k, c))
  {
    match k.cpus[c].phase
    case Run =>
    case Head(_) => AtHeadKeeps(k, c);
    case Swap => SwapKeeps(k, c);
    case Pick => PickKeeps(k, c);
  }

  /** No other task's status, and no other executing task, is touched by the scheduler of `c`. */
  lemma ScheduleFrame(k: Kernel, c: nat, u: nat)
    requires KernelOk(k) && c < |k.cpus| && u < |k.tasks|
    ensures Schedule(k, c).tasks[u].status == k.tasks[u].status && Schedule(k, c).tasks[u].cpu == k.tasks[u].cpu
    ensures Executing(k, u) ==> Executing(Schedule(k, c), u)
    ensures IsIdle(k, u) <==> IsIdle(Schedule(k, c), u)
  {
    assert TaskOk(k, u) && CpuOk(k, c);
    if k.cpus[c].phase.Swap? {
      PutBackVacant(k, c);
    }
  }

  predicate CurrentRunnable(k: Kernel, c: nat)
    requires c < |k.cpus|
  {
    var cur := k.cpus[c].current;
    cur.Some? && cur.value < |k.tasks| && k.tasks[cur.value].status.Runnable?
  }

  /** The idle task is fallen back on only when the run queue was found empty. */
  lemma IdleOnlyIfEmpty(k: Kernel, c: nat)
    requires KernelOk(k) && c < |k.cpus| && k.cpus[c].phase.Swap?
    ensures var k' := Schedule(k, c);
            k'.cpus[c].current.None? <==>
              k.cpus[c].runq == [] && !CurrentRunnable(k, c)
  {
    PutBackVacant(k, c);
    assert CpuOk(k, c);
    var q := PutBack(k, c).cpus[c].runq;
    assert q != [] ==> q[0] in q;
    assert k.cpus[c].runq != [] ==> k.cpus[c].runq[0] in k.cpus[c].runq;
    assert CurrentRunnable(k, c) ==> k.cpus[c].current.value in q;
  }

  // ---------------------------------------------------------------- order of the run queue

  /** No other step moves a queued task back: only its own CPU's switches move it. */
  lemma QueueKept(k: Kernel, c: nat, i: nat, t: nat, u: nat)
    requires KernelOk(k) && c < |k.cpus| && QueuedAt(k, c, i, t) && u < |k.tasks|
    ensures k.tasks[u].cpu < |k.cpus| && QueuedAt(Wake(k, u), c, i, t)
    ensures k.tasks[u].status.Blank? ==> QueuedAt(Start(k, u), c, i, t)
    ensures Executing(k, u) ==> QueuedAt(Leave(k, u), c, i, t)
    ensures forall d: nat :: d < |k.cpus| && (d != c || !k.cpus[c].phase.Swap?) ==> QueuedAt(Schedule(k, d), c, i, t)
  {
    assert TaskOk(k, u);
    forall d: nat | d < |k.cpus| && (d != c || !k.cpus[c].phase.Swap?) ensures QueuedAt(Schedule(k, d), c, i, t) {
      assert CpuOk(k, d);
    }
  }

  /** First in, first out: each switch of its CPU moves a queued task up one place, the first to run. */
  lemma QueueAdvances(k: Kernel, c: nat, i: nat, t: nat)
    requires KernelOk(k) && c < |k.cpus| && QueuedAt(k, c, i, t) && k.cpus[c].phase.Swap?
    ensures i == 0 ==> Schedule(k, c).cpus[c].current == Some(t)
    ensures i > 0 ==> QueuedAt(Schedule(k, c), c, i - 1, t)
  {
  }

  /** The task given up, if runnable, takes the last place. */
  lemma PutBackLast(k: Kernel, c: nat)
    requires KernelOk(k) && c < |k.cpus| && k.cpus[c].phase.Swap? && CurrentRunnable(k, c)
    ensures PutBack(k, c).cpus[c].runq == k.cpus[c].runq + [k.cpus[c].current.value]
  {
    assert CpuOk(k, c);
    var cpu := k.cpus[c];
    LinkedHere(k, cpu.current.value);
    var k1 := k.(cpus := k.cpus[c := cpu.(current := None)]);
    assert forall d :: 0 <= d < |k.cpus| ==> k1.cpus[d].runq == k.cpus[d].runq;
    assert !Linked(k1, cpu.current.value);
  }
}
