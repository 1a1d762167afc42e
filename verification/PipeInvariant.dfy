/**
 * Every step of the protocol of k-wait.hh and k-vfs.cc keeps the invariant of `PipeProtocol`.
 */
module PipeInvariant {
  import opened Collections
  import opened Sched
  import opened PipeProtocol

  // ---------------------------------------------------------------- what a step of one task leaves alone

  /** A lock-protected record is untouched by task `t`, or its lock is free or held by `t` before and after. */
  predicate Mine(h: Option<nat>, h': Option<nat>, t: nat) {
    (h == None || h == Some(t)) && (h' == None || h' == Some(t))
  }

  ghost predicate SameTask(k: Kernel, k': Kernel, u: nat)
    requires u < |k.tasks| && u < |k'.tasks|
  {
    && (k'.tasks[u].status == k.tasks[u].status || (k.tasks[u].status.Blocked? && k'.tasks[u].status.Runnable?))
    && (Executing(k, u) ==> Executing(k', u)) && (IsIdle(k', u) ==> IsIdle(k, u))
  }

  /** A step of task `t`. */
  ghost predicate TaskStep(s: System, s': System, t: nat) {
    && |s'.k.tasks| == |s.k.tasks| == |s.pcs| && Shape(s) && Shape(s') && |s'.pipes| == |s.pipes| && t < |s.pcs|
    && (forall u :: 0 <= u < |s.pcs| && u != t ==> s'.pcs[u] == s.pcs[u] && SameTask(s.k, s'.k, u))
    && (forall p :: 0 <= p < |s.pipes| ==> s'.pipes[p] == s.pipes[p] || Mine(s.pipes[p].holder, s'.pipes[p].holder, t))
    && (forall q :: 0 <= q < |s.queues| ==>
          s'.queues[q] == s.queues[q] || Mine(s.queues[q].holder, s'.queues[q].holder, t))
  }

  lemma HoldersKept(s: System, s': System, t: nat)
    requires HoldersOk(s) && TaskStep(s, s', t)
    ensures HoldersOk(s')
  {
  }

  lemma LocksKept(s: System, s': System, t: nat)
    requires Inv(s) && TaskStep(s, s', t) && LocksOk(s', t)
    ensures forall u :: 0 <= u < |s'.pcs| ==> LocksOk(s', u)
  {
    forall u | 0 <= u < |s'.pcs| && u != t ensures LocksOk(s', u) {
      assert LocksOk(s, u) && SameTask(s.k, s'.k, u);
    }
  }

  lemma PcsKept(s: System, s': System, t: nat)
    requires Inv(s) && TaskStep(s, s', t) && PcOk(s', t)
    ensures forall u :: 0 <= u < |s'.pcs| ==> PcOk(s', u)
  {
    forall u | 0 <= u < |s'.pcs| && u != t ensures PcOk(s', u) {
      assert PcOk(s, u) && LocksOk(s, u) && SameTask(s.k, s'.k, u);
      assert s.pcs[u].Accepted? || s.pcs[u].Transfer? ==> HoldsPipe(s.pcs[u], s.pcs[u].op.pipe);
    }
  }

  /** Steps that leave the wait queues alone. */
  lemma QueuesKept(s: System, s': System, t: nat)
    requires Inv(s) && TaskStep(s, s', t) && s'.queues == s.queues && !s.pcs[t].Waking?
    requires Waits(s.pcs[t]) ==> Waits(s'.pcs[t]) && s'.pcs[t].op == s.pcs[t].op
    requires s'.k.tasks[t].status.Blocked? ==> s.k.tasks[t].status.Blocked?
    ensures forall u :: 0 <= u < |s'.pcs| ==> WaitOk(s', u)
    ensures forall q :: 0 <= q < |s'.queues| ==> QueueOk(s', q)
  {
    assert LocksOk(s, t);
    forall u | 0 <= u < |s'.pcs| ensures WaitOk(s', u) {
      assert WaitOk(s, u);
      assert u != t ==> SameTask(s.k, s'.k, u);
      if s'.k.tasks[u].status.Blocked? {
        assert InHand(s, QueueOf(s.pcs[u].op), u) ==> InHand(s', QueueOf(s.pcs[u].op), u);
      }
    }
    forall q | 0 <= q < |s'.queues| ensures QueueOk(s', q) {
      assert QueueOk(s, q);
    }
  }

  /** A predicate turns true only in a step that owes its waiters a `wake_all`. */
  ghost predicate ReadyOnlyIfNotified(s: System, s': System, t: nat)
    requires t < |s'.pcs| && |s.pipes| == |s'.pipes|
  {
    forall op: Op :: op.pipe < |s.pipes| && Ready(s'.pipes[op.pipe], op) ==>
      Ready(s.pipes[op.pipe], op) || Notifies(s'.pcs[t], QueueOf(op))
  }

  lemma WakeupsKept(s: System, s': System, t: nat)
    requires Inv(s) && TaskStep(s, s', t) && NotLost(s', t) && ReadyOnlyIfNotified(s, s', t)
    requires forall q :: Notifies(s.pcs[t], q) ==> Notifies(s'.pcs[t], q)
    ensures forall u :: 0 <= u < |s'.pcs| ==> NotLost(s', u)
  {
    forall u | 0 <= u < |s'.pcs| && u != t ensures NotLost(s', u) {
      assert NotLost(s, u) && SameTask(s.k, s'.k, u);
      if s'.k.tasks[u].status.Blocked? && SawFalse(s'.pcs[u]) && Ready(s'.pipes[s'.pcs[u].op.pipe], s'.pcs[u].op) {
        var q := QueueOf(s.pcs[u].op);
        if Ready(s.pipes[s.pcs[u].op.pipe], s.pcs[u].op) {
          var w :| 0 <= w < |s.pcs| && Notifies(s.pcs[w], q);
          assert Notifies(s'.pcs[w], q);
        } else {
          assert Notifies(s'.pcs[t], q);
        }
      }
    }
  }

  /** Somebody who owes queue `q` a wake-up still does after a step of another task. */
  lemma PendingKept(s: System, s': System, t: nat, q: nat)
    requires t < |s.pcs| && |s'.pcs| == |s.pcs| && forall u :: 0 <= u < |s.pcs| && u != t ==> s'.pcs[u] == s.pcs[u]
    requires Pending(s, q) && (Notifies(s.pcs[t], q) ==> Notifies(s'.pcs[t], q))
    ensures Pending(s', q)
  {
  }

  /** What is left to check of a step of task `t` that leaves the wait queues alone. */
  ghost predicate QuietStep(s: System, s': System, t: nat) {
    && TaskStep(s, s', t) && s'.queues == s.queues && !s.pcs[t].Waking?
    && (Waits(s.pcs[t]) ==> Waits(s'.pcs[t]) && s'.pcs[t].op == s.pcs[t].op)
    && (s'.k.tasks[t].status.Blocked? ==> s.k.tasks[t].status.Blocked?)
    && LocksOk(s', t) && PcOk(s', t) && NotLost(s', t) && ReadyOnlyIfNotified(s, s', t)
    && (forall q :: Notifies(s.pcs[t], q) ==> Notifies(s'.pcs[t], q))
    && (forall p :: 0 <= p < |s.pipes| ==> PipeOk(s.pipes[p]) ==> PipeOk(s'.pipes[p]))
  }

  lemma QuietKeeps(s: System, s': System, t: nat)
    requires Inv(s) && KernelOk(s'.k) && QuietStep(s, s', t)
    ensures Inv(s')
  {
    HoldersKept(s, s', t);
    LocksKept(s, s', t);
    PcsKept(s, s', t);
    QueuesKept(s, s', t);
    WakeupsKept(s, s', t);
  }

  // ---------------------------------------------------------------- every step keeps the invariant

  /** What a step of the executing task `t` relies on. */
  ghost predicate Local(s: System, t: nat) {
    && Shape(s) && t < |s.pcs| && Executing(s.k, t) && !s.k.tasks[t].status.Blank?
    && LocksOk(s, t) && PcOk(s, t) && WaitOk(s, t) && NotLost(s, t)
  }

  lemma ExecutingIsLocal(s: System, t: nat)
    requires Inv(s) && t < |s.pcs| && Executing(s.k, t)
    ensures Local(s, t)
  {
    assert Sched.CpuOk(s.k, s.k.tasks[t].cpu);
  }

  lemma BeginStep(s: System, t: nat, op: Op)
    requires Local(s, t) && Enabled(s, StepBegin(t, op)) && PipeOk(s.pipes[op.pipe])
    ensures QuietStep(s, Begin(s, t, op), t)
  {
  }

  lemma BeginKeeps(s: System, t: nat, op: Op)
    requires Inv(s) && Enabled(s, StepBegin(t, op))
    ensures Inv(Begin(s, t, op))
  {
    ExecutingIsLocal(s, t);
    BeginStep(s, t, op);
    QuietKeeps(s, Begin(s, t, op), t);
  }

  lemma BeginCloseStep(s: System, t: nat, p: nat, reader: bool, writer: bool)
    requires Local(s, t) && Enabled(s, StepClose(t, p, reader, writer))
    ensures QuietStep(s, BeginClose(s, t, p, reader, writer), t)
  {
  }

  lemma BeginCloseKeeps(s: System, t: nat, p: nat, reader: bool, writer: bool)
    requires Inv(s) && Enabled(s, StepClose(t, p, reader, writer))
    ensures Inv(BeginClose(s, t, p, reader, writer))
  {
    ExecutingIsLocal(s, t);
    BeginCloseStep(s, t, p, reader, writer);
    QuietKeeps(s, BeginClose(s, t, p, reader, writer), t);
  }

  lemma CheckStep(s: System, t: nat)
    requires Local(s, t) && Enabled(s, StepAdvance(t)) && s.pcs[t].Check?
    ensures QuietStep(s, DoCheck(s, t), t)
  {
  }

  lemma CheckKeeps(s: System, t: nat)
    requires Inv(s) && Enabled(s, StepAdvance(t)) && s.pcs[t].Check?
    ensures Inv(DoCheck(s, t))
  {
    ExecutingIsLocal(s, t);
    CheckStep(s, t);
    QuietKeeps(s, DoCheck(s, t), t);
  }

  lemma RelockStep(s: System, t: nat)
    requires Local(s, t) && Enabled(s, StepAdvance(t)) && s.pcs[t].Relock?
    ensures QuietStep(s, DoRelock(s, t), t)
  {
  }

  lemma RelockKeeps(s: System, t: nat)
    requires Inv(s) && Enabled(s, StepAdvance(t)) && s.pcs[t].Relock?
    ensures Inv(DoRelock(s, t))
  {
    ExecutingIsLocal(s, t);
    RelockStep(s, t);
    QuietKeeps(s, DoRelock(s, t), t);
  }

  /** Reading makes room and owes writers a wake-up; writing supplies bytes and owes readers one. */
  lemma TransferReady(pipe: Pipe, op: Op, other: Op)
    requires other.pipe == op.pipe && PipeOk(pipe) && Ready(pipe, op)
    ensures var (pipe', r) := Transferred(pipe, op);
            && PipeOk(pipe') && r != Failed
            && (Ready(pipe', other) ==> Ready(pipe, other) || (r.Count? && QueueOf(other) == OtherQueue(op)))
  {
  }

  lemma TransferStep(s: System, t: nat)
    requires Local(s, t) && s.pcs[t].Transfer? && PipeOk(s.pipes[s.pcs[t].op.pipe])
    ensures QuietStep(s, DoTransfer(s, t), t)
  {
    var op := s.pcs[t].op;
    TransferReady(s.pipes[op.pipe], op, op);
    forall other: Op | other.pipe == op.pipe && Ready(DoTransfer(s, t).pipes[op.pipe], other)
      ensures Ready(s.pipes[op.pipe], other) || Notifies(DoTransfer(s, t).pcs[t], QueueOf(other))
    {
      TransferReady(s.pipes[op.pipe], op, other);
    }
  }

  lemma TransferKeeps(s: System, t: nat)
    requires Inv(s) && Enabled(s, StepAdvance(t)) && s.pcs[t].Transfer?
    ensures Inv(DoTransfer(s, t))
  {
    ExecutingIsLocal(s, t);
    TransferStep(s, t);
    QuietKeeps(s, DoTransfer(s, t), t);
  }

  lemma CloseReadStep(s: System, t: nat)
    requires Local(s, t) && Enabled(s, StepAdvance(t)) && s.pcs[t].ClosingRead?
    ensures QuietStep(s, DoClosing(s, t), t)
  {
  }

  lemma CloseReadKeeps(s: System, t: nat)
    requires Inv(s) && Enabled(s, StepAdvance(t)) && s.pcs[t].ClosingRead?
    ensures Inv(DoClosing(s, t))
  {
    ExecutingIsLocal(s, t);
    CloseReadStep(s, t);
    QuietKeeps(s, DoClosing(s, t), t);
  }

  lemma CloseWriteStep(s: System, t: nat)
    requires Local(s, t) && Enabled(s, StepAdvance(t)) && s.pcs[t].ClosingWrite?
    ensures QuietStep(s, DoClosing(s, t), t)
  {
  }

  lemma CloseWriteKeeps(s: System, t: nat)
    requires Inv(s) && Enabled(s, StepAdvance(t)) && s.pcs[t].ClosingWrite?
    ensures Inv(DoClosing(s, t))
  {
    ExecutingIsLocal(s, t);
    CloseWriteStep(s, t);
    QuietKeeps(s, DoClosing(s, t), t);
  }

  lemma ClosedStep(s: System, t: nat)
    requires Local(s, t) && Enabled(s, StepAdvance(t)) && s.pcs[t].Closed?
    ensures QuietStep(s, DoClosing(s, t), t)
  {
  }

  lemma ClosedKeeps(s: System, t: nat)
    requires Inv(s) && Enabled(s, StepAdvance(t)) && s.pcs[t].Closed?
    ensures Inv(DoClosing(s, t))
  {
    ExecutingIsLocal(s, t);
    ClosedStep(s, t);
    QuietKeeps(s, DoClosing(s, t), t);
  }

  lemma LeaveFrame(k: Kernel, t: nat, u: nat)
    requires Executing(k, t) && u < |k.tasks| && u != t
    ensures SameTask(k, Leave(k, t), u)
  {
  }

  lemma YieldStep(s: System, t: nat)
    requires Local(s, t) && s.pcs[t].Yielding?
    ensures QuietStep(s, DoYield(s, t), t)
  {
    var s' := DoYield(s, t);
    forall u | 0 <= u < |s.pcs| && u != t ensures SameTask(s.k, s'.k, u) {
      LeaveFrame(s.k, t, u);
    }
    if Pending(s, QueueOf(s.pcs[t].op)) {
      PendingKept(s, s', t, QueueOf(s.pcs[t].op));
    }
  }

  lemma YieldKeeps(s: System, t: nat)
    requires Inv(s) && Enabled(s, StepAdvance(t)) && s.pcs[t].Yielding?
    ensures Inv(DoYield(s, t))
  {
    ExecutingIsLocal(s, t);
    LeaveKeeps(s.k, t);
    YieldStep(s, t);
    QuietKeeps(s, DoYield(s, t), t);
  }

  lemma PreemptKeeps(s: System, t: nat)
    requires Inv(s) && Enabled(s, StepPreempt(t))
    ensures Inv(s.(k := Leave(s.k, t)))
  {
    ExecutingIsLocal(s, t);
    LeaveKeeps(s.k, t);
    QuietKeeps(s, s.(k := Leave(s.k, t)), t);
  }

  lemma StartedKeeps(s: System, t: nat)
    requires Inv(s) && Enabled(s, StepStart(t))
    ensures Inv(s.(k := Start(s.k, t)))
  {
    StartKeeps(s.k, t);
    assert LocksOk(s, t) && PcOk(s, t) && WaitOk(s, t) && NotLost(s, t);
    QuietKeeps(s, s.(k := Start(s.k, t)), t);
  }

  lemma ScheduledKeeps(s: System, c: nat)
    requires Inv(s) && Enabled(s, StepSchedule(c))
    ensures Inv(s.(k := Schedule(s.k, c)))
  {
    ScheduleKeeps(s.k, c);
    assert CpuOk(s.k, c);
    var t := s.k.cpus[c].idle;
    forall u | 0 <= u < |s.pcs| ensures SameTask(s.k, Schedule(s.k, c), u) {
      ScheduleFrame(s.k, c, u);
    }
    assert LocksOk(s, t) && PcOk(s, t) && WaitOk(s, t) && NotLost(s, t);
    QuietKeeps(s, s.(k := Schedule(s.k, c)), t);
  }

  // ---------------------------------------------------------------- steps on the wait queues

  /** A waiter linked on its queue or in hand before is one or the other after. */
  ghost predicate Followed(s: System, s': System, u: nat)
    requires Shape(s) && u < |s.pcs| && |s'.queues| == |s.queues|
  {
    Waits(s.pcs[u]) ==>
      var q := QueueOf(s.pcs[u].op);
      u in s.queues[q].list || InHand(s, q, u) ==> u in s'.queues[q].list || InHand(s', q, u)
  }

  /** What is left to check of a step of task `t` that moves waiters. */
  ghost predicate QueueStep(s: System, s': System, t: nat) {
    && TaskStep(s, s', t) && s'.pipes == s.pipes
    && LocksOk(s', t) && PcOk(s', t) && WaitOk(s', t)
    && (forall u :: 0 <= u < |s.pcs| && u != t && s'.k.tasks[u].status.Blocked? ==> Followed(s, s', u))
    && (forall q :: 0 <= q < |s'.queues| ==> QueueOk(s, q) ==> QueueOk(s', q))
  }

  lemma WaitersKept(s: System, s': System, t: nat)
    requires Inv(s) && KernelOk(s'.k) && QueueStep(s, s', t)
    requires forall u :: 0 <= u < |s'.pcs| ==> NotLost(s', u)
    ensures Inv(s')
  {
    HoldersKept(s, s', t);
    LocksKept(s, s', t);
    PcsKept(s, s', t);
    forall u | 0 <= u < |s'.pcs| && u != t ensures WaitOk(s', u) {
      assert WaitOk(s, u) && SameTask(s.k, s'.k, u);
      assert s'.k.tasks[u].status.Blocked? ==> Followed(s, s', u);
    }
  }

  /** Handing over the status of the executing task disturbs no other task. */
  lemma StatusFrame(k: Kernel, t: nat, status: Status, u: nat)
    requires t < |k.tasks| && u < |k.tasks| && u != t
    ensures SameTask(k, SetStatus(k, t, status), u)
  {
  }

  lemma PreparedQueue(s: System, t: nat, q: nat)
    requires Shape(s) && t < |s.pcs| && s.pcs[t].Prepare? && q < |s.queues| && QueueOk(s, q)
    ensures QueueOk(DoPrepare(s, t), q)
  {
    assert t !in s.queues[q].list;
  }

  lemma PrepareStep(s: System, t: nat)
    requires Local(s, t) && Enabled(s, StepAdvance(t)) && s.pcs[t].Prepare?
    ensures QueueStep(s, DoPrepare(s, t), t)
  {
    var s' := DoPrepare(s, t);
    forall q | 0 <= q < |s.queues| && QueueOk(s, q) ensures QueueOk(s', q) {
      PreparedQueue(s, t, q);
    }
    forall u | 0 <= u < |s.pcs| && u != t ensures SameTask(s.k, s'.k, u) && Followed(s, s', u) {
      StatusFrame(s.k, t, Blocked, u);
    }
  }

  lemma PrepareKeeps(s: System, t: nat)
    requires Inv(s) && Enabled(s, StepAdvance(t)) && s.pcs[t].Prepare?
    ensures Inv(DoPrepare(s, t))
  {
    ExecutingIsLocal(s, t);
    SetStatusKeeps(s.k, t, Blocked);
    PrepareStep(s, t);
    WakeupsKept(s, DoPrepare(s, t), t);
    WaitersKept(s, DoPrepare(s, t), t);
  }

  lemma ClearedQueue(s: System, t: nat, q: nat)
    requires Shape(s) && t < |s.pcs| && (s.pcs[t].Resumed? || s.pcs[t].Accepted?) && q < |s.queues| && QueueOk(s, q)
    ensures QueueOk(DoClear(s, t), q)
  {
    WithoutDistinct(s.queues[q].list, t);
  }

  lemma ClearStep(s: System, t: nat)
    requires Local(s, t) && Enabled(s, StepAdvance(t)) && (s.pcs[t].Resumed? || s.pcs[t].Accepted?)
    ensures QueueStep(s, DoClear(s, t), t)
  {
    var s' := DoClear(s, t);
    forall q | 0 <= q < |s.queues| && QueueOk(s, q) ensures QueueOk(s', q) {
      ClearedQueue(s, t, q);
    }
    forall u | 0 <= u < |s.pcs| && u != t ensures SameTask(s.k, s'.k, u) && Followed(s, s', u) {
      StatusFrame(s.k, t, Runnable, u);
    }
  }

  lemma ClearKeeps(s: System, t: nat)
    requires Inv(s) && Enabled(s, StepAdvance(t)) && (s.pcs[t].Resumed? || s.pcs[t].Accepted?)
    ensures Inv(DoClear(s, t))
  {
    ExecutingIsLocal(s, t);
    SetStatusKeeps(s.k, t, Runnable);
    ClearStep(s, t);
    WakeupsKept(s, DoClear(s, t), t);
    WaitersKept(s, DoClear(s, t), t);
  }

  lemma NotifyStep(s: System, t: nat)
    requires Local(s, t) && Enabled(s, StepAdvance(t)) && s.pcs[t].Notify?
    ensures QueueStep(s, DoNotify(s, t), t)
  {
  }

  lemma NotifyKeeps(s: System, t: nat)
    requires Inv(s) && Enabled(s, StepAdvance(t)) && s.pcs[t].Notify?
    ensures Inv(DoNotify(s, t))
  {
    ExecutingIsLocal(s, t);
    NotifyStep(s, t);
    WakeupsKept(s, DoNotify(s, t), t);
    WaitersKept(s, DoNotify(s, t), t);
  }

  lemma PoppedQueue(s: System, t: nat, r: nat)
    requires Shape(s) && t < |s.pcs| && s.pcs[t].Waking? && s.pcs[t].hand.None? && s.queues[s.pcs[t].q].list != []
    requires r < |s.queues| && QueueOk(s, r)
    ensures QueueOk(DoWaking(s, t), r)
  {
    var list := s.queues[s.pcs[t].q].list;
    assert forall u :: u in list[1..] ==> u in list;
  }

  lemma PopStep(s: System, t: nat)
    requires Local(s, t) && s.pcs[t].Waking? && s.pcs[t].hand.None? && s.queues[s.pcs[t].q].list != []
    requires QueueOk(s, s.pcs[t].q)
    ensures QueueStep(s, DoWaking(s, t), t)
  {
    var list := s.queues[s.pcs[t].q].list;
    assert list[0] in list;
    assert forall u :: u in list <==> u == list[0] || u in list[1..];
    forall r | 0 <= r < |s.queues| && QueueOk(s, r) ensures QueueOk(DoWaking(s, t), r) {
      PoppedQueue(s, t, r);
    }
  }

  lemma PopKeeps(s: System, t: nat)
    requires Inv(s) && Enabled(s, StepAdvance(t)) && s.pcs[t].Waking? && s.pcs[t].hand.None?
    requires s.queues[s.pcs[t].q].list != []
    ensures Inv(DoWaking(s, t))
  {
    ExecutingIsLocal(s, t);
    PopStep(s, t);
    WakeupsKept(s, DoWaking(s, t), t);
    WaitersKept(s, DoWaking(s, t), t);
  }

  lemma WakeFrame(k: Kernel, w: nat, u: nat)
    requires KernelOk(k) && w < |k.tasks| && u < |k.tasks|
    ensures k.tasks[w].cpu < |k.cpus| && |Wake(k, w).tasks| == |k.tasks|
    ensures SameTask(k, Wake(k, w), u) && !Wake(k, w).tasks[w].status.Blocked?
  {
    WakeKeeps(k, w);
    assert TaskOk(k, u);
  }

  /** Task `w` is not blocked any more, and all tasks are otherwise as they were. */
  ghost predicate WakeOk(k: Kernel, k': Kernel, w: nat) {
    && |k'.tasks| == |k.tasks| && w < |k.tasks| && !k'.tasks[w].status.Blocked?
    && forall u :: 0 <= u < |k.tasks| ==> SameTask(k, k', u)
  }

  /** The step that hands over waiter `w`, whatever else the kernel does to wake it. */
  lemma HandedStep(s: System, t: nat, w: nat, k: Kernel)
    requires Local(s, t) && s.pcs[t].Waking? && s.pcs[t].hand == Some(w) && WakeOk(s.k, k, w)
    ensures QueueStep(s, Goto(s, t, s.pcs[t].(hand := None)).(k := k), t)
  {
    assert SameTask(s.k, k, t);
  }

  lemma WakeOneStep(s: System, t: nat)
    requires Local(s, t) && KernelOk(s.k) && s.pcs[t].Waking? && s.pcs[t].hand.Some?
    ensures QueueStep(s, DoWaking(s, t), t)
  {
    var w := s.pcs[t].hand.value;
    WokenIs(s.k, w);
    HandedStep(s, t, w, Wake(s.k, w));
  }

  lemma WokenIs(k: Kernel, w: nat)
    requires KernelOk(k) && w < |k.tasks|
    ensures k.tasks[w].cpu < |k.cpus| && WakeOk(k, Wake(k, w), w)
  {
    WakeFrame(k, w, w);
    forall u | 0 <= u < |k.tasks| ensures SameTask(k, Wake(k, w), u) {
      WakeFrame(k, w, u);
    }
  }

  lemma WakeOneKeeps(s: System, t: nat)
    requires Inv(s) && Enabled(s, StepAdvance(t)) && s.pcs[t].Waking? && s.pcs[t].hand.Some?
    ensures Inv(DoWaking(s, t))
  {
    ExecutingIsLocal(s, t);
    WakeKeeps(s.k, s.pcs[t].hand.value);
    WakeOneStep(s, t);
    WakeupsKept(s, DoWaking(s, t), t);
    WaitersKept(s, DoWaking(s, t), t);
  }

  /** When `wake_all` finds the queue empty, nobody waits on it any more. */
  lemma NobodyLeft(s: System, t: nat, u: nat)
    requires Inv(s) && t < |s.pcs| && s.pcs[t].Waking? && s.pcs[t].hand.None? && s.queues[s.pcs[t].q].list == []
    requires u < |s.pcs| && Waits(s.pcs[u]) && QueueOf(s.pcs[u].op) == s.pcs[t].q
    ensures !s.k.tasks[u].status.Blocked?
  {
    assert LocksOk(s, t) && WaitOk(s, u);
  }

  lemma UnlockStep(s: System, t: nat)
    requires Local(s, t) && s.pcs[t].Waking? && s.pcs[t].hand.None? && s.queues[s.pcs[t].q].list == []
    ensures QueueStep(s, DoWaking(s, t), t)
  {
  }

  lemma UnlockKeeps(s: System, t: nat)
    requires Inv(s) && Enabled(s, StepAdvance(t)) && s.pcs[t].Waking? && s.pcs[t].hand.None?
    requires s.queues[s.pcs[t].q].list == []
    ensures Inv(DoWaking(s, t))
  {
    ExecutingIsLocal(s, t);
    UnlockStep(s, t);
    var s' := DoWaking(s, t);
    var q := s.pcs[t].q;
    forall u | 0 <= u < |s.pcs| ensures NotLost(s', u) {
      assert NotLost(s, u);
      if Waits(s.pcs[u]) && QueueOf(s.pcs[u].op) == q {
        NobodyLeft(s, t, u);
      } else if Waits(s.pcs[u]) && Pending(s, QueueOf(s.pcs[u].op)) {
        PendingKept(s, s', t, QueueOf(s.pcs[u].op));
      }
    }
    WaitersKept(s, s', t);
  }

  lemma AdvanceKeeps(s: System, t: nat)
    requires Inv(s) && Enabled(s, StepAdvance(t))
    ensures Inv(Advance(s, t))
  {
    match s.pcs[t]
    case Out(_) =>
    case Prepare(_) => PrepareKeeps(s, t);
    case Check(_) => CheckKeeps(s, t);
    case Yielding(_) => YieldKeeps(s, t);
    case Resumed(_) => ClearKeeps(s, t);
    case Accepted(_) => ClearKeeps(s, t);
    case Relock(_) => RelockKeeps(s, t);
    case Transfer(_) => TransferKeeps(s, t);
    case Notify(_, _) => NotifyKeeps(s, t);
    case Waking(q, hand, _) =>
      if hand.Some? {
        WakeOneKeeps(s, t);
      } else if s.queues[q].list != [] {
        PopKeeps(s, t);
      } else {
        UnlockKeeps(s, t);
      }
    case ClosingRead(_, _) => CloseReadKeeps(s, t);
    case ClosingWrite(_) => CloseWriteKeeps(s, t);
    case Closed(_) => ClosedKeeps(s, t);
  }

  lemma StepKeeps(s: System, step: Step)
    requires Inv(s) && Enabled(s, step)
    ensures Inv(After(s, step))
  {
    match step
    case StepStart(t) => StartedKeeps(s, t);
    case StepBegin(t, op) => BeginKeeps(s, t, op);
    case StepClose(t, p, reader, writer) => BeginCloseKeeps(s, t, p, reader, writer);
    case StepAdvance(t) => AdvanceKeeps(s, t);
    case StepPreempt(t) => PreemptKeeps(s, t);
    case StepSchedule(c) => ScheduledKeeps(s, c);
  }
}
