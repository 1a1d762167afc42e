/**
 * Blocking reads and writes on pipes (k-wait.hh, k-vfs.cc) on top of the scheduler, as a state
 * machine. The lock of each pipe and of each wait queue is explicit; a step is what one task does
 * between two points where another task can be seen to act, or one turn of a CPU's scheduler.
 */
module PipeProtocol {
  import opened Collections
  import opened Sched

  const BBUFFER_SIZE: nat := 128

  datatype Op = Read(pipe: nat, sz: nat) | Write(pipe: nat, data: seq<char>)

  datatype Result = NoResult | Count(n: nat) | Eof | BrokenPipe | Failed

  /** What follows a `wake_all`: returning a result, or the rest of closing a pipe end. */
  datatype Then = Return(r: Result) | Close(pipe: nat, writer: bool)

  /** Where a task stands in `vnode_pipe::read`, `vnode_pipe::write` or `file::~file`. */
  datatype Pc =
    | Out(last: Result)
    | Prepare(op: Op)
    | Check(op: Op)
    | Yielding(op: Op)
    | Resumed(op: Op)
    | Relock(op: Op)
    | Accepted(op: Op)
    | Transfer(op: Op)
    | Notify(q: nat, andThen: Then)
    | Waking(q: nat, hand: Option<nat>, andThen: Then)
    | ClosingRead(pipe: nat, writer: bool)
    | ClosingWrite(pipe: nat)
    | Closed(pipe: nat)

  datatype WaitQueue = WaitQueue(holder: Option<nat>, list: seq<nat>)

  /** `accepted` and `delivered` record all bytes ever written to and read from the pipe. */
  datatype Pipe = Pipe(holder: Option<nat>, readClosed: bool, writeClosed: bool,
                       contents: seq<char>, accepted: seq<char>, delivered: seq<char>)

  datatype System = System(k: Kernel, pcs: seq<Pc>, queues: seq<WaitQueue>, pipes: seq<Pipe>)

  function Min(a: nat, b: nat): nat {
    if a < b then a else b
  }

  function SizeOf(op: Op): nat {
    if op.Read? then op.sz else |op.data|
  }

  /** `nonempty_wq_` of pipe `p` is queue `2p`, `nonfull_wq_` is queue `2p + 1`. */
  function QueueOf(op: Op): nat {
    if op.Read? then 2 * op.pipe else 2 * op.pipe + 1
  }

  function OtherQueue(op: Op): nat {
    if op.Read? then 2 * op.pipe + 1 else 2 * op.pipe
  }

  /** The operation has no room, or no bytes, and enters `block_until`. */
  predicate MustWait(pipe: Pipe, op: Op) {
    if op.Read? then |pipe.contents| == 0 else |pipe.contents| == BBUFFER_SIZE
  }

  /** The predicate handed to `block_until`. */
  predicate Ready(pipe: Pipe, op: Op) {
    SizeOf(op) == 0 || (if op.Read? then |pipe.contents| > 0 || pipe.writeClosed
                        else |pipe.contents| < BBUFFER_SIZE || pipe.readClosed)
  }

  /** The assertion at the start of `read` and `write`. */
  predicate EndOpen(pipe: Pipe, op: Op) {
    if op.Read? then !pipe.readClosed else !pipe.writeClosed
  }

  /** The pipe after the transfer, and the result of the call. */
  function Transferred(pipe: Pipe, op: Op): (Pipe, Result) {
    match op
    case Read(_, sz) =>
      if pipe.writeClosed && pipe.contents == [] then (pipe, Eof)
      else
        var n := Min(sz, |pipe.contents|);
        (pipe.(contents := pipe.contents[n..], delivered := pipe.delivered + pipe.contents[..n]),
         if n == 0 && sz > 0 then Failed else Count(n))
    case Write(_, data) =>
      if pipe.readClosed then (pipe, BrokenPipe)
      else
        var room := if |pipe.contents| < BBUFFER_SIZE then BBUFFER_SIZE - |pipe.contents| else 0;
        var n := Min(|data|, room);
        (pipe.(contents := pipe.contents + data[..n], accepted := pipe.accepted + data[..n]),
         if n == 0 && |data| > 0 then Failed else Count(n))
  }

  // ---------------------------------------------------------------- program counters

  predicate Waits(pc: Pc) {
    pc.Check? || pc.Yielding? || pc.Resumed? || pc.Accepted?
  }

  /** The predicate was found false under the pipe's lock, which has been given up since. */
  predicate SawFalse(pc: Pc) {
    pc.Yielding? || pc.Resumed?
  }

  predicate HasOp(pc: Pc) {
    Waits(pc) || pc.Prepare? || pc.Relock? || pc.Transfer?
  }

  predicate HoldsPipe(pc: Pc, p: nat) {
    match pc
    case Prepare(op) => op.pipe == p
    case Check(op) => op.pipe == p
    case Accepted(op) => op.pipe == p
    case Transfer(op) => op.pipe == p
    case Notify(_, andThen) => andThen.Close? && andThen.pipe == p
    case Waking(_, _, andThen) => andThen.Close? && andThen.pipe == p
    case ClosingRead(pipe, _) => pipe == p
    case ClosingWrite(pipe) => pipe == p
    case Closed(pipe) => pipe == p
    case _ => false
  }

  predicate HoldsQueue(pc: Pc, q: nat) {
    pc.Waking? && pc.q == q
  }

  /** No lock is held, so interrupts are enabled. */
  predicate LockFree(pc: Pc) {
    pc.Out? || pc.Yielding? || pc.Resumed? || pc.Relock? || (pc.Notify? && pc.andThen.Return?)
  }

  /** The task has woken nobody yet, or not all, of a `wake_all` on queue `q`. */
  predicate Notifies(pc: Pc, q: nat) {
    (pc.Notify? || pc.Waking?) && pc.q == q
  }

  // ---------------------------------------------------------------- steps of a task

  function Goto(s: System, t: nat, pc: Pc): System
    requires t < |s.pcs|
  {
    s.(pcs := s.pcs[t := pc])
  }

  function SetPipeHolder(s: System, p: nat, h: Option<nat>): System
    requires p < |s.pipes|
  {
    s.(pipes := s.pipes[p := s.pipes[p].(holder := h)])
  }

  function SetQueue(s: System, q: nat, wq: WaitQueue): System
    requires q < |s.queues|
  {
    s.(queues := s.queues[q := wq])
  }

  /** Names that a program counter may mention. */
  predicate InRange(s: System, pc: Pc) {
    && (HasOp(pc) ==> pc.op.pipe < |s.pipes|)
    && (pc.Notify? || pc.Waking? ==>
          pc.q < |s.queues| && (pc.andThen.Close? ==> pc.andThen.pipe < |s.pipes|))
    && (pc.Waking? && pc.hand.Some? ==> pc.hand.value < |s.pcs|)
    && (pc.ClosingRead? || pc.ClosingWrite? || pc.Closed? ==> pc.pipe < |s.pipes|)
  }

  ghost predicate Shape(s: System) {
    && |s.pcs| == |s.k.tasks| && |s.queues| == 2 * |s.pipes|
    && forall t :: 0 <= t < |s.pcs| ==> InRange(s, s.pcs[t])
  }

  /** Begin `read` or `write` with the pipe's lock free. */
  function Begin(s: System, t: nat, op: Op): System
    requires t < |s.pcs| && op.pipe < |s.pipes|
  {
    Goto(SetPipeHolder(s, op.pipe, Some(t)), t, if MustWait(s.pipes[op.pipe], op) then Prepare(op) else Transfer(op))
  }

  function BeginClose(s: System, t: nat, p: nat, reader: bool, writer: bool): System
    requires t < |s.pcs| && p < |s.pipes|
  {
    Goto(SetPipeHolder(s, p, Some(t)), t,
         if reader then ClosingRead(p, writer) else if writer then ClosingWrite(p) else Closed(p))
  }

  /** `waiter::prepare`. */
  function DoPrepare(s: System, t: nat): System
    requires Shape(s) && t < |s.pcs| && s.pcs[t].Prepare?
  {
    var op := s.pcs[t].op;
    var wq := s.queues[QueueOf(op)];
    Goto(SetQueue(s, QueueOf(op), wq.(list := wq.list + [t])), t, Check(op)).(k := SetStatus(s.k, t, Blocked))
  }

  /** Evaluate the predicate; if false, give up the pipe's lock. */
  function DoCheck(s: System, t: nat): System
    requires Shape(s) && t < |s.pcs| && s.pcs[t].Check?
  {
    var op := s.pcs[t].op;
    if Ready(s.pipes[op.pipe], op) then Goto(s, t, Accepted(op))
    else Goto(SetPipeHolder(s, op.pipe, None), t, Yielding(op))
  }

  /** `proc::yield` inside `waiter::block`. */
  function DoYield(s: System, t: nat): System
    requires Shape(s) && t < |s.pcs| && s.pcs[t].Yielding? && Executing(s.k, t)
  {
    Goto(s, t, Resumed(s.pcs[t].op)).(k := Leave(s.k, t))
  }

  /** `waiter::clear`. */
  function DoClear(s: System, t: nat): System
    requires Shape(s) && t < |s.pcs| && (s.pcs[t].Resumed? || s.pcs[t].Accepted?)
  {
    var op := s.pcs[t].op;
    var wq := s.queues[QueueOf(op)];
    Goto(SetQueue(s, QueueOf(op), wq.(list := Without(wq.list, t))), t,
         if s.pcs[t].Resumed? then Relock(op) else Transfer(op)).(k := SetStatus(s.k, t, Runnable))
  }

  function DoRelock(s: System, t: nat): System
    requires Shape(s) && t < |s.pcs| && s.pcs[t].Relock?
  {
    Goto(SetPipeHolder(s, s.pcs[t].op.pipe, Some(t)), t, Prepare(s.pcs[t].op))
  }

  function DoTransfer(s: System, t: nat): System
    requires Shape(s) && t < |s.pcs| && s.pcs[t].Transfer?
  {
    var op := s.pcs[t].op;
    var (pipe', r) := Transferred(s.pipes[op.pipe], op);
    Goto(s.(pipes := s.pipes[op.pipe := pipe'.(holder := None)]), t,
         if r.Count? then Notify(OtherQueue(op), Return(r)) else Out(r))
  }

  /** `wait_queue::wake_all`: take the lock. */
  function DoNotify(s: System, t: nat): System
    requires Shape(s) && t < |s.pcs| && s.pcs[t].Notify?
  {
    var q := s.pcs[t].q;
    Goto(SetQueue(s, q, s.queues[q].(holder := Some(t))), t, Waking(q, None, s.pcs[t].andThen))
  }

  function Continue(andThen: Then): Pc {
    match andThen
    case Return(r) => Out(r)
    case Close(p, writer) => if writer then ClosingWrite(p) else Closed(p)
  }

  /** `wait_queue::wake_all`: wake the waiter in hand, take the next one, or give up the lock. */
  function DoWaking(s: System, t: nat): System
    requires Shape(s) && t < |s.pcs| && s.pcs[t].Waking?
  {
    var q, wq := s.pcs[t].q, s.queues[s.pcs[t].q];
    if s.pcs[t].hand.Some? then
      var w := s.pcs[t].hand.value;
      Goto(s, t, s.pcs[t].(hand := None)).(k := if s.k.tasks[w].cpu < |s.k.cpus| then Wake(s.k, w) else s.k)
    else if wq.list != [] then
      Goto(SetQueue(s, q, wq.(list := wq.list[1..])), t, s.pcs[t].(hand := Some(wq.list[0])))
    else
      Goto(SetQueue(s, q, wq.(holder := None)), t, Continue(s.pcs[t].andThen))
  }

  /** `file::~file`. */
  function DoClosing(s: System, t: nat): System
    requires Shape(s) && t < |s.pcs| && (s.pcs[t].ClosingRead? || s.pcs[t].ClosingWrite? || s.pcs[t].Closed?)
  {
    var p := s.pcs[t].pipe;
    var pipe := s.pipes[p];
    if s.pcs[t].ClosingRead? then
      Goto(s.(pipes := s.pipes[p := pipe.(readClosed := true)]), t, Notify(2 * p + 1, Close(p, s.pcs[t].writer)))
    else if s.pcs[t].ClosingWrite? then
      Goto(s.(pipes := s.pipes[p := pipe.(writeClosed := true)]), t, Notify(2 * p, Close(p, false)))
    else
      Goto(SetPipeHolder(s, p, None), t, Out(NoResult))
  }

  // ---------------------------------------------------------------- steps of the system

  datatype Step =
    | StepStart(t: nat)
    | StepBegin(t: nat, op: Op)
    | StepClose(t: nat, pipe: nat, reader: bool, writer: bool)
    | StepAdvance(t: nat)
    | StepPreempt(t: nat)
    | StepSchedule(c: nat)

  /** The lock that the next step of the task needs is free. */
  predicate CanAdvance(s: System, pc: Pc)
    requires InRange(s, pc) && |s.queues| == 2 * |s.pipes|
  {
    match pc
    case Out(_) => false
    case Prepare(op) => s.queues[QueueOf(op)].holder.None?
    case Resumed(op) => s.queues[QueueOf(op)].holder.None?
    case Accepted(op) => s.queues[QueueOf(op)].holder.None?
    case Relock(op) => s.pipes[op.pipe].holder.None?
    case Notify(q, _) => s.queues[q].holder.None?
    case _ => true
  }

  ghost predicate Enabled(s: System, step: Step) {
    Shape(s) &&
    match step
    case StepStart(t) => t < |s.pcs| && s.k.tasks[t].status.Blank? && s.k.tasks[t].cpu < |s.k.cpus|
    case StepBegin(t, op) =>
      t < |s.pcs| && Executing(s.k, t) && s.pcs[t].Out? && !IsIdle(s.k, t)
      && op.pipe < |s.pipes| && s.pipes[op.pipe].holder.None? && EndOpen(s.pipes[op.pipe], op)
    case StepClose(t, p, _, _) =>
      t < |s.pcs| && Executing(s.k, t) && s.pcs[t].Out? && !IsIdle(s.k, t) && p < |s.pipes| && s.pipes[p].holder.None?
    case StepAdvance(t) => t < |s.pcs| && Executing(s.k, t) && CanAdvance(s, s.pcs[t])
    case StepPreempt(t) => t < |s.pcs| && Executing(s.k, t) && LockFree(s.pcs[t])
    case StepSchedule(c) => c < |s.k.cpus|
  }

  ghost function Advance(s: System, t: nat): System
    requires Shape(s) && t < |s.pcs| && Executing(s.k, t)
  {
    match s.pcs[t]
    case Out(_) => s
    case Prepare(_) => DoPrepare(s, t)
    case Check(_) => DoCheck(s, t)
    case Yielding(_) => DoYield(s, t)
    case Resumed(_) => DoClear(s, t)
    case Accepted(_) => DoClear(s, t)
    case Relock(_) => DoRelock(s, t)
    case Transfer(_) => DoTransfer(s, t)
    case Notify(_, _) => DoNotify(s, t)
    case Waking(_, _, _) => DoWaking(s, t)
    case _ => DoClosing(s, t)
  }

  ghost function After(s: System, step: Step): System
    requires Enabled(s, step)
  {
    match step
    case StepStart(t) => s.(k := Start(s.k, t))
    case StepBegin(t, op) => Begin(s, t, op)
    case StepClose(t, p, reader, writer) => BeginClose(s, t, p, reader, writer)
    case StepAdvance(t) => Advance(s, t)
    case StepPreempt(t) => s.(k := Leave(s.k, t))
    case StepSchedule(c) => s.(k := Schedule(s.k, c))
  }

  // ---------------------------------------------------------------- invariant

  ghost predicate LocksOk(s: System, t: nat)
    requires t < |s.pcs|
  {
    && (forall p :: 0 <= p < |s.pipes| ==> (HoldsPipe(s.pcs[t], p) <==> s.pipes[p].holder == Some(t)))
    && (forall q :: 0 <= q < |s.queues| ==> (HoldsQueue(s.pcs[t], q) <==> s.queues[q].holder == Some(t)))
    && (!LockFree(s.pcs[t]) ==> Executing(s.k, t))
  }

  /** Task `t` has been taken off queue `q` and is about to be woken. */
  ghost predicate InHand(s: System, q: nat, t: nat)
    requires q < |s.queues|
  {
    var h := s.queues[q].holder;
    h.Some? && h.value < |s.pcs| && s.pcs[h.value].Waking? && s.pcs[h.value].q == q && s.pcs[h.value].hand == Some(t)
  }

  /** A blocked task is linked on its queue, or in the hands of a task waking that queue. */
  ghost predicate WaitOk(s: System, t: nat)
    requires Shape(s) && t < |s.pcs|
  {
    s.k.tasks[t].status.Blocked? ==>
      Waits(s.pcs[t]) && var q := QueueOf(s.pcs[t].op); t in s.queues[q].list || InHand(s, q, t)
  }

  ghost predicate QueueOk(s: System, q: nat)
    requires q < |s.queues|
  {
    && Distinct(s.queues[q].list)
    && forall t :: t in s.queues[q].list ==> t < |s.pcs| && Waits(s.pcs[t]) && QueueOf(s.pcs[t].op) == q
  }

  /** Some task has a `wake_all` on queue `q` to finish. */
  ghost predicate Pending(s: System, q: nat) {
    exists u :: 0 <= u < |s.pcs| && Notifies(s.pcs[u], q)
  }

  /** A task put to sleep on a predicate that has become true will be woken. */
  ghost predicate NotLost(s: System, t: nat)
    requires Shape(s) && t < |s.pcs|
  {
    s.k.tasks[t].status.Blocked? && SawFalse(s.pcs[t]) && Ready(s.pipes[s.pcs[t].op.pipe], s.pcs[t].op) ==>
      Pending(s, QueueOf(s.pcs[t].op))
  }

  ghost predicate PcOk(s: System, t: nat)
    requires Shape(s) && t < |s.pcs|
  {
    && (s.pcs[t].Accepted? || s.pcs[t].Transfer? ==> Ready(s.pipes[s.pcs[t].op.pipe], s.pcs[t].op))
    && (s.k.tasks[t].status.Blank? || IsIdle(s.k, t) ==> s.pcs[t].Out?)
    && (s.pcs[t].Out? ==> s.pcs[t].last != Failed)
    && ((s.pcs[t].Notify? || s.pcs[t].Waking?) && s.pcs[t].andThen.Return? ==> s.pcs[t].andThen.r.Count?)
  }

  /** Conservation: what was accepted has been delivered, in order, or is still in the buffer. */
  ghost predicate PipeOk(pipe: Pipe) {
    pipe.accepted == pipe.delivered + pipe.contents && |pipe.contents| <= BBUFFER_SIZE
  }

  /** Locks are held by tasks. */
  ghost predicate HoldersOk(s: System) {
    && (forall p :: 0 <= p < |s.pipes| ==> s.pipes[p].holder.Some? ==> s.pipes[p].holder.value < |s.pcs|)
    && (forall q :: 0 <= q < |s.queues| ==> s.queues[q].holder.Some? ==> s.queues[q].holder.value < |s.pcs|)
  }

  ghost predicate Inv(s: System) {
    && Shape(s) && HoldersOk(s) && KernelOk(s.k)
    && (forall t :: 0 <= t < |s.pcs| ==> LocksOk(s, t) && WaitOk(s, t) && NotLost(s, t) && PcOk(s, t))
    && (forall q :: 0 <= q < |s.queues| ==> QueueOk(s, q))
    && (forall p :: 0 <= p < |s.pipes| ==> PipeOk(s.pipes[p]))
  }
}
