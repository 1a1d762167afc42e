/**
 * What replaying the journal does to the disk (journalreplayer.cc): the naive meaning of a list
 * of block references, and the pruned list of writes that `run` performs.
 */
module JournalReplay {
  import opened JournalFormat

  type Disk = map<nat, Block>

  /** A reference in replay order: write a block, or declare it no longer journaled. */
  datatype Op = Put(bn: nat, data: Block) | Cancel(bn: nat)

  datatype Write = Write(bn: nat, data: Block)

  /** The naive meaning: pending writes in order, where a cancellation drops an earlier write. */
  function Pending(m: map<nat, Block>, ops: seq<Op>): map<nat, Block>
    decreases |ops|
  {
    if ops == [] then m
    else
      var op := ops[0];
      Pending(if op.Put? then m[op.bn := op.data] else m - {op.bn}, ops[1..])
  }

  function Naive(disk: Disk, ops: seq<Op>): Disk {
    disk + Pending(map[], ops)
  }

  function Bns(ops: seq<Op>): set<nat> {
    if ops == [] then {} else {ops[0].bn} + Bns(ops[1..])
  }

  /** Only the last reference to each block counts, and only if it is a write. */
  function Pruned(ops: seq<Op>): seq<Write> {
    if ops == [] then []
    else
      var op, rest := ops[0], Pruned(ops[1..]);
      if op.Put? && op.bn !in Bns(ops[1..]) then [Write(op.bn, op.data)] + rest else rest
  }

  function Apply(disk: Disk, ws: seq<Write>): Disk
    decreases |ws|
  {
    if ws == [] then disk else Apply(disk[ws[0].bn := ws[0].data], ws[1..])
  }

  function Targets(ws: seq<Write>): set<nat> {
    if ws == [] then {} else {ws[0].bn} + Targets(ws[1..])
  }

  ghost predicate WrittenOnce(ws: seq<Write>) {
    forall i, j :: 0 <= i < j < |ws| ==> ws[i].bn != ws[j].bn
  }

  lemma {:induction false} TargetsOf(ws: seq<Write>, bn: nat)
    ensures bn in Targets(ws) <==> exists i :: 0 <= i < |ws| && ws[i].bn == bn
  {
    if ws != [] {
      TargetsOf(ws[1..], bn);
      if bn in Targets(ws[1..]) {
        var i :| 0 <= i < |ws[1..]| && ws[1..][i].bn == bn;
        assert ws[i + 1].bn == bn;
      }
      if exists i :: 0 <= i < |ws| && ws[i].bn == bn {
        var i :| 0 <= i < |ws| && ws[i].bn == bn;
        assert i > 0 ==> ws[1..][i - 1].bn == bn;
      }
    }
  }

  lemma {:induction false} PrunedTargets(ops: seq<Op>)
    ensures Targets(Pruned(ops)) <= Bns(ops)
  {
    if ops != [] {
      PrunedTargets(ops[1..]);
      var op, rest := ops[0], Pruned(ops[1..]);
      if op.Put? {
        assert ([Write(op.bn, op.data)] + rest)[1..] == rest;
      }
    }
  }

  /** Each disk block is written at most once. */
  lemma {:induction false} PrunedWritesOnce(ops: seq<Op>)
    ensures WrittenOnce(Pruned(ops))
  {
    if ops != [] {
      PrunedWritesOnce(ops[1..]);
      PrunedTargets(ops[1..]);
      var rest := Pruned(ops[1..]);
      if ops[0].Put? && ops[0].bn !in Bns(ops[1..]) {
        forall i | 0 <= i < |rest| ensures rest[i].bn != ops[0].bn {
          TargetsOf(rest, rest[i].bn);
        }
      }
    }
  }

  lemma {:induction false} ApplyAt(disk: Disk, ws: seq<Write>, bn: nat)
    ensures bn !in Targets(ws) ==> (bn in Apply(disk, ws) <==> bn in disk)
    ensures bn !in Targets(ws) && bn in disk ==> Apply(disk, ws)[bn] == disk[bn]
    ensures bn in Targets(ws) ==> bn in Apply(disk, ws)
    decreases |ws|
  {
    if ws != [] {
      ApplyAt(disk[ws[0].bn := ws[0].data], ws[1..], bn);
    }
  }

  /** What a pending map ends up holding for one block. */
  lemma {:induction false} PendingAt(m: map<nat, Block>, ops: seq<Op>, disk: Disk, bn: nat)
    ensures bn !in Bns(ops) ==> (bn in Pending(m, ops) <==> bn in m)
    ensures bn !in Bns(ops) && bn in m ==> Pending(m, ops)[bn] == m[bn]
    ensures bn in Bns(ops) ==> (bn in Pending(m, ops) <==> bn in Targets(Pruned(ops)))
    ensures bn in Bns(ops) && bn in Pending(m, ops) ==>
              bn in Apply(disk, Pruned(ops)) && Pending(m, ops)[bn] == Apply(disk, Pruned(ops))[bn]
    decreases |ops|
  {
    if ops != [] {
      var op, tail := ops[0], ops[1..];
      var m' := if op.Put? then m[op.bn := op.data] else m - {op.bn};
      var rest := Pruned(tail);
      PrunedTargets(tail);
      if op.Put? && op.bn !in Bns(tail) {
        var w := Write(op.bn, op.data);
        assert Pruned(ops) == [w] + rest && Pruned(ops)[1..] == rest;
        PendingAt(m', tail, disk[op.bn := op.data], bn);
        ApplyAt(disk[op.bn := op.data], rest, bn);
      } else {
        PendingAt(m', tail, disk, bn);
      }
    }
  }

  /** Replay equivalence: the pruned writes leave the disk as the naive replay does. */
  lemma PrunedIsNaive(disk: Disk, ops: seq<Op>)
    ensures Apply(disk, Pruned(ops)) == Naive(disk, ops)
  {
    PrunedTargets(ops);
    var a, n := Apply(disk, Pruned(ops)), Naive(disk, ops);
    forall bn: nat
      ensures bn in a <==> bn in n
      ensures bn in a ==> a[bn] == n[bn]
    {
      ApplyAt(disk, Pruned(ops), bn);
      PendingAt(map[], ops, disk, bn);
    }
  }

  // ---------------------------------------------------------------- interrupted replay

  /** Writing the same blocks again forgets what was there before. */
  lemma {:induction false} ApplyForgets(d: Disk, d': Disk, ws: seq<Write>)
    requires forall bn :: bn !in Targets(ws) ==> (bn in d <==> bn in d')
    requires forall bn :: bn !in Targets(ws) && bn in d && bn in d' ==> d[bn] == d'[bn]
    ensures Apply(d, ws) == Apply(d', ws)
    decreases |ws|
  {
    if ws != [] {
      ApplyForgets(d[ws[0].bn := ws[0].data], d'[ws[0].bn := ws[0].data], ws[1..]);
    }
  }

  lemma TargetsPrefix(ws: seq<Write>, k: nat, bn: nat)
    requires k <= |ws|
    ensures bn in Targets(ws[..k]) ==> bn in Targets(ws)
  {
    TargetsOf(ws[..k], bn);
    TargetsOf(ws, bn);
    if bn in Targets(ws[..k]) {
      var i :| 0 <= i < k && ws[..k][i].bn == bn;
      assert ws[i].bn == bn;
    }
  }

  /** Stopping after any number of writes and replaying from the start reaches the same disk. */
  lemma CrashIdempotent(disk: Disk, ws: seq<Write>, k: nat)
    requires k <= |ws|
    ensures Apply(Apply(disk, ws[..k]), ws) == Apply(disk, ws)
  {
    var d := Apply(disk, ws[..k]);
    forall bn: nat | bn !in Targets(ws)
      ensures (bn in d <==> bn in disk) && (bn in d && bn in disk ==> d[bn] == disk[bn])
    {
      TargetsPrefix(ws, k, bn);
      ApplyAt(disk, ws[..k], bn);
    }
    ApplyForgets(d, disk, ws);
  }
}
