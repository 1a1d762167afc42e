/**
 * `journalreplayer` (journalreplayer.cc): analysis and replay of a journal held in memory.
 */
module Journal {
  import opened Collections
  import opened JournalFormat
  import opened JournalScan
  import opened JournalTransactions
  import opened JournalReplay
  import opened JournalMarks

  /** While reference `n` of block `bi` is next: the error flag tells whether a check has failed. */
  ghost predicate Checking(c: Env, j0: Journal, j: Journal, bi: nat, n: nat) {
    && bi < |j0| && |j| == |j0| && (forall x :: 0 <= x < |j| && x != bi ==> j[x] == j0[x])
    && (j[bi] == j0[bi] || j[bi] == SetError(j0[bi]))
    && (j[bi].flags.error <==> !GoodHeader(j0[bi]) || exists i :: 0 <= i < n && !RefOk(c, j0, bi, i))
  }

  predicate FitsBelow(c: Env, j: Journal, bi: nat, n: nat)
    requires bi < |j|
  {
    forall i :: 0 <= i < n && Journaled(c, j[bi], bi, i) ==> Delta(c, j[bi], bi, i) < |j|
  }

  /** Reference `n` of block `bi` fails against the journal as it now stands. */
  predicate Fails(c: Env, j: Journal, bi: nat, n: nat)
    requires bi < |j|
  {
    Journaled(c, j[bi], bi, n) &&
    var d := j[(bi + Delta(c, j[bi], bi, n)) % |j|];
    Potential(c, d) || !SumOk(c, RefAt(c, j[bi], bi, n), d)
  }

  lemma {:induction false} SameDelta(c: Env, b: Block, b': Block, bi: nat, n: nat)
    requires b'.refs == b.refs
    ensures Delta(c, b', bi, n) == Delta(c, b, bi, n)
  {
    if n > 0 {
      SameDelta(c, b, b', bi, n - 1);
    }
  }

  lemma CheckStep(c: Env, j0: Journal, j: Journal, bi: nat, n: nat)
    requires Checking(c, j0, j, bi, n)
    ensures Delta(c, j[bi], bi, n) == Delta(c, j0[bi], bi, n)
    ensures Checking(c, j0, if Fails(c, j, bi, n) then j[bi := SetError(j[bi])] else j, bi, n + 1)
  {
    SameDelta(c, j0[bi], j[bi], bi, n);
    var j' := if Fails(c, j, bi, n) then j[bi := SetError(j[bi])] else j;
    if !j[bi].flags.error {
      assert j == j0;
      assert Fails(c, j, bi, n) <==> !RefOk(c, j0, bi, n);
    }
    if j[bi].flags.error && GoodHeader(j0[bi]) {
      var i :| 0 <= i < n && !RefOk(c, j0, bi, i);
    }
  }

  /** The outcome of the checks on block `bi`. */
  lemma CheckedAll(c: Env, j0: Journal, j: Journal, bi: nat)
    requires bi < |j0| && Checking(c, j0, j, bi, j0[bi].nref)
    ensures j[bi].flags.error <==> !Acceptable(c, j0, bi)
    ensures j == if Acceptable(c, j0, bi) then j0 else j0[bi := SetError(j0[bi])]
  {
  }

  lemma InsertPositionIs(j: Journal, mr: seq<nat>, s: Tid, x: nat)
    requires x <= |mr| && forall y :: 0 <= y < x ==> !Precedes(j, s, mr[y])
    requires x < |mr| ==> Precedes(j, s, mr[x])
    ensures x == InsertPosition(j, mr, s)
  {
  }

  /** The flags gathered for a transaction while no error has been found. */
  predicate Gathered(p: Progress, flags: Flags) {
    (flags == NO_FLAGS <==> p.NotSeen?) && (flags.commit <==> p.Committed?) && !flags.complete
  }

  ghost predicate AllContained(j: Journal, mr: seq<nat>, tids: seq<Tid>)
    requires Indices(j, mr)
  {
    forall t :: t in tids ==> Contained(j, mr, t)
  }

  lemma AlsoContained(j: Journal, mr: seq<nat>, tids: seq<Tid>, t: Tid)
    requires Indices(j, mr)
    ensures AllContained(j, mr, tids + [t]) <==> AllContained(j, mr, tids) && Contained(j, mr, t)
  {
  }

  predicate AllMeta(j: Journal, mr: seq<nat>)
    requires Indices(j, mr)
  {
    forall x :: 0 <= x < |mr| ==> j[mr[x]].flags.meta
  }

  lemma ScanIsSound(c: Env, original: Journal, s: Scan)
    requires WellScanned(c, original, s) && s.mr != []
    ensures Sound(s) && AllMeta(s.blocks, s.mr)
  {
  }

  /**
   * What the writes of `run` do to any disk: no block is written twice, and whether or not the
   * replay is interrupted after `k` writes and started over, the disk becomes the one on which
   * every reference in the committable region has been applied in sequence order.
   */
  lemma ReplayEquivalence(c: Env, s: Scan, disk: Disk, k: nat)
    requires Sound(s) && k <= |Pruned(Ops(c, s))|
    ensures var writes := Pruned(Ops(c, s));
            && WrittenOnce(writes)
            && Apply(disk, writes) == Naive(disk, Ops(c, s))
            && Apply(Apply(disk, writes[..k]), writes) == Naive(disk, Ops(c, s))
  {
    PrunedWritesOnce(Ops(c, s));
    PrunedIsNaive(disk, Ops(c, s));
    CrashIdempotent(disk, Pruned(Ops(c, s)), k);
  }

  class JournalReplayer {
    const env: Env
    const jd: array<Block>
    var mr: seq<nat>
    var ok: bool

    constructor (env: Env, jd: array<Block>)
      ensures this.env == env && this.jd == jd && mr == [] && ok
    {
      this.env := env;
      this.jd := jd;
      mr := [];
      ok := true;
    }

    ghost function State(): Scan
      reads this, jd
    {
      Scan(jd[..], mr, ok)
    }

    // -------------------------------------------------------------- first pass

    /** Flag metablock `bi` unless block `dbi` looks like the data that the reference describes. */
    method CheckData(bi: nat, dbi: nat, ref: Ref)
      requires bi < jd.Length && dbi < jd.Length
      modifies jd
      ensures jd[..] == if Potential(env, old(jd[dbi])) || !SumOk(env, ref, old(jd[dbi]))
                        then old(jd[..])[bi := SetError(old(jd[bi]))] else old(jd[..])
    {
      if Potential(env, jd[dbi]) {
        jd[bi] := SetError(jd[bi]);
      } else if ref.bchecksum != NOCHECKSUM && ref.bchecksum != env.data(jd[dbi]) {
        jd[bi] := SetError(jd[bi]);
      }
    }

    method AnalyzeBlockReference(ghost j0: Journal, bi: nat, refi: nat, delta: nat) returns (delta': nat)
      requires Checking(env, j0, jd[..], bi, refi) && delta == Delta(env, j0[bi], bi, refi)
      modifies this, jd
      ensures Checking(env, j0, jd[..], bi, refi + 1) && delta' == Delta(env, j0[bi], bi, refi + 1)
      ensures mr == old(mr)
      ensures ok == (old(ok) && (Journaled(env, j0[bi], bi, refi) ==> delta < |j0|))
    {
      ghost var j := jd[..];
      CheckStep(env, j0, j, bi, refi);
      var ref := RefAt(env, jd[bi], bi, refi);
      delta' := delta;
      if !ref.bflags.nonjournaled {
        if delta >= jd.Length {
          ok := false;
        }
        CheckData(bi, (bi + delta) % jd.Length, ref);
        delta' := delta + 1;
      }
      assert jd[..] == if Fails(env, j, bi, refi) then j[bi := SetError(j[bi])] else j;
    }

    /** Put block `bi` in the list of metablocks, in sequence number order. */
    method AddMetablock(bi: nat)
      requires bi < jd.Length && Indices(jd[..], mr)
      modifies this`mr
      ensures mr == Insert(jd[..], old(mr), bi)
    {
      var x := 0;
      while x != |mr| && jd[bi].sequence - jd[mr[x]].sequence >= 0
        invariant x <= |mr|
        invariant forall y :: 0 <= y < x ==> !Precedes(jd[..], jd[bi].sequence, mr[y])
        decreases |mr| - x
      {
        x := x + 1;
      }
      InsertPositionIs(jd[..], mr, jd[bi].sequence, x);
      mr := mr[..x] + [bi] + mr[x..];
    }

    /** The checks on the flags and reference count of block `bi`. */
    method AnalyzeHeader(bi: nat)
      requires bi < jd.Length
      modifies jd
      ensures Checking(env, old(jd[..]), jd[..], bi, 0)
    {
      if jd[bi].flags.error || jd[bi].flags.corrupt {
        jd[bi] := SetError(jd[bi]);
      }
      if !jd[bi].flags.meta {
        jd[bi] := SetError(jd[bi]);
      }
      if jd[bi].nref > |jd[bi].refs| {
        jd[bi] := SetError(jd[bi]);
      }
    }

    method AnalyzeReferences(ghost j0: Journal, bi: nat)
      requires Checking(env, j0, jd[..], bi, 0)
      modifies this, jd
      ensures mr == old(mr)
      ensures jd[bi].flags.error <==> !Acceptable(env, j0, bi)
      ensures jd[..] == if Acceptable(env, j0, bi) then j0 else j0[bi := SetError(j0[bi])]
      ensures ok == (old(ok) && RunFits(env, j0, bi))
    {
      var delta := 1;
      var refi := 0;
      while refi != jd[bi].nref
        invariant refi <= j0[bi].nref && Checking(env, j0, jd[..], bi, refi)
        invariant delta == Delta(env, j0[bi], bi, refi)
        invariant mr == old(mr) && ok == (old(ok) && FitsBelow(env, j0, bi, refi))
        decreases j0[bi].nref - refi
      {
        delta := AnalyzeBlockReference(j0, bi, refi, delta);
        refi := refi + 1;
      }
      CheckedAll(env, j0, jd[..], bi);
    }

    method AnalyzeBlock(bi: nat)
      requires bi < jd.Length && Indices(jd[..], mr)
      modifies this, jd
      ensures State() == ScanBlock(env, old(State()), bi)
    {
      if Potential(env, jd[bi]) {
        AnalyzeHeader(bi);
        AnalyzeReferences(old(jd[..]), bi);
        if !jd[bi].flags.error {
          AddMetablock(bi);
        }
      }
    }

    method ScanJournal()
      requires mr == [] && ok
      modifies this, jd
      ensures State() == ScanAll(env, old(jd[..]))
    {
      ghost var j0 := jd[..];
      var bi := 0;
      while bi != jd.Length
        invariant bi <= jd.Length && State() == ScanUpTo(env, j0, bi)
        decreases jd.Length - bi
      {
        ScanKeeps(env, j0, bi);
        AnalyzeBlock(bi);
        bi := bi + 1;
      }
    }

    // -------------------------------------------------------------- metablock checks

    method CheckMetablocks()
      requires Indices(jd[..], mr)
      modifies this`ok
      ensures ok == (old(ok) && ChainOk(jd[..], mr, |mr|))
    {
      var mi := 0;
      while mi != |mr|
        invariant mi <= |mr| && ok == (old(ok) && ChainOk(jd[..], mr, mi))
        decreases |mr| - mi
      {
        CheckMetablock(mi);
        mi := mi + 1;
      }
    }

    method CheckMetablock(mi: nat)
      requires Indices(jd[..], mr) && mi < |mr|
      modifies this`ok
      ensures ok == (old(ok) && LinkOk(jd[..], mr, mi))
    {
      var cur := jd[mr[mi]];
      if mi != 0 {
        CheckSuccessor(cur, jd[mr[mi - 1]]);
      }
      CheckBoundaries(cur);
    }

    method CheckSuccessor(cur: Block, last: Block)
      modifies this`ok
      ensures ok == (old(ok) && FollowsOk(cur, last))
    {
      if cur.sequence == last.sequence {
        ok := false;
      }
      if TidLt(cur.commitBoundary, last.commitBoundary) {
        ok := false;
      }
      if TidLt(cur.completeBoundary, last.completeBoundary) {
        ok := false;
      }
      if cur.nref != 0 && TidLt(cur.tid, last.commitBoundary) {
        ok := false;
      }
    }

    method CheckBoundaries(cur: Block)
      modifies this`ok
      ensures ok == (old(ok) && BoundariesOk(cur))
    {
      if TidGt(cur.completeBoundary, cur.commitBoundary) {
        ok := false;
      }
      if cur.nref != 0 && TidLt(cur.tid, cur.completeBoundary) {
        ok := false;
      }
      if cur.flags.complete && TidGe(cur.tid, cur.completeBoundary) {
        ok := false;
      }
      if cur.flags.commit && TidGe(cur.tid, cur.commitBoundary) {
        ok := false;
      }
    }

    // -------------------------------------------------------------- transaction checks

    /** One turn of the loop of `analyze_tid`: metablock `mi` against the flags gathered so far. */
    method AnalyzeTidStep(tid: Tid, mi: nat, flags: Flags, ghost p: Progress) returns (flags': Flags, bad: bool)
      requires Indices(jd[..], mr) && AllMeta(jd[..], mr) && mi < |mr|
      requires mi == 0 ==> flags == NO_FLAGS
      ensures Gathered(p, flags) ==> (bad <==> !Fits(jd[..], mr, tid, p, mi))
      ensures Gathered(p, flags) && !bad ==> Gathered(Advance(jd[..], mr, tid, p, mi), flags')
    {
      var jmb := jd[mr[mi]];
      flags' := flags;
      bad := false;
      if flags != NO_FLAGS {
        var wantSeq := TidNext(jd[mr[mi - 1]].sequence);
        if jmb.sequence != wantSeq && !flags.commit {
          bad := true;
        }
      }
      if jmb.tid == tid {
        var tidFlags := jmb.flags;
        if TidGt(jmb.commitBoundary, tid) {
          tidFlags := tidFlags.(commit := true);
        }
        if TidGt(jmb.completeBoundary, tid) {
          tidFlags := tidFlags.(complete := true);
        }
        if tidFlags.start != (flags == NO_FLAGS) {
          bad := true;
        }
        if flags.commit && jmb.nref != 0 {
          bad := true;
        }
        if flags.complete {
          bad := true;
        }
        if tidFlags.complete {
          bad := true;
        }
        flags' := OrFlags(flags, tidFlags);
      }
    }

    method AnalyzeTid(tid: Tid)
      requires Indices(jd[..], mr) && AllMeta(jd[..], mr)
      modifies this`ok
      ensures ok == (old(ok) && Contained(jd[..], mr, tid))
    {
      var flags := NO_FLAGS;
      ghost var p, good := NotSeen, true;
      var mi := 0;
      while mi != |mr|
        invariant mi <= |mr| && (mi == 0 ==> flags == NO_FLAGS)
        invariant good ==> ok == old(ok) && Reached(jd[..], mr, tid, p, mi) && Gathered(p, flags)
        invariant !good ==> !ok && !Contained(jd[..], mr, tid)
        decreases |mr| - mi
      {
        var flags', bad := AnalyzeTidStep(tid, mi, flags, p);
        if bad {
          ok := false;
        }
        if good {
          if bad {
            NoSpan(jd[..], mr, tid, p, mi);
            good := false;
          } else {
            ReachedNext(jd[..], mr, tid, p, mi);
            p := Advance(jd[..], mr, tid, p, mi);
          }
        }
        flags := flags';
        mi := mi + 1;
      }
      if good {
        EndOfLog(jd[..], mr, tid, p);
      }
      if !flags.commit {
        ok := false;
      }
    }

    method AnalyzeTids(complete: Tid, commit: Tid)
      requires Indices(jd[..], mr) && AllMeta(jd[..], mr)
      modifies this`ok
      ensures ok == (old(ok) && AllContained(jd[..], mr, TidsBetween(complete, commit)))
    {
      var tid := complete;
      ghost var done: seq<Tid> := [];
      while tid != commit
        invariant TidsBetween(complete, commit) == done + TidsBetween(tid, commit)
        invariant ok == (old(ok) && AllContained(jd[..], mr, done))
        decreases TidSteps(tid, commit)
      {
        AnalyzeTid(tid);
        AlsoContained(jd[..], mr, done, tid);
        StepsDown(tid, commit);
        done := done + [tid];
        tid := TidNext(tid);
      }
    }

    // -------------------------------------------------------------- superseded references

    /** Mark reference `pr` of metablock `pm` if it is to `bn`. */
    method MarkReference(ghost s: Scan, ghost j0: Journal, bn: nat, pm: nat, pr: nat, ghost cm: nat, ghost cr: nat)
      requires Sound(s) && s.mr == mr && At(s, pm, pr) && Before(pm, pr, cm, cr)
      requires MarksAdded(s, j0, jd[..], bn, pm, pr + 1, cm, cr)
      modifies jd
      ensures MarksAdded(s, j0, jd[..], bn, pm, pr, cm, cr)
    {
      ghost var j := jd[..];
      MarkOne(s, j0, j, bn, pm, pr, cm, cr);
      var m := mr[pm];
      if jd[m].refs[pr].bn == bn {
        jd[m] := jd[m].(refs := jd[m].refs[pr := WithMark(jd[m].refs[pr], true)]);
        assert jd[..] == SetMark(j, m, pr);
      }
    }

    /** Mark the references to `bn` in metablock `pm` below `refx`. */
    method MarkInBlock(ghost s: Scan, ghost j0: Journal, bn: nat, pm: nat, refx0: nat, ghost cm: nat, ghost cr: nat)
      requires Sound(s) && s.mr == mr && pm < |mr| && refx0 <= Meta(s, pm).nref
      requires pm < cm || (pm == cm && refx0 <= cr)
      requires MarksAdded(s, j0, jd[..], bn, pm, refx0, cm, cr)
      modifies jd
      ensures MarksAdded(s, j0, jd[..], bn, pm, 0, cm, cr)
    {
      var refx := refx0;
      while refx != 0
        invariant 0 <= refx <= refx0 && MarksAdded(s, j0, jd[..], bn, pm, refx, cm, cr)
      {
        refx := refx - 1;
        MarkReference(s, j0, bn, pm, refx, cm, cr);
      }
    }

    /** One turn of the outer marking loop: metablock `pm`, below `refx`. */
    method MarkInMetablock(ghost s: Scan, ghost j0: Journal, bn: nat, pm: nat, refx: nat, ghost cm: nat, ghost cr: nat)
      returns (refx': nat)
      requires Sound(s) && s.mr == mr && MarkCursor(s, j0, jd[..], bn, pm + 1, refx, cm, cr)
      modifies jd
      ensures MarkCursor(s, j0, jd[..], bn, pm, refx', cm, cr)
    {
      SameMeta(s, jd[..], pm);
      refx' := refx;
      if refx' > jd[mr[pm]].nref {
        refx' := jd[mr[pm]].nref;
      }
      MarkInBlock(s, j0, bn, pm, refx', cm, cr);
      MarkDown(s, j0, jd[..], bn, pm, cm, cr);
      refx' := 0xFFFF_FFFF;
    }

    method MarkOverwrittenBlock(ghost s: Scan, bn: nat, mx0: nat, refx0: nat)
      requires Sound(s) && s.mr == mr && Marking(s, jd[..])
      requires 1 <= mx0 <= |mr| && refx0 <= Meta(s, mx0 - 1).nref
      modifies jd
      ensures MarksAdded(s, old(jd[..]), jd[..], bn, 0, 0, mx0 - 1, refx0)
    {
      MarkFirst(s, jd[..], bn, mx0 - 1, refx0);
      var refx := MarkDownFrom(s, jd[..], bn, mx0, refx0, mx0 - 1, refx0);
      MarkLast(s, old(jd[..]), jd[..], bn, refx, mx0 - 1, refx0);
    }

    /** The outer marking loop. */
    method MarkDownFrom(ghost s: Scan, ghost j0: Journal, bn: nat, mx0: nat, refx0: nat, ghost cm: nat, ghost cr: nat)
      returns (refx: nat)
      requires Sound(s) && s.mr == mr && MarkCursor(s, j0, jd[..], bn, mx0, refx0, cm, cr)
      modifies jd
      ensures MarkCursor(s, j0, jd[..], bn, 0, refx, cm, cr)
    {
      var mx := mx0;
      refx := refx0;
      while mx != 0
        invariant 0 <= mx && Whole(MarkCursor(s, j0, jd[..], bn, mx, refx, cm, cr))
      {
        mx := mx - 1;
        refx := MarkInMetablock(s, j0, bn, mx, refx, cm, cr);
      }
    }

    method AnalyzeOverwrittenBlocks(ghost s: Scan, mi: nat)
      requires Sound(s) && s.mr == mr && mi < |mr| && Replayed(s, mi)
      requires MarkedTo(env, s, jd[..], mi + 1, 0)
      modifies jd
      ensures MarkedTo(env, s, jd[..], mi, 0)
    {
      MarkEnter(env, s, jd[..], mi);
      SameMeta(s, jd[..], mi);
      var refx := jd[mr[mi]].nref;
      while refx != 0
        invariant 0 <= refx <= Meta(s, mi).nref && MarkedTo(env, s, jd[..], mi, refx)
      {
        refx := refx - 1;
        AnalyzeOverwrittenReference(s, mi, refx);
      }
    }

    method AnalyzeOverwrittenReference(ghost s: Scan, mi: nat, ri: nat)
      requires Sound(s) && s.mr == mr && mi < |mr| && Replayed(s, mi)
      requires ri < Meta(s, mi).nref && MarkedTo(env, s, jd[..], mi, ri + 1)
      modifies jd
      ensures MarkedTo(env, s, jd[..], mi, ri)
    {
      ghost var j := jd[..];
      SameRef(s, j, mi, ri);
      var ref := jd[mr[mi]].refs[ri];
      if !ref.bflags.overwritten {
        MarkOverwrittenBlock(s, ref.bn, mi + 1, ri);
        UnmarkedStep(env, s, j, jd[..], mi, ri);
      } else {
        MarkedStep(env, s, j, mi, ri);
      }
    }

    method MarkSuperseded(ghost s: Scan, complete: Tid, commit: Tid)
      requires Sound(s) && s.mr == mr && s.blocks == jd[..]
      requires complete == Last(s).completeBoundary && commit == Last(s).commitBoundary
      modifies jd
      ensures MarkedTo(env, s, jd[..], 0, 0)
    {
      MarkStart(env, s);
      var mx := |mr|;
      while mx != 0
        invariant 0 <= mx <= |mr| && MarkedTo(env, s, jd[..], mx, 0)
      {
        mx := mx - 1;
        SameMeta(s, jd[..], mx);
        var tid := jd[mr[mx]].tid;
        if TidGe(tid, complete) && TidLt(tid, commit) {
          AnalyzeOverwrittenBlocks(s, mx);
        } else {
          MarkSkip(env, s, jd[..], mx);
        }
      }
    }

    // -------------------------------------------------------------- analysis and replay

    /** Analyze the journal; true exactly when it can be replayed. */
    method Analyze() returns (r: bool)
      requires mr == [] && ok
      modifies this, jd
      ensures var s := ScanAll(env, old(jd[..]));
              && Indices(s.blocks, s.mr) && mr == s.mr && (r ==> ok)
              && (r <==> Replayable(s))
              && (r ==> Sound(s) && MarkedTo(env, s, jd[..], 0, 0))
    {
      ghost var j0 := jd[..];
      ScanJournal();
      ScanAllWell(env, j0);
      ghost var s := State();
      if !ok {
        return false;
      } else if mr == [] {
        return false;
      }
      ScanIsSound(env, j0, s);
      CheckMetablocks();
      if !ok {
        return false;
      }
      var complete, commit := jd[mr[|mr| - 1]].completeBoundary, jd[mr[|mr| - 1]].commitBoundary;
      AnalyzeTids(complete, commit);
      MarkSuperseded(s, complete, commit);
      return ok;
    }

    /** The journal `j0` has been analyzed successfully. */
    ghost predicate Analyzed(j0: Journal)
      reads this, jd
    {
      var s := ScanAll(env, j0);
      ok && mr == s.mr && Sound(s) && Replayable(s) && MarkedTo(env, s, jd[..], 0, 0)
    }

    /** Write out, or pass over, reference `refi` of metablock `mi`. */
    method RunReference(ghost s: Scan, ghost marked: Journal, mi: nat, refi: nat, delta: nat, before: seq<Write>)
      returns (out: seq<Write>, delta': nat)
      requires Sound(s) && mr == s.mr && Ready(env, s, marked)
      requires At(s, mi, refi) && Replayed(s, mi) && RunAt(env, s, marked, jd[..], mi, refi)
      requires delta == Delta(env, Meta(s, mi), mr[mi], refi)
      modifies jd
      ensures RunAt(env, s, marked, jd[..], mi, refi + 1)
      ensures delta' == Delta(env, Meta(s, mi), mr[mi], refi + 1)
      ensures out + Pruned(OpsFrom(env, s, mi, refi + 1)) == before + Pruned(OpsFrom(env, s, mi, refi))
    {
      RunEffect(env, s, marked, jd[..], mi, refi, delta, before);
      out, delta' := WriteReference(mr[mi], refi, delta, before);
    }

    /** The body of the inner loop of `run`. */
    method WriteReference(bi: nat, refi: nat, delta: nat, before: seq<Write>) returns (out: seq<Write>, delta': nat)
      requires bi < jd.Length && refi < |jd[bi].refs|
      modifies jd
      ensures (jd[..], out, delta') == Written(old(jd[..]), bi, refi, delta, before)
    {
      var ref := jd[bi].refs[refi];
      out, delta' := before, delta;
      if !ref.bflags.overwritten && !ref.bflags.nonjournaled {
        var dbi := (bi + delta) % jd.Length;
        if ref.bflags.escaped {
          jd[dbi] := jd[dbi].(magic := JOURNALMAGIC);
        }
        out := before + [Write(ref.bn, jd[dbi])];
        assert jd[..] == old(jd[..])[dbi := jd[dbi]];
      }
      if !ref.bflags.nonjournaled {
        delta' := delta + 1;
      }
    }

    method RunMetablock(ghost s: Scan, ghost marked: Journal, mi: nat, before: seq<Write>) returns (out: seq<Write>)
      requires Sound(s) && mr == s.mr && Ready(env, s, marked)
      requires mi < |mr| && Replayed(s, mi) && RunAt(env, s, marked, jd[..], mi, 0)
      modifies jd
      ensures RunAt(env, s, marked, jd[..], mi + 1, 0)
      ensures out + Pruned(OpsFrom(env, s, mi + 1, 0)) == before + Pruned(OpsFrom(env, s, mi, 0))
    {
      out := before;
      var delta, refi := 1, 0;
      SameMeta(s, marked, mi);
      while refi != jd[mr[mi]].nref
        invariant 0 <= refi <= Meta(s, mi).nref && RunAt(env, s, marked, jd[..], mi, refi)
        invariant delta == Delta(env, Meta(s, mi), mr[mi], refi)
        invariant out + Pruned(OpsFrom(env, s, mi, refi)) == before + Pruned(OpsFrom(env, s, mi, 0))
        decreases Meta(s, mi).nref - refi
      {
        out, delta := RunReference(s, marked, mi, refi, delta, out);
        refi := refi + 1;
      }
      RunNext(env, s, marked, jd[..], mi);
    }

    method RunIfSelected(ghost s: Scan, ghost marked: Journal, mi: nat, complete: Tid, commit: Tid, before: seq<Write>)
      returns (out: seq<Write>)
      requires Sound(s) && mr == s.mr && Ready(env, s, marked)
      requires mi < |mr| && RunAt(env, s, marked, jd[..], mi, 0)
      requires complete == Last(s).completeBoundary && commit == Last(s).commitBoundary
      modifies jd
      ensures RunAt(env, s, marked, jd[..], mi + 1, 0)
      ensures out + Pruned(OpsFrom(env, s, mi + 1, 0)) == before + Pruned(OpsFrom(env, s, mi, 0))
    {
      SameMeta(s, marked, mi);
      var tid := jd[mr[mi]].tid;
      if TidGe(tid, complete) && TidLt(tid, commit) {
        out := RunMetablock(s, marked, mi, before);
      } else {
        out := before;
        RunSkip(env, s, marked, jd[..], mi);
      }
    }

    /** Replay the journal; returns the blocks written, in order. */
    method Run(ghost j0: Journal) returns (writes: seq<Write>)
      requires Analyzed(j0)
      modifies jd
      ensures writes == Pruned(Ops(env, ScanAll(env, j0)))
    {
      ghost var s, marked := ScanAll(env, j0), jd[..];
      ScanAllWell(env, j0);
      RunStart(env, s, marked);
      SameMeta(s, marked, |mr| - 1);
      var complete, commit := jd[mr[|mr| - 1]].completeBoundary, jd[mr[|mr| - 1]].commitBoundary;
      writes := [];
      var mi := 0;
      while mi != |mr|
        invariant 0 <= mi <= |mr| && RunAt(env, s, marked, jd[..], mi, 0)
        invariant writes + Pruned(OpsFrom(env, s, mi, 0)) == Pruned(Ops(env, s))
        decreases |mr| - mi
      {
        writes := RunIfSelected(s, marked, mi, complete, commit, writes);
        mi := mi + 1;
      }
      assert writes + [] == writes;
    }
  }

  /** The writes replay what the scanned journal says, on any disk, interrupted or not. */
  ghost predicate Replays(c: Env, s: Scan, writes: seq<Write>)
    requires Sound(s)
  {
    && WrittenOnce(writes)
    && forall disk: Disk, k: nat :: k <= |writes| ==> Apply(Apply(disk, writes[..k]), writes) == Naive(disk, Ops(c, s))
  }

  /**
   * `analyze` and then `run`, on any journal: it is replayed exactly if it is replayable, and then
   * every disk becomes the one that the naive replay of all its references gives.
   */
  method ReplayJournal(env: Env, jd: array<Block>) returns (replayed: bool, writes: seq<Write>)
    modifies jd
    ensures var s := ScanAll(env, old(jd[..]));
            && Indices(s.blocks, s.mr) && (replayed <==> Replayable(s))
            && (replayed ==> Sound(s) && Replays(env, s, writes)) && (!replayed ==> writes == [])
  {
    ghost var j0 := jd[..];
    ghost var s := ScanAll(env, j0);
    var replayer := new JournalReplayer(env, jd);
    writes := [];
    replayed := replayer.Analyze();
    if replayed {
      writes := replayer.Run(j0);
      forall disk: Disk, k: nat | k <= |writes|
        ensures Apply(Apply(disk, writes[..k]), writes) == Naive(disk, Ops(env, s))
      {
        ReplayEquivalence(env, s, disk, k);
      }
      ReplayEquivalence(env, s, map[], 0);
    }
  }
}
