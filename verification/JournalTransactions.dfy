/**
 * The metablock and transaction checks of `journalreplayer::analyze` (journalreplayer.cc).
 */
module JournalTransactions {
  import opened JournalFormat
  import opened JournalScan

  /** The checks on a metablock against the one before it in sequence order. */
  predicate FollowsOk(cur: Block, last: Block) {
    && cur.sequence != last.sequence
    && !TidLt(cur.commitBoundary, last.commitBoundary)
    && !TidLt(cur.completeBoundary, last.completeBoundary)
    && !(cur.nref != 0 && TidLt(cur.tid, last.commitBoundary))
  }

  predicate BoundariesOk(cur: Block) {
    && !TidGt(cur.completeBoundary, cur.commitBoundary)
    && !(cur.nref != 0 && TidLt(cur.tid, cur.completeBoundary))
    && !(cur.flags.complete && TidGe(cur.tid, cur.completeBoundary))
    && !(cur.flags.commit && TidGe(cur.tid, cur.commitBoundary))
  }

  predicate LinkOk(j: Journal, mr: seq<nat>, mi: nat)
    requires Indices(j, mr) && mi < |mr|
  {
    && (mi > 0 ==> FollowsOk(j[mr[mi]], j[mr[mi - 1]]))
    && BoundariesOk(j[mr[mi]])
  }

  ghost predicate ChainOk(j: Journal, mr: seq<nat>, n: nat)
    requires Indices(j, mr) && n <= |mr|
  {
    forall mi :: 0 <= mi < n ==> LinkOk(j, mr, mi)
  }

  // ---------------------------------------------------------------- transactions

  predicate Belongs(j: Journal, mr: seq<nat>, tid: Tid, mi: int)
    requires Indices(j, mr)
  {
    0 <= mi < |mr| && j[mr[mi]].tid == tid
  }

  /** Metablock `mi` records that `tid` is committed. */
  predicate Commits(j: Journal, mr: seq<nat>, tid: Tid, mi: nat)
    requires Indices(j, mr) && mi < |mr|
  {
    j[mr[mi]].flags.commit || TidGt(j[mr[mi]].commitBoundary, tid)
  }

  predicate Completes(j: Journal, mr: seq<nat>, tid: Tid, mi: nat)
    requires Indices(j, mr) && mi < |mr|
  {
    j[mr[mi]].flags.complete || TidGt(j[mr[mi]].completeBoundary, tid)
  }

  predicate Adjacent(j: Journal, mr: seq<nat>, mi: nat)
    requires Indices(j, mr) && 0 < mi < |mr|
  {
    j[mr[mi]].sequence == TidNext(j[mr[mi - 1]].sequence)
  }

  /** `a` is the first metablock of `tid` among the first `n`, and the only one that starts it. */
  ghost predicate Begins(j: Journal, mr: seq<nat>, tid: Tid, a: nat, n: nat)
    requires Indices(j, mr) && n <= |mr|
  {
    && a < n && Belongs(j, mr, tid, a)
    && forall mi :: 0 <= mi < n && Belongs(j, mr, tid, mi) ==> a <= mi && (j[mr[mi]].flags.start <==> mi == a)
  }

  /** No sequence number is missing after `a` up to and including `c`. */
  ghost predicate GapFree(j: Journal, mr: seq<nat>, a: nat, c: nat)
    requires Indices(j, mr) && c < |mr|
  {
    forall mi :: a < mi <= c ==> Adjacent(j, mr, mi)
  }

  /**
   * Transaction `tid` occupies the metablocks from `a` to `c`: `a` alone starts it, `c` is the
   * first to commit it, no sequence number in between is missing, no data follows the commit
   * and nothing completes it. Only the first `n` metablocks are considered.
   */
  ghost predicate Span(j: Journal, mr: seq<nat>, tid: Tid, a: nat, c: nat, n: nat)
    requires Indices(j, mr) && n <= |mr|
  {
    && Begins(j, mr, tid, a, n)
    && a <= c < n && Belongs(j, mr, tid, c) && Commits(j, mr, tid, c)
    && GapFree(j, mr, a, c)
    && (forall mi :: 0 <= mi < n && Belongs(j, mr, tid, mi) ==>
          && !Completes(j, mr, tid, mi)
          && (mi < c ==> !Commits(j, mr, tid, mi))
          && (mi > c ==> j[mr[mi]].nref == 0))
  }

  /** The transaction is completely contained in the log. */
  ghost predicate Contained(j: Journal, mr: seq<nat>, tid: Tid)
    requires Indices(j, mr)
  {
    exists a: nat, c: nat :: Span(j, mr, tid, a, c, |mr|)
  }

  /** The transaction has started but no commit has been seen in the first `n` metablocks. */
  ghost predicate Open(j: Journal, mr: seq<nat>, tid: Tid, a: nat, n: nat)
    requires Indices(j, mr) && n <= |mr|
  {
    && Begins(j, mr, tid, a, n) && GapFree(j, mr, a, n - 1)
    && forall mi :: 0 <= mi < n && Belongs(j, mr, tid, mi) ==> !Completes(j, mr, tid, mi) && !Commits(j, mr, tid, mi)
  }

  ghost predicate Unseen(j: Journal, mr: seq<nat>, tid: Tid, n: nat)
    requires Indices(j, mr) && n <= |mr|
  {
    forall mi :: 0 <= mi < n ==> !Belongs(j, mr, tid, mi)
  }

  /** What the flags gathered over the first `n` metablocks mean while no error has been found. */
  datatype Progress = NotSeen | Started(a: nat) | Committed(a: nat, c: nat)

  ghost predicate Reached(j: Journal, mr: seq<nat>, tid: Tid, p: Progress, n: nat)
    requires Indices(j, mr) && n <= |mr|
  {
    match p
    case NotSeen => Unseen(j, mr, tid, n)
    case Started(a) => Open(j, mr, tid, a, n)
    case Committed(a, c) => Span(j, mr, tid, a, c, n)
  }

  /** Metablock `n` fits after progress `p`: the errors `analyze_tid` looks for are absent. */
  predicate Fits(j: Journal, mr: seq<nat>, tid: Tid, p: Progress, n: nat)
    requires Indices(j, mr) && n < |mr|
  {
    && (p.Started? && n > 0 ==> Adjacent(j, mr, n))
    && (Belongs(j, mr, tid, n) ==>
          && (j[mr[n]].flags.start <==> p.NotSeen?)
          && (p.Committed? ==> j[mr[n]].nref == 0)
          && !Completes(j, mr, tid, n))
  }

  function Advance(j: Journal, mr: seq<nat>, tid: Tid, p: Progress, n: nat): Progress
    requires Indices(j, mr) && n < |mr|
  {
    if !Belongs(j, mr, tid, n) || p.Committed? then p
    else
      var a := if p.Started? then p.a else n;
      if Commits(j, mr, tid, n) then Committed(a, n) else Started(a)
  }

  lemma ReachedNext(j: Journal, mr: seq<nat>, tid: Tid, p: Progress, n: nat)
    requires Indices(j, mr) && n < |mr| && Reached(j, mr, tid, p, n) && Fits(j, mr, tid, p, n)
    ensures Reached(j, mr, tid, Advance(j, mr, tid, p, n), n + 1)
  {
  }

  lemma SpanFits(j: Journal, mr: seq<nat>, tid: Tid, p: Progress, n: nat, a: nat, c: nat)
    requires Indices(j, mr) && n < |mr| && Reached(j, mr, tid, p, n) && Span(j, mr, tid, a, c, |mr|)
    ensures Fits(j, mr, tid, p, n)
  {
    assert p.Started? ==> Belongs(j, mr, tid, p.a) && p.a == a && c >= n;
    assert p.Committed? ==> Belongs(j, mr, tid, p.a) && Belongs(j, mr, tid, p.c) && p.a == a && p.c == c;
  }

  /** An error found at metablock `n` means that no span exists. */
  lemma NoSpan(j: Journal, mr: seq<nat>, tid: Tid, p: Progress, n: nat)
    requires Indices(j, mr) && n < |mr| && Reached(j, mr, tid, p, n) && !Fits(j, mr, tid, p, n)
    ensures !Contained(j, mr, tid)
  {
    if Contained(j, mr, tid) {
      var a: nat, c: nat :| Span(j, mr, tid, a, c, |mr|);
      SpanFits(j, mr, tid, p, n, a, c);
    }
  }

  lemma EndOfLog(j: Journal, mr: seq<nat>, tid: Tid, p: Progress)
    requires Indices(j, mr) && Reached(j, mr, tid, p, |mr|)
    ensures Contained(j, mr, tid) <==> p.Committed?
  {
  }

  // ---------------------------------------------------------------- atomicity

  function Last(s: Scan): Block
    requires Indices(s.blocks, s.mr) && s.mr != []
  {
    s.blocks[s.mr[|s.mr| - 1]]
  }

  /** What `analyze` requires of the scanned journal before it returns true. */
  ghost predicate Replayable(s: Scan)
    requires Indices(s.blocks, s.mr)
  {
    && s.ok && s.mr != [] && ChainOk(s.blocks, s.mr, |s.mr|)
    && forall tid :: tid in TidsBetween(Last(s).completeBoundary, Last(s).commitBoundary) ==>
         Contained(s.blocks, s.mr, tid)
  }

  predicate Selected(s: Scan, tid: Tid)
    requires Indices(s.blocks, s.mr) && s.mr != []
  {
    InWindow(tid, Last(s).completeBoundary, Last(s).commitBoundary)
  }

  /**
   * Transaction atomicity: every transaction that is replayed lies completely in the log, its
   * data-carrying metablocks in one run of consecutive sequence numbers from the only block
   * that starts it to a block that commits it.
   */
  lemma ReplayedIsContained(s: Scan, tid: Tid)
    requires Indices(s.blocks, s.mr) && Replayable(s) && Selected(s, tid)
    ensures exists a: nat, c: nat :: Span(s.blocks, s.mr, tid, a, c, |s.mr|)
              && forall mi :: 0 <= mi < |s.mr| && s.blocks[s.mr[mi]].tid == tid && s.blocks[s.mr[mi]].nref > 0 ==>
                   a <= mi <= c
  {
    assert LinkOk(s.blocks, s.mr, |s.mr| - 1);
    WindowIsEnumerated(tid, Last(s).completeBoundary, Last(s).commitBoundary);
    var a: nat, c: nat :| Span(s.blocks, s.mr, tid, a, c, |s.mr|);
    forall mi | 0 <= mi < |s.mr| && s.blocks[s.mr[mi]].tid == tid && s.blocks[s.mr[mi]].nref > 0
      ensures a <= mi <= c
    {
      assert Belongs(s.blocks, s.mr, tid, mi);
    }
  }

  /** Sequence numbers strictly increase along a checked list. */
  lemma {:induction false} StrictSequence(c: Env, original: Journal, s: Scan, x: nat, y: nat)
    requires WellScanned(c, original, s) && ChainOk(s.blocks, s.mr, |s.mr|) && x < y < |s.mr|
    ensures s.blocks[s.mr[x]].sequence < s.blocks[s.mr[y]].sequence
    decreases y
  {
    assert LinkOk(s.blocks, s.mr, y);
    if x < y - 1 {
      StrictSequence(c, original, s, x, y - 1);
    }
  }
}
