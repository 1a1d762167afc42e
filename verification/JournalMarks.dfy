/**
 * Superseded references (journalreplayer.cc): the references of the replayed metablocks in
 * order, and the overwritten flags that the last pass of `analyze` leaves.
 */
module JournalMarks {
  import opened Collections
  import opened JournalFormat
  import opened JournalScan
  import opened JournalReplay
  import opened JournalTransactions

  /** A scanned journal whose listed metablocks have all their references in range. */
  ghost predicate Sound(s: Scan) {
    && Indices(s.blocks, s.mr) && Distinct(s.mr) && s.mr != []
    && forall x :: 0 <= x < |s.mr| ==> s.blocks[s.mr[x]].nref <= |s.blocks[s.mr[x]].refs|
  }

  ghost function Meta(s: Scan, mi: nat): Block
    requires Sound(s) && mi < |s.mr|
  {
    s.blocks[s.mr[mi]]
  }

  ghost predicate At(s: Scan, mi: nat, ri: nat)
    requires Sound(s)
  {
    mi < |s.mr| && ri < Meta(s, mi).nref
  }

  ghost function RefOf(s: Scan, mi: nat, ri: nat): Ref
    requires Sound(s) && At(s, mi, ri)
  {
    Meta(s, mi).refs[ri]
  }

  ghost predicate Replayed(s: Scan, mi: nat)
    requires Sound(s) && mi < |s.mr|
  {
    Selected(s, Meta(s, mi).tid)
  }

  /** The effect of reference `ri` of metablock `mi`, with its data as the journal holds it. */
  ghost function OpOf(c: Env, s: Scan, mi: nat, ri: nat): Op
    requires Sound(s) && At(s, mi, ri)
  {
    var r := RefOf(s, mi, ri);
    if r.bflags.nonjournaled then Cancel(r.bn)
    else Put(r.bn, Unescape(s.blocks[DataOf(c, s.blocks, s.mr[mi], ri)], r.bflags.escaped))
  }

  /** The references to replay, from reference `ri` of metablock `mi` on. */
  ghost function OpsFrom(c: Env, s: Scan, mi: nat, ri: nat): seq<Op>
    requires Sound(s)
    decreases |s.mr| - mi, if mi < |s.mr| then Meta(s, mi).nref - ri else 0
  {
    if mi >= |s.mr| then []
    else if !Replayed(s, mi) || ri >= Meta(s, mi).nref then OpsFrom(c, s, mi + 1, 0)
    else if RefOf(s, mi, ri).bflags.overwritten then OpsFrom(c, s, mi, ri + 1)
    else [OpOf(c, s, mi, ri)] + OpsFrom(c, s, mi, ri + 1)
  }

  /** All references to replay, in sequence order. */
  ghost function Ops(c: Env, s: Scan): seq<Op>
    requires Sound(s)
  {
    OpsFrom(c, s, 0, 0)
  }

  lemma OpsStep(c: Env, s: Scan, mi: nat, ri: nat)
    requires Sound(s) && At(s, mi, ri) && Replayed(s, mi)
    ensures var r := RefOf(s, mi, ri);
            var rest := OpsFrom(c, s, mi, ri + 1);
            && Bns(OpsFrom(c, s, mi, ri)) == (if r.bflags.overwritten then Bns(rest) else {r.bn} + Bns(rest))
            && Pruned(OpsFrom(c, s, mi, ri)) ==
               if !r.bflags.overwritten && !r.bflags.nonjournaled && r.bn !in Bns(rest)
               then [Write(r.bn, OpOf(c, s, mi, ri).data)] + Pruned(rest)
               else Pruned(rest)
  {
    var r := RefOf(s, mi, ri);
    var rest := OpsFrom(c, s, mi, ri + 1);
    if !r.bflags.overwritten {
      assert ([OpOf(c, s, mi, ri)] + rest)[1..] == rest;
    }
  }

  // ---------------------------------------------------------------- positions

  /** Position `(mi, ri)` comes before the cursor `(cm, cr)`. */
  predicate Before(mi: nat, ri: nat, cm: nat, cr: nat) {
    mi < cm || (mi == cm && ri < cr)
  }

  /** The blocks that supersede `(mi, ri)` once the pass has come down to cursor `(cm, cr)`. */
  ghost function Superseding(c: Env, s: Scan, mi: nat, ri: nat, cm: nat, cr: nat): set<nat>
    requires Sound(s)
  {
    if Before(mi, ri, cm, cr) then Bns(OpsFrom(c, s, cm, cr)) else Bns(OpsFrom(c, s, mi, ri + 1))
  }

  // ---------------------------------------------------------------- marked journals

  function WithMark(r: Ref, mark: bool): Ref {
    r.(bflags := r.bflags.(overwritten := mark))
  }

  /** `b` is `b0` except for the overwritten flags of its references. */
  ghost predicate SameButMarks(b0: Block, b: Block) {
    && |b.refs| == |b0.refs| && b == b0.(refs := b.refs)
    && forall r :: 0 <= r < |b.refs| ==> WithMark(b.refs[r], false) == WithMark(b0.refs[r], false)
  }

  ghost predicate Marking(s: Scan, j: Journal)
    requires Sound(s)
  {
    && |j| == |s.blocks|
    && (forall x :: 0 <= x < |j| && x !in s.mr ==> j[x] == s.blocks[x])
    && (forall mi :: 0 <= mi < |s.mr| ==> SameButMarks(Meta(s, mi), j[s.mr[mi]]))
  }

  ghost predicate Marked(s: Scan, j: Journal, mi: nat, ri: nat)
    requires Sound(s) && |j| == |s.blocks| && mi < |s.mr|
  {
    ri < |j[s.mr[mi]].refs| && j[s.mr[mi]].refs[ri].bflags.overwritten
  }

  lemma SameMeta(s: Scan, j: Journal, mi: nat)
    requires Sound(s) && Marking(s, j) && mi < |s.mr|
    ensures j[s.mr[mi]].nref == Meta(s, mi).nref && j[s.mr[mi]].tid == Meta(s, mi).tid
    ensures j[s.mr[mi]].completeBoundary == Meta(s, mi).completeBoundary
    ensures j[s.mr[mi]].commitBoundary == Meta(s, mi).commitBoundary
  {
  }

  /** Only the overwritten flag of a reference can differ from the scanned journal. */
  lemma SameRef(s: Scan, j: Journal, mi: nat, ri: nat)
    requires Sound(s) && Marking(s, j) && At(s, mi, ri)
    ensures ri < |j[s.mr[mi]].refs| && j[s.mr[mi]].nref == Meta(s, mi).nref
    ensures WithMark(j[s.mr[mi]].refs[ri], false) == WithMark(RefOf(s, mi, ri), false)
  {
  }

  /** Reference `(mi, ri)` is marked exactly if it was, or something below the cursor supersedes it. */
  ghost predicate MarkedRight(c: Env, s: Scan, j: Journal, mi: nat, ri: nat, cm: nat, cr: nat)
    requires Sound(s) && |j| == |s.blocks| && At(s, mi, ri)
  {
    Marked(s, j, mi, ri) <==>
    RefOf(s, mi, ri).bflags.overwritten || RefOf(s, mi, ri).bn in Superseding(c, s, mi, ri, cm, cr)
  }

  /** The flags when the pass, going down, has reached cursor `(cm, cr)`. */
  ghost predicate MarkedTo(c: Env, s: Scan, j: Journal, cm: nat, cr: nat)
    requires Sound(s)
  {
    && Marking(s, j)
    && forall mi, ri :: 0 <= mi && 0 <= ri && At(s, mi, ri) ==> MarkedRight(c, s, j, mi, ri, cm, cr)
  }

  /** At the start of the pass nothing has been superseded. */
  lemma MarkStart(c: Env, s: Scan)
    requires Sound(s)
    ensures MarkedTo(c, s, s.blocks, |s.mr|, 0)
  {
  }

  /** A metablock that is not replayed contributes nothing. */
  lemma MarkSkip(c: Env, s: Scan, j: Journal, cm: nat)
    requires Sound(s) && cm < |s.mr| && !Replayed(s, cm) && MarkedTo(c, s, j, cm + 1, 0)
    ensures MarkedTo(c, s, j, cm, 0)
  {
    assert forall ri: nat :: OpsFrom(c, s, cm, ri) == OpsFrom(c, s, cm + 1, 0);
  }

  lemma MarkEnter(c: Env, s: Scan, j: Journal, cm: nat)
    requires Sound(s) && cm < |s.mr| && MarkedTo(c, s, j, cm + 1, 0)
    ensures MarkedTo(c, s, j, cm, Meta(s, cm).nref)
  {
  }

  // ---------------------------------------------------------------- marking one block number

  /** `j'` adds marks to `j` on the references to `bn` from `(pm, pr)` up to, excluding, `(cm, cr)`. */
  ghost predicate MarksAdded(s: Scan, j: Journal, j': Journal, bn: nat, pm: nat, pr: nat, cm: nat, cr: nat)
    requires Sound(s)
  {
    && Marking(s, j) && Marking(s, j')
    && forall mi, ri :: 0 <= mi && 0 <= ri && At(s, mi, ri) ==>
         (Marked(s, j', mi, ri) <==>
          Marked(s, j, mi, ri) ||
          (Before(mi, ri, cm, cr) && !Before(mi, ri, pm, pr) && RefOf(s, mi, ri).bn == bn))
  }

  function SetMark(j: Journal, m: nat, ri: nat): Journal
    requires m < |j| && ri < |j[m].refs|
  {
    j[m := j[m].(refs := j[m].refs[ri := WithMark(j[m].refs[ri], true)])]
  }

  lemma SetMarkFacts(s: Scan, j: Journal, pm: nat, pr: nat)
    requires Sound(s) && Marking(s, j) && At(s, pm, pr)
    ensures pr < |j[s.mr[pm]].refs|
    ensures Marking(s, SetMark(j, s.mr[pm], pr))
    ensures forall mi, ri :: 0 <= mi && 0 <= ri && At(s, mi, ri) ==>
              (Marked(s, SetMark(j, s.mr[pm], pr), mi, ri) <==> Marked(s, j, mi, ri) || (mi == pm && ri == pr))
  {
  }

  /** One turn of the inner marking loop. */
  lemma MarkOne(s: Scan, j: Journal, j': Journal, bn: nat, pm: nat, pr: nat, cm: nat, cr: nat)
    requires Sound(s) && At(s, pm, pr) && Before(pm, pr, cm, cr)
    requires MarksAdded(s, j, j', bn, pm, pr + 1, cm, cr)
    ensures pr < |j'[s.mr[pm]].refs| && j'[s.mr[pm]].refs[pr].bn == RefOf(s, pm, pr).bn
    ensures MarksAdded(s, j, if RefOf(s, pm, pr).bn == bn then SetMark(j', s.mr[pm], pr) else j', bn, pm, pr, cm, cr)
  {
    SetMarkFacts(s, j', pm, pr);
    assert SameButMarks(Meta(s, pm), j'[s.mr[pm]]);
    assert WithMark(j'[s.mr[pm]].refs[pr], false) == WithMark(RefOf(s, pm, pr), false);
  }

  /** The marks when the outer loop stands at metablock `mx`, with references below `refx` next. */
  ghost predicate MarkCursor(s: Scan, j: Journal, j': Journal, bn: nat, mx: nat, refx: nat, cm: nat, cr: nat)
    requires Sound(s)
  {
    mx <= |s.mr| && mx <= cm + 1 && (mx == cm + 1 ==> refx <= cr) &&
    if mx == 0 then MarksAdded(s, j, j', bn, 0, 0, cm, cr)
    else
      var top := Meta(s, mx - 1).nref;
      MarksAdded(s, j, j', bn, mx - 1, if refx < top then refx else top, cm, cr)
  }

  lemma MarkFirst(s: Scan, j: Journal, bn: nat, cm: nat, cr: nat)
    requires Sound(s) && Marking(s, j) && cm < |s.mr| && cr <= Meta(s, cm).nref
    ensures MarkCursor(s, j, j, bn, cm + 1, cr, cm, cr)
  {
  }

  lemma MarkLast(s: Scan, j: Journal, j': Journal, bn: nat, refx: nat, cm: nat, cr: nat)
    requires Sound(s) && MarkCursor(s, j, j', bn, 0, refx, cm, cr)
    ensures MarksAdded(s, j, j', bn, 0, 0, cm, cr)
  {
  }

  /** From the first reference of a metablock the loop moves past the last one of its predecessor. */
  lemma MarkDown(s: Scan, j: Journal, j': Journal, bn: nat, pm: nat, cm: nat, cr: nat)
    requires Sound(s) && pm <= |s.mr| && pm <= cm && MarksAdded(s, j, j', bn, pm, 0, cm, cr)
    ensures MarkCursor(s, j, j', bn, pm, 0xFFFF_FFFF, cm, cr)
  {
  }

  // ---------------------------------------------------------------- one step of the pass

  lemma SupersedingStep(c: Env, s: Scan, mi: nat, ri: nat, cm: nat, cr: nat)
    requires Sound(s) && At(s, cm, cr) && Replayed(s, cm)
    ensures Superseding(c, s, mi, ri, cm, cr) ==
            if Before(mi, ri, cm, cr) && !RefOf(s, cm, cr).bflags.overwritten
            then {RefOf(s, cm, cr).bn} + Superseding(c, s, mi, ri, cm, cr + 1)
            else Superseding(c, s, mi, ri, cm, cr + 1)
  {
    OpsStep(c, s, cm, cr);
  }

  /** A reference already marked adds nothing. */
  lemma MarkedStep(c: Env, s: Scan, j: Journal, cm: nat, cr: nat)
    requires Sound(s) && At(s, cm, cr) && Replayed(s, cm)
    requires MarkedTo(c, s, j, cm, cr + 1) && Marked(s, j, cm, cr)
    ensures MarkedTo(c, s, j, cm, cr)
  {
    assert MarkedRight(c, s, j, cm, cr, cm, cr + 1);
    forall mi, ri | 0 <= mi && 0 <= ri && At(s, mi, ri) ensures MarkedRight(c, s, j, mi, ri, cm, cr) {
      assert MarkedRight(c, s, j, mi, ri, cm, cr + 1);
      SupersedingStep(c, s, mi, ri, cm, cr);
    }
  }

  /** A reference not marked is the last to its block: it supersedes all earlier ones. */
  lemma UnmarkedStep(c: Env, s: Scan, j: Journal, j': Journal, cm: nat, cr: nat)
    requires Sound(s) && At(s, cm, cr) && Replayed(s, cm)
    requires MarkedTo(c, s, j, cm, cr + 1) && !Marked(s, j, cm, cr)
    requires MarksAdded(s, j, j', RefOf(s, cm, cr).bn, 0, 0, cm, cr)
    ensures MarkedTo(c, s, j', cm, cr)
  {
    assert MarkedRight(c, s, j, cm, cr, cm, cr + 1);
    forall mi, ri | 0 <= mi && 0 <= ri && At(s, mi, ri) ensures MarkedRight(c, s, j', mi, ri, cm, cr) {
      assert MarkedRight(c, s, j, mi, ri, cm, cr + 1);
      SupersedingStep(c, s, mi, ri, cm, cr);
    }
  }

  // ---------------------------------------------------------------- replay

  /** The journal when `run` has come up to reference `ri` of metablock `mi`. */
  ghost predicate RunAt(c: Env, s: Scan, marked: Journal, j: Journal, mi: nat, ri: nat)
    requires Sound(s)
  {
    && |j| == |marked| == |s.blocks|
    && (forall x :: 0 <= x < |s.mr| ==> j[s.mr[x]] == marked[s.mr[x]])
    && (forall m, i ::
          0 <= m && 0 <= i && At(s, m, i) && !Before(m, i, mi, ri) && !RefOf(s, m, i).bflags.nonjournaled ==>
            j[DataOf(c, s.blocks, s.mr[m], i)] == s.blocks[DataOf(c, s.blocks, s.mr[m], i)])
  }

  /** `s` is the scan of some journal, accepted, and `marked` carries its overwritten flags. */
  ghost predicate Ready(c: Env, s: Scan, marked: Journal)
    requires Sound(s)
  {
    s.ok && MarkedTo(c, s, marked, 0, 0) && exists original :: WellScanned(c, original, s)
  }

  lemma CarriesAt(c: Env, s: Scan, mi: nat, ri: nat)
    requires Sound(s) && At(s, mi, ri) && !RefOf(s, mi, ri).bflags.nonjournaled
    ensures Carries(c, s, s.mr[mi], ri)
  {
  }

  lemma RunStart(c: Env, s: Scan, marked: Journal)
    requires Sound(s) && Ready(c, s, marked)
    ensures RunAt(c, s, marked, marked, 0, 0)
  {
    var original :| WellScanned(c, original, s);
    forall m, i | 0 <= m && 0 <= i && At(s, m, i) && !RefOf(s, m, i).bflags.nonjournaled
      ensures marked[DataOf(c, s.blocks, s.mr[m], i)] == s.blocks[DataOf(c, s.blocks, s.mr[m], i)]
    {
      CarriesAt(c, s, m, i);
      DataIsNotMeta(c, original, s, s.mr[m], i);
    }
  }

  /** Altering the data block of one reference disturbs no metablock and no later data block. */
  lemma RunStep(c: Env, s: Scan, marked: Journal, j: Journal, mi: nat, ri: nat, data: Block)
    requires Sound(s) && Ready(c, s, marked) && At(s, mi, ri)
    requires !RefOf(s, mi, ri).bflags.nonjournaled && RunAt(c, s, marked, j, mi, ri)
    ensures RunAt(c, s, marked, j[DataOf(c, s.blocks, s.mr[mi], ri) := data], mi, ri + 1)
  {
    var original :| WellScanned(c, original, s);
    var x := DataOf(c, s.blocks, s.mr[mi], ri);
    CarriesAt(c, s, mi, ri);
    DataIsNotMeta(c, original, s, s.mr[mi], ri);
    forall m, i | 0 <= m && 0 <= i && At(s, m, i) && !Before(m, i, mi, ri + 1) && !RefOf(s, m, i).bflags.nonjournaled
      ensures DataOf(c, s.blocks, s.mr[m], i) != x
    {
      CarriesAt(c, s, m, i);
      assert m != mi ==> s.mr[m] != s.mr[mi];
      LayoutDisjoint(c, original, s, s.mr[mi], ri, s.mr[m], i);
    }
  }

  /** Moving to the next metablock. */
  lemma RunNext(c: Env, s: Scan, marked: Journal, j: Journal, mi: nat)
    requires Sound(s) && mi < |s.mr| && RunAt(c, s, marked, j, mi, Meta(s, mi).nref)
    ensures RunAt(c, s, marked, j, mi + 1, 0)
    ensures OpsFrom(c, s, mi, Meta(s, mi).nref) == OpsFrom(c, s, mi + 1, 0)
  {
  }

  /** Passing a metablock outside the committable region. */
  lemma RunSkip(c: Env, s: Scan, marked: Journal, j: Journal, mi: nat)
    requires Sound(s) && mi < |s.mr| && !Replayed(s, mi) && RunAt(c, s, marked, j, mi, 0)
    ensures RunAt(c, s, marked, j, mi + 1, 0)
    ensures OpsFrom(c, s, mi, 0) == OpsFrom(c, s, mi + 1, 0)
  {
  }

  /** Passing a reference without touching its data block. */
  lemma RunPass(c: Env, s: Scan, marked: Journal, j: Journal, mi: nat, ri: nat)
    requires Sound(s) && RunAt(c, s, marked, j, mi, ri)
    ensures RunAt(c, s, marked, j, mi, ri + 1)
  {
  }

  /** The delta that `run` counts leads to the data block that the analysis checked. */
  lemma RunDelta(c: Env, s: Scan, mi: nat, ri: nat, delta: nat)
    requires Sound(s) && At(s, mi, ri) && delta == Delta(c, Meta(s, mi), s.mr[mi], ri)
    ensures (s.mr[mi] + delta) % |s.blocks| == DataOf(c, s.blocks, s.mr[mi], ri)
    ensures Delta(c, Meta(s, mi), s.mr[mi], ri + 1) == delta + if RefOf(s, mi, ri).bflags.nonjournaled then 0 else 1
  {
  }

  /** What `run` finds at reference `ri` of metablock `mi`, and what is left to write. */
  lemma RunReads(c: Env, s: Scan, marked: Journal, j: Journal, mi: nat, ri: nat)
    requires Sound(s) && MarkedTo(c, s, marked, 0, 0) && RunAt(c, s, marked, j, mi, ri)
    requires At(s, mi, ri) && Replayed(s, mi)
    ensures ri < |j[s.mr[mi]].refs|
    ensures var r := j[s.mr[mi]].refs[ri];
            var rest := Pruned(OpsFrom(c, s, mi, ri + 1));
            && r.bn == RefOf(s, mi, ri).bn
            && r.bflags.nonjournaled == RefOf(s, mi, ri).bflags.nonjournaled
            && r.bflags.escaped == RefOf(s, mi, ri).bflags.escaped
            && Pruned(OpsFrom(c, s, mi, ri)) ==
               if !r.bflags.overwritten && !r.bflags.nonjournaled
               then [Write(r.bn, Unescape(s.blocks[DataOf(c, s.blocks, s.mr[mi], ri)], r.bflags.escaped))] + rest
               else rest
  {
    SameRef(s, marked, mi, ri);
    assert MarkedRight(c, s, marked, mi, ri, 0, 0);
    OpsStep(c, s, mi, ri);
  }

  /** What one turn of the inner loop of `run` makes of the journal, the writes so far and the delta. */
  function Written(j: Journal, bi: nat, ri: nat, delta: nat, before: seq<Write>): (Journal, seq<Write>, nat)
    requires bi < |j| && ri < |j[bi].refs|
  {
    var r, x := j[bi].refs[ri], (bi + delta) % |j|;
    var delta' := delta + if r.bflags.nonjournaled then 0 else 1;
    if r.bflags.overwritten || r.bflags.nonjournaled then (j, before, delta')
    else
      var data := Unescape(j[x], r.bflags.escaped);
      (j[x := data], before + [Write(r.bn, data)], delta')
  }

  /** One turn writes what the pruned list has for the reference, and leaves the rest to be written. */
  lemma RunEffect(c: Env, s: Scan, marked: Journal, j: Journal, mi: nat, ri: nat, delta: nat, before: seq<Write>)
    requires Sound(s) && Ready(c, s, marked) && RunAt(c, s, marked, j, mi, ri)
    requires At(s, mi, ri) && Replayed(s, mi) && delta == Delta(c, Meta(s, mi), s.mr[mi], ri)
    ensures ri < |j[s.mr[mi]].refs|
    ensures var (j', out, delta') := Written(j, s.mr[mi], ri, delta, before);
            && RunAt(c, s, marked, j', mi, ri + 1) && delta' == Delta(c, Meta(s, mi), s.mr[mi], ri + 1)
            && out + Pruned(OpsFrom(c, s, mi, ri + 1)) == before + Pruned(OpsFrom(c, s, mi, ri))
  {
    RunReads(c, s, marked, j, mi, ri);
    RunPass(c, s, marked, j, mi, ri);
    RunDelta(c, s, mi, ri, delta);
    var r := j[s.mr[mi]].refs[ri];
    var x := (s.mr[mi] + delta) % |s.blocks|;
    if !r.bflags.overwritten && !r.bflags.nonjournaled {
      var data := Unescape(j[x], r.bflags.escaped);
      RunStep(c, s, marked, j, mi, ri, data);
      Regroup(before, [Write(r.bn, data)], Pruned(OpsFrom(c, s, mi, ri + 1)));
    }
  }
}
