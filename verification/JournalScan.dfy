/**
 * The first pass of `journalreplayer::analyze` (journalreplayer.cc): which journal blocks are
 * accepted as metablocks, and where their data lies.
 */
module JournalScan {
  import opened Collections
  import opened Arithmetic
  import opened JournalFormat

  type Journal = seq<Block>

  // ---------------------------------------------------------------- data runs

  /** Reference `i` of the block at `bi`, as the unguarded loop reads it. */
  function RefAt(c: Env, b: Block, bi: nat, i: nat): Ref {
    if i < |b.refs| then b.refs[i] else c.stray(bi, i)
  }

  predicate Journaled(c: Env, b: Block, bi: nat, i: nat) {
    !RefAt(c, b, bi, i).bflags.nonjournaled
  }

  /** The `delta` count before reference `i`: one more than the journaled references before it. */
  function Delta(c: Env, b: Block, bi: nat, i: nat): (d: nat)
    ensures 1 <= d <= i + 1
  {
    if i == 0 then 1
    else Delta(c, b, bi, i - 1) + if Journaled(c, b, bi, i - 1) then 1 else 0
  }

  /** The journal block holding the data `delta` blocks after `bi`. */
  function DataIndex(nb: nat, bi: nat, delta: nat): nat
    requires nb > 0
  {
    (bi + delta) % nb
  }

  predicate SumOk(c: Env, r: Ref, data: Block) {
    r.bchecksum == NOCHECKSUM || r.bchecksum == c.data(data)
  }

  /** Reference `i` raises no error: it is nonjournaled, or its data block looks like data. */
  predicate RefOk(c: Env, j: Journal, bi: nat, i: nat)
    requires bi < |j|
  {
    Journaled(c, j[bi], bi, i) ==>
      var d := j[DataIndex(|j|, bi, Delta(c, j[bi], bi, i))];
      !Potential(c, d) && SumOk(c, RefAt(c, j[bi], bi, i), d)
  }

  /** No data block of `bi` lies a whole journal or more away. */
  predicate RunFits(c: Env, j: Journal, bi: nat)
    requires bi < |j|
  {
    forall i :: 0 <= i < j[bi].nref && Journaled(c, j[bi], bi, i) ==> Delta(c, j[bi], bi, i) < |j|
  }

  predicate GoodHeader(b: Block) {
    !b.flags.error && !b.flags.corrupt && b.flags.meta && b.nref <= |b.refs|
  }

  predicate Acceptable(c: Env, j: Journal, bi: nat)
    requires bi < |j|
  {
    GoodHeader(j[bi]) && forall i :: 0 <= i < j[bi].nref ==> RefOk(c, j, bi, i)
  }

  // ---------------------------------------------------------------- the pass

  datatype Scan = Scan(blocks: Journal, mr: seq<nat>, ok: bool)

  predicate Indices(j: Journal, mr: seq<nat>) {
    forall x :: 0 <= x < |mr| ==> mr[x] < |j|
  }

  predicate Precedes(j: Journal, s: Tid, m: nat) {
    m < |j| && s < j[m].sequence
  }

  /** Position at which a block with sequence number `s` goes in the list. */
  function InsertPosition(j: Journal, mr: seq<nat>, s: Tid): (x: nat)
    ensures x <= |mr|
    ensures forall y :: 0 <= y < x ==> !Precedes(j, s, mr[y])
    ensures x < |mr| ==> Precedes(j, s, mr[x])
  {
    if mr == [] || Precedes(j, s, mr[0]) then 0 else 1 + InsertPosition(j, mr[1..], s)
  }

  function Insert(j: Journal, mr: seq<nat>, bi: nat): seq<nat>
    requires bi < |j|
  {
    var x := InsertPosition(j, mr, j[bi].sequence);
    mr[..x] + [bi] + mr[x..]
  }

  function ScanBlock(c: Env, s: Scan, bi: nat): (t: Scan)
    requires bi < |s.blocks|
    ensures |t.blocks| == |s.blocks|
  {
    if !Potential(c, s.blocks[bi]) then s
    else if Acceptable(c, s.blocks, bi) then
      Scan(s.blocks, Insert(s.blocks, s.mr, bi), s.ok && RunFits(c, s.blocks, bi))
    else
      Scan(s.blocks[bi := SetError(s.blocks[bi])], s.mr, s.ok && RunFits(c, s.blocks, bi))
  }

  /** The state after the first `k` blocks. */
  function ScanUpTo(c: Env, j: Journal, k: nat): (s: Scan)
    requires k <= |j|
    ensures |s.blocks| == |j|
  {
    if k == 0 then Scan(j, [], true) else ScanBlock(c, ScanUpTo(c, j, k - 1), k - 1)
  }

  function ScanAll(c: Env, j: Journal): Scan {
    ScanUpTo(c, j, |j|)
  }

  // ---------------------------------------------------------------- what the pass guarantees

  ghost predicate InSequence(j: Journal, mr: seq<nat>)
    requires Indices(j, mr)
  {
    forall x, y :: 0 <= x < y < |mr| ==> j[mr[x]].sequence <= j[mr[y]].sequence
  }

  /** Every listed block is an unaltered, acceptable metablock whose data looks like data. */
  ghost predicate WellScanned(c: Env, original: Journal, s: Scan) {
    && |s.blocks| == |original| && Indices(s.blocks, s.mr)
    && (forall m :: m in s.mr ==>
          m < |s.blocks| && s.blocks[m] == original[m] && Potential(c, s.blocks[m]) && Acceptable(c, s.blocks, m))
    && (s.ok ==> forall m :: m in s.mr ==> RunFits(c, s.blocks, m))
    && Distinct(s.mr) && InSequence(s.blocks, s.mr)
  }

  /** Blocks are only ever altered by the error flag, and only once they have been visited. */
  ghost predicate OnlyFlagged(original: Journal, j: Journal, k: nat) {
    && |j| == |original|
    && (forall x :: 0 <= x < |j| ==> j[x] == original[x] || j[x] == SetError(original[x]))
    && (forall x :: k <= x < |j| ==> j[x] == original[x])
  }

  lemma InsertMembers(j: Journal, mr: seq<nat>, bi: nat)
    requires bi < |j|
    ensures forall m :: m in Insert(j, mr, bi) <==> m in mr || m == bi
  {
  }

  lemma InsertKeeps(j: Journal, mr: seq<nat>, bi: nat)
    requires bi < |j| && Indices(j, mr) && Distinct(mr) && InSequence(j, mr) && bi !in mr
    ensures Indices(j, Insert(j, mr, bi)) && Distinct(Insert(j, mr, bi)) && InSequence(j, Insert(j, mr, bi))
  {
  }

  /** Flagging a block that is no data block of `m` leaves `m` acceptable. */
  lemma FlagKeepsAcceptable(c: Env, j: Journal, m: nat, bi: nat)
    requires m < |j| && bi < |j| && m != bi && Acceptable(c, j, m) && Potential(c, j[bi])
    ensures Acceptable(c, j[bi := SetError(j[bi])], m)
    ensures RunFits(c, j[bi := SetError(j[bi])], m) <==> RunFits(c, j, m)
  {
    var j' := j[bi := SetError(j[bi])];
    forall i | 0 <= i < j'[m].nref ensures RefOk(c, j', m, i) {
      assert RefOk(c, j, m, i);
    }
  }

  ghost predicate ScanInv(c: Env, j: Journal, s: Scan, k: nat) {
    WellScanned(c, j, s) && OnlyFlagged(j, s.blocks, k) && forall m :: m in s.mr ==> m < k
  }

  lemma {:induction false} ScanKeeps(c: Env, j: Journal, k: nat)
    requires k <= |j|
    ensures ScanInv(c, j, ScanUpTo(c, j, k), k)
  {
    if k == 0 {
      ScanStarts(c, j);
    } else {
      ScanKeeps(c, j, k - 1);
      ScanBlockKeeps(c, j, ScanUpTo(c, j, k - 1), ScanUpTo(c, j, k), k - 1);
    }
  }

  lemma ScanStarts(c: Env, j: Journal)
    ensures ScanInv(c, j, Scan(j, [], true), 0)
  {
  }

  lemma ScanBlockKeeps(c: Env, j: Journal, s: Scan, t: Scan, bi: nat)
    requires bi < |j| && ScanInv(c, j, s, bi) && t == ScanBlock(c, s, bi)
    ensures ScanInv(c, j, t, bi + 1)
  {
    if Potential(c, s.blocks[bi]) {
      if Acceptable(c, s.blocks, bi) {
        InsertMembers(s.blocks, s.mr, bi);
        InsertKeeps(s.blocks, s.mr, bi);
      } else {
        forall m | m in s.mr
          ensures Acceptable(c, t.blocks, m) && (RunFits(c, t.blocks, m) <==> RunFits(c, s.blocks, m))
        {
          FlagKeepsAcceptable(c, s.blocks, m, bi);
        }
      }
    }
  }

  /** The accepted list after the whole pass. */
  lemma ScanAllWell(c: Env, j: Journal)
    ensures WellScanned(c, j, ScanAll(c, j)) && OnlyFlagged(j, ScanAll(c, j).blocks, |j|)
  {
    ScanKeeps(c, j, |j|);
  }

  // ---------------------------------------------------------------- layout

  /** Listed metablock `m` carries data for its reference `i` in the journal. */
  predicate Carries(c: Env, s: Scan, m: nat, i: nat) {
    m in s.mr && m < |s.blocks| && i < s.blocks[m].nref && Journaled(c, s.blocks[m], m, i)
  }

  function DataOf(c: Env, j: Journal, m: nat, i: nat): (x: nat)
    requires m < |j|
    ensures x < |j|
  {
    DataIndex(|j|, m, Delta(c, j[m], m, i))
  }

  lemma {:induction false} DeltaMonotone(c: Env, b: Block, bi: nat, i: nat, k: nat)
    requires i < k
    ensures Delta(c, b, bi, i) + (if Journaled(c, b, bi, i) then 1 else 0) <= Delta(c, b, bi, k)
    decreases k
  {
    if i < k - 1 {
      DeltaMonotone(c, b, bi, i, k - 1);
    }
  }

  lemma DeltaInjective(c: Env, b: Block, bi: nat, i: nat, k: nat)
    requires Journaled(c, b, bi, i) && (i != k ==> Journaled(c, b, bi, k))
    ensures Delta(c, b, bi, i) == Delta(c, b, bi, k) ==> i == k
  {
    if i != k {
      DeltaMonotone(c, b, bi, if i < k then i else k, if i < k then k else i);
    }
  }

  /** Every smaller count belongs to an earlier journaled reference. */
  lemma {:induction false} RefWithDelta(c: Env, b: Block, bi: nat, i: nat, e: nat) returns (k: nat)
    requires 1 <= e < Delta(c, b, bi, i)
    ensures k < i && Journaled(c, b, bi, k) && Delta(c, b, bi, k) == e
    decreases i
  {
    if Journaled(c, b, bi, i - 1) && Delta(c, b, bi, i - 1) == e {
      k := i - 1;
    } else {
      k := RefWithDelta(c, b, bi, i - 1, e);
    }
  }

  lemma Wrap(nb: nat, m: nat, d: nat)
    requires m < nb && d < nb
    ensures DataIndex(nb, m, d) == if m + d < nb then m + d else m + d - nb
  {
    if m + d < nb {
      QuotientIs(m + d, nb, 0, m + d);
    } else {
      QuotientIs(m + d, nb, 1, m + d - nb);
    }
  }

  lemma WrapApart(nb: nat, m: nat, m': nat, d: nat)
    requires m < nb && m' < nb && d < nb && m != m'
    ensures DataIndex(nb, m, d) != DataIndex(nb, m', d)
  {
    Wrap(nb, m, d);
    Wrap(nb, m', d);
  }

  /** A data block is never itself a listed metablock. */
  lemma DataIsNotMeta(c: Env, original: Journal, s: Scan, m: nat, i: nat)
    requires WellScanned(c, original, s) && Carries(c, s, m, i)
    ensures DataOf(c, s.blocks, m, i) !in s.mr
  {
    assert RefOk(c, s.blocks, m, i);
  }

  lemma DataApart(c: Env, original: Journal, s: Scan, m: nat, i: nat, m': nat, i': nat)
    requires WellScanned(c, original, s) && s.ok && Carries(c, s, m, i) && Carries(c, s, m', i')
    requires Delta(c, s.blocks[m], m, i) < Delta(c, s.blocks[m'], m', i')
    ensures DataOf(c, s.blocks, m, i) != DataOf(c, s.blocks, m', i')
  {
    var j := s.blocks;
    var d, d' := Delta(c, j[m], m, i), Delta(c, j[m'], m', i');
    assert RunFits(c, j, m) && RunFits(c, j, m');
    var k := RefWithDelta(c, j[m'], m', i', d' - d);
    DataIsNotMeta(c, original, s, m', k);
    Wrap(|j|, m, d);
    Wrap(|j|, m', d');
    Wrap(|j|, m', d' - d);
  }

  /**
   * Journal layout: when the pass succeeds, the data blocks of all listed metablocks are
   * pairwise distinct, and none of them is a metablock.
   */
  lemma LayoutDisjoint(c: Env, original: Journal, s: Scan, m: nat, i: nat, m': nat, i': nat)
    requires WellScanned(c, original, s) && s.ok && Carries(c, s, m, i) && Carries(c, s, m', i')
    requires (m, i) != (m', i')
    ensures DataOf(c, s.blocks, m, i) != DataOf(c, s.blocks, m', i')
  {
    var j := s.blocks;
    var d, d' := Delta(c, j[m], m, i), Delta(c, j[m'], m', i');
    if d < d' {
      DataApart(c, original, s, m, i, m', i');
    } else if d' < d {
      DataApart(c, original, s, m', i', m, i);
    } else {
      if m == m' {
        DeltaInjective(c, j[m], m, i, i');
      }
      assert RunFits(c, j, m);
      WrapApart(|j|, m, m', d);
    }
  }

  /**
   * The data block of a listed metablock holds what the journal held exactly when that block did
   * not itself look like a metablock; only a rejected one, reached by wrapping around, was altered.
   */
  lemma DataUnaltered(c: Env, original: Journal, m: nat, i: nat)
    requires Carries(c, ScanAll(c, original), m, i)
    ensures var s := ScanAll(c, original);
            var x := DataOf(c, s.blocks, m, i);
            && (s.blocks[x] == original[x] <==> !Potential(c, original[x]))
            && (s.blocks[x] != original[x] ==> x < m && s.blocks[x] == SetError(original[x]))
  {
    var s := ScanAll(c, original);
    ScanAllWell(c, original);
    var x := DataOf(c, s.blocks, m, i);
    DataIsNotMeta(c, original, s, m, i);
    assert RefOk(c, s.blocks, m, i);
    if s.blocks[x] != original[x] {
      AlteredLooksLikeMeta(c, original, |original|, x);
      ListedWhen(c, original, |original|, m);
      ScanKeeps(c, original, m);
      var t := ScanUpTo(c, original, m);
      assert t.blocks[m] == original[m] == s.blocks[m];
      assert RefOk(c, t.blocks, m, i);
      assert !Potential(c, t.blocks[x]);
    }
  }

  function HeaderOnly(checksum: nat, meta: bool, refs: seq<Ref>): Block
    requires |refs| < 0x1_0000
  {
    Block(JOURNALMAGIC, checksum, 0, 0, 0, 1, 0, Flags(meta, false, false, true, true, false, 0), |refs|, refs)
  }

  /**
   * Such an alteration does happen: block 0 is rejected for want of `jf_meta`, its checksum no
   * longer matches once it is flagged, and block 1 then accepts it as data.
   */
  lemma AlteredDataExample()
    ensures exists c: Env, j: Journal ::
              var s := ScanAll(c, j);
              s.ok && Carries(c, s, 1, 0) && s.blocks[DataOf(c, s.blocks, 1, 0)] != j[DataOf(c, s.blocks, 1, 0)]
  {
    var ref := Ref(7, NOCHECKSUM, RefFlags(false, false, false, 0));
    var c := Env((b: Block) => if b.flags.error then 0 else 1, (b: Block) => 0, (x: nat, y: nat) => ref);
    var j := [HeaderOnly(1, false, []), HeaderOnly(NOCHECKSUM, true, [ref])];
    var s1 := ScanUpTo(c, j, 1);
    assert ScanUpTo(c, j, 0) == Scan(j, [], true);
    assert s1.blocks == [SetError(j[0]), j[1]] && s1.mr == [] && s1.ok;
    assert Delta(c, j[1], 1, 0) == 1;
    assert RefOk(c, s1.blocks, 1, 0);
    assert Acceptable(c, s1.blocks, 1) && RunFits(c, s1.blocks, 1);
    var s := ScanUpTo(c, j, 2);
    assert s == ScanBlock(c, s1, 1);
    assert s.mr == [1];
    assert s == ScanAll(c, j) && Carries(c, s, 1, 0) && DataOf(c, s.blocks, 1, 0) == 0;
  }

  lemma {:induction false} ListedWhen(c: Env, j: Journal, k: nat, m: nat)
    requires k <= |j| && m in ScanUpTo(c, j, k).mr
    ensures m < k && Acceptable(c, ScanUpTo(c, j, m).blocks, m)
    decreases k
  {
    if k > 0 {
      var s := ScanUpTo(c, j, k - 1);
      if m in s.mr {
        ListedWhen(c, j, k - 1, m);
      } else if Potential(c, s.blocks[k - 1]) && Acceptable(c, s.blocks, k - 1) {
        InsertMembers(s.blocks, s.mr, k - 1);
      }
    }
  }

  lemma {:induction false} AlteredLooksLikeMeta(c: Env, j: Journal, k: nat, x: nat)
    requires k <= |j| && x < |j| && ScanUpTo(c, j, k).blocks[x] != j[x]
    ensures x < k && Potential(c, j[x]) && ScanUpTo(c, j, k).blocks[x] == SetError(j[x])
    decreases k
  {
    if k > 0 {
      var s := ScanUpTo(c, j, k - 1);
      ScanKeeps(c, j, k - 1);
      AlteredNow(c, j, s, k - 1, x);
      if s.blocks[x] != j[x] {
        AlteredLooksLikeMeta(c, j, k - 1, x);
      }
    }
  }

  lemma AlteredNow(c: Env, j: Journal, s: Scan, bi: nat, x: nat)
    requires bi < |j| && x < |j| && ScanInv(c, j, s, bi)
    ensures var b := ScanBlock(c, s, bi).blocks[x];
            b == s.blocks[x] || (x == bi && Potential(c, j[x]) && s.blocks[x] == j[x] && b == SetError(j[x]))
  {
  }
}
