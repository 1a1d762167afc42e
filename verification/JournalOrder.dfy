/**
 * Sequence numbers and wrap-around (journalreplayer.cc). Metablocks are listed by plain comparison
 * of their 16-bit numbers, while `analyze_tid` expects the number after 65535 to be 0.
 */
module JournalOrder {
  import opened Collections
  import opened JournalFormat
  import opened JournalScan
  import opened JournalTransactions

  /** `ws` are metablocks in the order written, numbered from `first` on with wrap-around. */
  ghost predicate WrittenFrom(j: Journal, ws: seq<nat>, first: Tid) {
    && Indices(j, ws) && 0 < |ws| <= 0x1_0000
    && forall k :: 0 <= k < |ws| ==> j[ws[k]].sequence == (first + k) % 0x1_0000
  }

  /** `mr` lists the metablocks of `ws` as the scan does. */
  ghost predicate ListedAs(j: Journal, ws: seq<nat>, mr: seq<nat>) {
    && Indices(j, ws) && Indices(j, mr) && Distinct(mr) && InSequence(j, mr) && |mr| == |ws|
    && forall x :: x in mr <==> x in ws
  }

  /** Numbers increase strictly along `q`. */
  ghost predicate Increasing(j: Journal, q: seq<nat>)
    requires Indices(j, q)
  {
    forall x, y :: 0 <= x < y < |q| ==> j[q[x]].sequence < j[q[y]].sequence
  }

  lemma SameFirst(j: Journal, mr: seq<nat>, q: seq<nat>)
    requires ListedAs(j, q, mr) && Increasing(j, q) && q != []
    ensures mr[0] == q[0]
  {
    assert mr[0] in q && q[0] in mr;
    var x :| 0 <= x < |q| && q[x] == mr[0];
    var y :| 0 <= y < |mr| && mr[y] == q[0];
  }

  lemma SameRest(j: Journal, mr: seq<nat>, q: seq<nat>)
    requires ListedAs(j, q, mr) && Increasing(j, q) && q != [] && mr[0] == q[0]
    ensures ListedAs(j, q[1..], mr[1..]) && Increasing(j, q[1..])
  {
    forall x ensures x in mr[1..] <==> x in q[1..] {
      assert mr == [mr[0]] + mr[1..] && q == [q[0]] + q[1..];
      assert x in mr <==> x in q;
    }
  }

  /** The scan can list metablocks with different numbers in one way only. */
  lemma {:induction false} SortedUniquely(j: Journal, mr: seq<nat>, q: seq<nat>)
    requires ListedAs(j, q, mr) && Increasing(j, q)
    ensures mr == q
    decreases |q|
  {
    if q != [] {
      SameFirst(j, mr, q);
      SameRest(j, mr, q);
      SortedUniquely(j, mr[1..], q[1..]);
      assert mr == [mr[0]] + mr[1..] && q == [q[0]] + q[1..];
    }
  }

  // ---------------------------------------------------------------- the order of the list

  /** How many metablocks are written before the numbers wrap around. */
  function BeforeWrap(ws: seq<nat>, first: Tid): (z: nat)
    ensures z <= |ws|
  {
    if first + |ws| <= 0x1_0000 then |ws| else 0x1_0000 - first
  }

  /** `ws` turned so that what is written from the wrap on comes first. */
  function Turned(ws: seq<nat>, first: Tid): (q: seq<nat>)
    ensures |q| == |ws| && forall x :: x in q <==> x in ws
  {
    var z := BeforeWrap(ws, first);
    assert ws == ws[..z] + ws[z..];
    ws[z..] + ws[..z]
  }

  lemma TurnedIncreases(j: Journal, ws: seq<nat>, first: Tid)
    requires WrittenFrom(j, ws, first)
    ensures Indices(j, Turned(ws, first)) && Increasing(j, Turned(ws, first))
  {
    var q, z := Turned(ws, first), BeforeWrap(ws, first);
    var n := |ws| - z;
    forall x | 0 <= x < |q| ensures q[x] < |j| && j[q[x]].sequence == if x < n then x else first + x - n {
      assert q[x] == ws[if x < n then x + z else x - n];
    }
  }

  /** The list is the order written, turned at the wrap. */
  lemma ListedTurned(j: Journal, ws: seq<nat>, mr: seq<nat>, first: Tid)
    requires WrittenFrom(j, ws, first) && ListedAs(j, ws, mr)
    ensures mr == Turned(ws, first)
  {
    TurnedIncreases(j, ws, first);
    SortedUniquely(j, mr, Turned(ws, first));
  }

  /** Metablocks are listed in the order written if and only if their numbers do not wrap around. */
  lemma ListedInOrderWritten(j: Journal, ws: seq<nat>, mr: seq<nat>, first: Tid)
    requires WrittenFrom(j, ws, first) && ListedAs(j, ws, mr)
    ensures mr == ws <==> first + |ws| <= 0x1_0000
  {
    ListedTurned(j, ws, mr, first);
    if first + |ws| > 0x1_0000 {
      assert mr[0] == ws[BeforeWrap(ws, first)];
      assert j[mr[0]].sequence != j[ws[0]].sequence;
    }
  }

  // ---------------------------------------------------------------- what it means for a transaction

  /** `d` is the last metablock that belongs to `tid`. */
  ghost predicate Ends(j: Journal, ws: seq<nat>, tid: Tid, d: nat)
    requires Indices(j, ws)
  {
    Belongs(j, ws, tid, d) && forall k :: d < k < |ws| ==> !Belongs(j, ws, tid, k)
  }

  /** All that belongs to the transaction, moved by `shift` places, is as well contained. */
  lemma SpanMoves(j: Journal, ws: seq<nat>, mr: seq<nat>, tid: Tid, a: nat, c: nat, d: nat, shift: int)
    requires Indices(j, ws) && Indices(j, mr) && Span(j, ws, tid, a, c, |ws|) && Ends(j, ws, tid, d)
    requires 0 <= a + shift && d + shift < |mr|
    requires forall k :: a <= k <= d ==> mr[k + shift] == ws[k]
    requires forall x :: 0 <= x < |mr| && Belongs(j, mr, tid, x) ==> a <= x - shift <= d
    ensures Contained(j, mr, tid)
  {
    var a', c' := a + shift, c + shift;
    forall x | 0 <= x < |mr| && Belongs(j, mr, tid, x)
      ensures Belongs(j, ws, tid, x - shift) && mr[x] == ws[x - shift]
    {
      assert mr[(x - shift) + shift] == ws[x - shift];
    }
    forall x | a' < x <= c' ensures Adjacent(j, mr, x) {
      assert Adjacent(j, ws, x - shift);
      assert mr[(x - shift) + shift] == ws[x - shift] && mr[(x - 1 - shift) + shift] == ws[x - 1 - shift];
    }
    assert Span(j, mr, tid, a', c', |mr|);
  }

  /** The wrap lies outside the transaction. */
  lemma WrapsOutside(j: Journal, ws: seq<nat>, mr: seq<nat>, first: Tid, tid: Tid, a: nat, c: nat, d: nat)
    requires WrittenFrom(j, ws, first) && ListedAs(j, ws, mr)
    requires Span(j, ws, tid, a, c, |ws|) && Ends(j, ws, tid, d) && !(first + a < 0x1_0000 <= first + d)
    ensures Contained(j, mr, tid)
  {
    ListedTurned(j, ws, mr, first);
    var z: int := BeforeWrap(ws, first);
    var shift := if d < z then |ws| - z else -z;
    forall x | 0 <= x < |mr| && Belongs(j, mr, tid, x) ensures a <= x - shift <= d {
      var k := if x < |ws| - z then x + z else x - (|ws| - z);
      assert mr[x] == ws[k] && Belongs(j, ws, tid, k);
    }
    SpanMoves(j, ws, mr, tid, a, c, d, shift);
  }

  /** The wrap lies inside: some of the transaction is listed before the metablock that starts it. */
  lemma WrapsInside(j: Journal, ws: seq<nat>, mr: seq<nat>, first: Tid, tid: Tid, a: nat, c: nat, d: nat)
    requires WrittenFrom(j, ws, first) && ListedAs(j, ws, mr)
    requires Span(j, ws, tid, a, c, |ws|) && Ends(j, ws, tid, d) && first + a < 0x1_0000 <= first + d
    ensures !Contained(j, mr, tid)
  {
    ListedTurned(j, ws, mr, first);
    var z := BeforeWrap(ws, first);
    forall a': nat, c': nat ensures !Span(j, mr, tid, a', c', |mr|) {
      assert mr[d - z] == ws[d] && Belongs(j, mr, tid, d - z);
      if a' <= d - z {
        assert mr[a'] == ws[a' + z];
        assert Belongs(j, mr, tid, a') ==> Belongs(j, ws, tid, a' + z);
      }
    }
  }

  /**
   * Exactly when `analyze_tid` accepts a transaction that was written in full, from its start at
   * `a` to its last metablock `d`: the numbers do not wrap around between the two, although
   * `want_seq` allows for it.
   */
  lemma ContainedUnlessWrapped(j: Journal, ws: seq<nat>, mr: seq<nat>, first: Tid, tid: Tid, a: nat, c: nat, d: nat)
    requires WrittenFrom(j, ws, first) && ListedAs(j, ws, mr)
    requires Span(j, ws, tid, a, c, |ws|) && Ends(j, ws, tid, d)
    ensures Contained(j, mr, tid) <==> !(first + a < 0x1_0000 <= first + d)
  {
    if first + a < 0x1_0000 <= first + d {
      WrapsInside(j, ws, mr, first, tid, a, c, d);
    } else {
      WrapsOutside(j, ws, mr, first, tid, a, c, d);
    }
  }

  // ---------------------------------------------------------------- an example

  /** A metablock without references. */
  function Bare(sequence: Tid, start: bool, commit: bool, boundary: Tid): Block {
    Block(JOURNALMAGIC, NOCHECKSUM, 0, sequence, 1, boundary, 1,
          Flags(true, false, false, start, commit, false, 0), 0, [])
  }

  /** Transaction 1 in two metablocks. */
  function TwoBlocks(first: Tid): Journal {
    [Bare(first, true, false, 1), Bare(TidNext(first), false, true, 2)]
  }

  lemma ScanTwo(c: Env, first: Tid)
    ensures ScanAll(c, TwoBlocks(first)) == Scan(TwoBlocks(first), if first == 0xFFFF then [1, 0] else [0, 1], true)
  {
    var j := TwoBlocks(first);
    assert ScanUpTo(c, j, 0) == Scan(j, [], true);
    var s1 := ScanUpTo(c, j, 1);
    assert Acceptable(c, j, 0) && RunFits(c, j, 0);
    assert s1 == ScanBlock(c, Scan(j, [], true), 0);
    assert Insert(j, [], 0) == [0];
    assert s1 == Scan(j, [0], true);
    assert Acceptable(c, j, 1) && RunFits(c, j, 1);
    assert ScanUpTo(c, j, 2) == ScanBlock(c, s1, 1);
    InsertSecond(j, first);
  }

  lemma InsertSecond(j: Journal, first: Tid)
    requires j == TwoBlocks(first)
    ensures Insert(j, [0], 1) == if first == 0xFFFF then [1, 0] else [0, 1]
  {
    var x := InsertPosition(j, [0], j[1].sequence);
    assert x == if first == 0xFFFF then 0 else 1;
  }

  /** The same committed transaction is replayable or not, according to its sequence numbers. */
  lemma TwoBlocksReplayable(c: Env, first: Tid)
    ensures var s := ScanAll(c, TwoBlocks(first)); Indices(s.blocks, s.mr) && (Replayable(s) <==> first != 0xFFFF)
  {
    var j := TwoBlocks(first);
    ScanTwo(c, first);
    if first != 0xFFFF {
      var mr := [0, 1];
      assert LinkOk(j, mr, 0) && LinkOk(j, mr, 1);
      assert Begins(j, mr, 1, 0, 2) && Adjacent(j, mr, 1);
      assert Span(j, mr, 1, 0, 1, 2);
      forall t | t in TidsBetween(1, 2) ensures t == 1 {
        WindowIsEnumerated(t, 1, 2);
      }
    } else {
      assert !LinkOk(j, [1, 0], 1);
    }
  }
}
