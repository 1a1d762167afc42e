/**
 * `memrangeset` (k-memrange.hh): an interval map from addresses to types, kept in place in
 * an array of range starts closed by a sentinel at the address limit.
 */
module MemRange {
  import opened Collections

  datatype Range = Range(addr: nat, kind: int)

  // ---------------------------------------------------------------- ranges as an address map

  /** Range starts strictly increase from address 0; the last element is the limit. */
  ghost predicate Sorted(s: seq<Range>) {
    && |s| >= 2
    && s[0].addr == 0
    && forall i, j :: 0 <= i < j < |s| ==> s[i].addr < s[j].addr
  }

  ghost predicate NoEqualNeighbours(s: seq<Range>) {
    forall i :: 0 < i < |s| - 1 ==> s[i - 1].kind != s[i].kind
  }

  /** Address `a` lies in range `i`. */
  predicate Holds(s: seq<Range>, i: int, a: int) {
    0 <= i < |s| - 1 && s[i].addr <= a < s[i + 1].addr
  }

  ghost function Limit(s: seq<Range>): nat
    requires |s| >= 1
  {
    s[|s| - 1].addr
  }

  /** The type of address `a`. */
  ghost function TypeAt(s: seq<Range>, a: nat): int
    requires |s| >= 2
  {
    if |s| == 2 || a < s[1].addr then s[0].kind else TypeAt(s[1..], a)
  }

  lemma {:induction false} TypeAtIs(s: seq<Range>, i: nat, a: nat)
    requires |s| >= 2 && Holds(s, i, a)
    requires forall i, j :: 0 <= i < j < |s| ==> s[i].addr < s[j].addr
    ensures TypeAt(s, a) == s[i].kind
  {
    if i > 0 {
      assert s[1].addr <= s[i].addr;
      TypeAtIs(s[1..], i - 1, a);
    }
  }

  lemma {:induction false} SomeRange(s: seq<Range>, a: nat) returns (i: nat)
    requires Sorted(s) && a < Limit(s)
    ensures Holds(s, i, a) && TypeAt(s, a) == s[i].kind
  {
    i := 0;
    while a >= s[i + 1].addr
      invariant i < |s| - 1 && s[i].addr <= a
      decreases |s| - i
    {
      i := i + 1;
    }
    TypeAtIs(s, i, a);
  }

  lemma HoldsOrder(s: seq<Range>, k: nat, a: nat, j: nat)
    requires Sorted(s) && Holds(s, k, a) && j < |s|
    ensures s[j].addr <= a <==> j <= k
  {
  }

  /** `t` assigns the same types as `s` outside `[lo, hi)`. */
  ghost predicate AgreeOutside(s: seq<Range>, t: seq<Range>, lo: nat, hi: nat)
    requires |s| >= 2 && |t| >= 2
  {
    forall a: nat :: a < Limit(s) && !(lo <= a < hi) ==> TypeAt(t, a) == TypeAt(s, a)
  }

  /** `t` is `s` with `[lo, hi)` assigned `kind`. */
  ghost predicate Assigned(s: seq<Range>, t: seq<Range>, lo: nat, hi: nat, kind: int)
    requires |s| >= 2 && |t| >= 2
  {
    && Limit(t) == Limit(s)
    && AgreeOutside(s, t, lo, hi)
    && forall a: nat :: lo <= a < hi ==> TypeAt(t, a) == kind
  }

  // ---------------------------------------------------------------- edits of the range list

  function SplitAt(s: seq<Range>, i: nat, addr: nat): seq<Range>
    requires i < |s|
  {
    s[..i + 1] + [Range(addr, s[i].kind)] + s[i + 1..]
  }

  lemma SplitKeeps(s: seq<Range>, i: nat, addr: nat)
    requires Sorted(s) && i < |s| - 1 && s[i].addr < addr < s[i + 1].addr
    ensures Sorted(SplitAt(s, i, addr)) && Limit(SplitAt(s, i, addr)) == Limit(s)
    ensures forall a: nat :: a < Limit(s) ==> TypeAt(SplitAt(s, i, addr), a) == TypeAt(s, a)
  {
    var t := SplitAt(s, i, addr);
    SplitSorted(s, i, addr);
    forall a: nat | a < Limit(s) ensures TypeAt(t, a) == TypeAt(s, a) {
      var k := SomeRange(s, a);
      if k < i || (k == i && a < addr) {
        TypeAtIs(t, k, a);
      } else {
        TypeAtIs(t, k + 1, a);
      }
    }
  }

  lemma SplitSorted(s: seq<Range>, i: nat, addr: nat)
    requires Sorted(s) && i < |s| - 1 && s[i].addr < addr < s[i + 1].addr
    ensures Sorted(SplitAt(s, i, addr)) && Limit(SplitAt(s, i, addr)) == Limit(s)
  {
    var t := SplitAt(s, i, addr);
    forall j, k | 0 <= j < k < |t| ensures t[j].addr < t[k].addr {
      assert j <= i ==> t[j].addr <= s[i].addr;
      assert k > i + 1 ==> s[i + 1].addr <= t[k].addr;
    }
  }

  /** Moving a boundary up reassigns only the addresses it passes. */
  lemma NudgeKeeps(s: seq<Range>, j: nat, addr: nat)
    requires Sorted(s) && 0 < j < |s|
    requires s[j].addr <= addr
    requires if j == |s| - 1 then addr == s[j].addr else addr < s[j + 1].addr
    ensures var t := s[j := Range(addr, s[j].kind)];
            Sorted(t) && Limit(t) == Limit(s) && AgreeOutside(s, t, s[j].addr, addr)
  {
    var t := s[j := Range(addr, s[j].kind)];
    forall a: nat | a < Limit(s) && !(s[j].addr <= a < addr) ensures TypeAt(t, a) == TypeAt(s, a) {
      var k := SomeRange(s, a);
      TypeAtIs(t, k, a);
    }
  }

  function Collapse(s: seq<Range>, i: nat, j: nat, kind: int): (t: seq<Range>)
    requires i < j < |s|
    ensures |t| == |s| - (j - i - 1)
    ensures forall k :: 0 <= k < i ==> t[k] == s[k]
    ensures t[i] == Range(s[i].addr, kind)
    ensures forall k :: i < k < |t| ==> t[k] == s[k + (j - i - 1)]
  {
    s[..i] + [Range(s[i].addr, kind)] + s[j..]
  }

  lemma CollapseSorted(s: seq<Range>, i: nat, j: nat, kind: int)
    requires Sorted(s) && i < j < |s|
    ensures Sorted(Collapse(s, i, j, kind))
  {
    var t := Collapse(s, i, j, kind);
    forall x, y | 0 <= x < y < |t| ensures t[x].addr < t[y].addr {
      assert x > i ==> t[x] == s[x - i - 1 + j];
      assert y > i ==> t[y] == s[y - i - 1 + j];
    }
  }

  lemma CollapseTypeAt(s: seq<Range>, t: seq<Range>, i: nat, j: nat, kind: int, a: nat)
    requires Sorted(s) && Sorted(t) && i < j < |s| && a < Limit(s)
    requires |t| == |s| - (j - i - 1) && t[i] == Range(s[i].addr, kind)
    requires forall k :: 0 <= k < i ==> t[k] == s[k]
    requires forall k :: i < k < |t| ==> t[k] == s[k + (j - i - 1)]
    ensures TypeAt(t, a) == if s[i].addr <= a < s[j].addr then kind else TypeAt(s, a)
  {
    if s[i].addr <= a < s[j].addr {
      TypeAtIs(t, i, a);
    } else {
      var k := SomeRange(s, a);
      HoldsOrder(s, k, a, i);
      HoldsOrder(s, k, a, j);
      if k < i {
        TypeAtIs(t, k, a);
      } else {
        var m := k - (j - i - 1);
        assert Holds(t, m, a);
        TypeAtIs(t, m, a);
      }
    }
  }

  lemma CollapseAssigns(s: seq<Range>, i: nat, j: nat, kind: int)
    requires Sorted(s) && i < j < |s|
    ensures Sorted(Collapse(s, i, j, kind))
    ensures Assigned(s, Collapse(s, i, j, kind), s[i].addr, s[j].addr, kind)
  {
    var t := Collapse(s, i, j, kind);
    CollapseSorted(s, i, j, kind);
    forall a: nat | a < Limit(s)
      ensures TypeAt(t, a) == if s[i].addr <= a < s[j].addr then kind else TypeAt(s, a)
    {
      CollapseTypeAt(s, t, i, j, kind, a);
    }
  }

  // ---------------------------------------------------------------- how many boundaries are missing

  ghost predicate Boundary(s: seq<Range>, a: nat) {
    exists i :: 0 <= i < |s| && s[i].addr == a
  }

  /** `set` must cut the range holding `first`. */
  ghost predicate CutsLeft(s: seq<Range>, first: nat, kind: int)
    requires |s| >= 2
  {
    !Boundary(s, first) && TypeAt(s, first) != kind
  }

  /** `set` must cut the range holding `last`: no existing boundary can be moved there. */
  ghost predicate CutsRight(s: seq<Range>, first: nat, last: nat, kind: int)
    requires |s| >= 2
  {
    && !Boundary(s, last)
    && TypeAt(s, last) != kind
    && (CutsLeft(s, first, kind)
        || (&& (forall b :: first < b <= last ==> !Boundary(s, b))
            && (first > 0 ==> TypeAt(s, first - 1) != kind)))
  }

  ghost function Cuts(s: seq<Range>, first: nat, last: nat, kind: int): nat
    requires |s| >= 2
  {
    (if CutsLeft(s, first, kind) then 1 else 0) + (if CutsRight(s, first, last, kind) then 1 else 0)
  }

  // ---------------------------------------------------------------- the stages of `set`

  /** `[lo, hi)` extends `[first, last)` over addresses that already have type `kind`. */
  ghost predicate Widened(s: seq<Range>, first: nat, last: nat, kind: int, lo: nat, hi: nat)
    requires |s| >= 2
  {
    && lo <= first < last <= hi <= Limit(s)
    && forall a: nat :: (lo <= a < first || last <= a < hi) ==> TypeAt(s, a) == kind
  }

  /** `t` is sorted, covers the same addresses and differs from `s` only inside `[lo, hi)`. */
  ghost predicate Drafts(s: seq<Range>, t: seq<Range>, lo: nat, hi: nat) {
    |s| >= 2 && Sorted(t) && Limit(t) == Limit(s) && AgreeOutside(s, t, lo, hi)
  }

  /** No equal neighbours below range `i`, and a range of type `kind` may start at `i`. */
  ghost predicate LeftNormal(t: seq<Range>, i: nat, kind: int)
    requires i < |t|
  {
    && (forall k :: 0 < k < i ==> t[k - 1].kind != t[k].kind)
    && (i > 0 ==> t[i - 1].kind != kind)
  }

  /** No equal neighbours from range `j` on, and a range of type `kind` may end at `j`. */
  ghost predicate RightNormal(t: seq<Range>, j: nat, kind: int) {
    && (forall k :: j < k < |t| - 1 ==> t[k - 1].kind != t[k].kind)
    && (j < |t| - 1 ==> t[j].kind != kind)
  }

  /** `hi` lies in range `j`, strictly inside it unless a range ends there. */
  ghost predicate EndsIn(t: seq<Range>, i: nat, j: nat, hi: nat) {
    && i <= j < |t| && t[j].addr <= hi
    && (if j == |t| - 1 then hi == t[j].addr else hi < t[j + 1].addr)
    && (hi == t[j].addr ==> i < j)
  }

  lemma CutLeft(s: seq<Range>, t: seq<Range>, i: nat, lo: nat, j: nat, hi: nat, kind: int)
    requires Drafts(s, t, lo, hi) && i < |t| - 1 && t[i].addr < lo < t[i + 1].addr && lo < hi
    requires t[i].kind != kind && EndsIn(t, i, j, hi) && RightNormal(t, j, kind)
    requires forall k :: 0 < k <= i ==> t[k - 1].kind != t[k].kind
    ensures var u := SplitAt(t, i, lo);
            && Drafts(s, u, lo, hi) && u[i + 1].addr == lo && LeftNormal(u, i + 1, kind)
            && EndsIn(u, i + 1, j + 1, hi) && RightNormal(u, j + 1, kind)
  {
    SplitKeeps(t, i, lo);
  }

  lemma CutRight(s: seq<Range>, t: seq<Range>, i: nat, lo: nat, j: nat, hi: nat, kind: int)
    requires Drafts(s, t, lo, hi) && EndsIn(t, i, j, hi) && t[j].addr < hi
    requires LeftNormal(t, i, kind) && RightNormal(t, j, kind)
    ensures var u := SplitAt(t, j, hi);
            && Drafts(s, u, lo, hi) && u[j + 1].addr == hi && u[i] == t[i]
            && LeftNormal(u, i, kind) && RightNormal(u, j + 1, kind)
  {
    SplitKeeps(t, j, hi);
  }

  lemma CollapseNormal(t: seq<Range>, i: nat, j: nat, kind: int)
    requires i < j < |t| && LeftNormal(t, i, kind) && RightNormal(t, j, kind)
    ensures NoEqualNeighbours(Collapse(t, i, j, kind))
  {
  }

  lemma CollapseFinishes(s: seq<Range>, t: seq<Range>, first: nat, last: nat, kind: int, i: nat, j: nat)
    requires i < j < |t| && Drafts(s, t, t[i].addr, t[j].addr)
    requires Widened(s, first, last, kind, t[i].addr, t[j].addr)
    ensures Sorted(Collapse(t, i, j, kind))
    ensures Assigned(s, Collapse(t, i, j, kind), first, last, kind)
  {
    CollapseAssigns(t, i, j, kind);
  }

  /** The range index and widened start that the search for `first` settles on. */
  function LeftEnd(s: seq<Range>, first: nat, kind: int, i: nat): (nat, nat)
    requires i < |s|
  {
    if first == s[i].addr && i > 0 && s[i - 1].kind == kind then (i - 1, s[i - 1].addr)
    else if s[i].kind == kind then (i, s[i].addr)
    else (i, first)
  }

  lemma LeftEndFacts(s: seq<Range>, first: nat, kind: int, i0: nat)
    requires Sorted(s) && NoEqualNeighbours(s) && Holds(s, i0, first)
    ensures var (i, lo) := LeftEnd(s, first, kind, i0);
            && Holds(s, i, lo) && lo <= first && i <= i0
            && (forall a: nat :: lo <= a < first ==> TypeAt(s, a) == kind)
            && (lo == s[i].addr ==> LeftNormal(s, i, kind))
            && (lo != s[i].addr ==> s[i].kind != kind)
            && (lo != s[i].addr <==> CutsLeft(s, first, kind))
            && (i < i0 || (first > s[i0].addr && lo == s[i].addr) ==> s[i].kind == kind)
            && (i == i0 && first == s[i0].addr && first > 0 ==> TypeAt(s, first - 1) != kind)
  {
    var (i, lo) := LeftEnd(s, first, kind, i0);
    forall a: nat | lo <= a < first ensures TypeAt(s, a) == kind {
      TypeAtIs(s, i, a);
    }
    TypeAtIs(s, i0, first);
    if first == s[i0].addr && first > 0 {
      TypeAtIs(s, i0 - 1, first - 1);
    }
    assert Boundary(s, first) <==> first == s[i0].addr;
  }

  /** The range index and widened end that the search for `last` settles on. */
  function RightEnd(s: seq<Range>, last: nat, kind: int, j: nat): (nat, nat)
    requires j < |s|
  {
    if j < |s| - 1 && s[j].kind == kind then (j + 1, s[j + 1].addr) else (j, last)
  }

  lemma RightEndFacts(s: seq<Range>, last: nat, kind: int, j0: nat)
    requires Sorted(s) && NoEqualNeighbours(s) && j0 < |s| && s[j0].addr <= last <= Limit(s)
    requires j0 < |s| - 1 ==> last < s[j0 + 1].addr
    ensures var (j, hi) := RightEnd(s, last, kind, j0);
            && j0 <= j < |s| && last <= hi <= Limit(s) && s[j].addr <= hi
            && (if j == |s| - 1 then hi == s[j].addr else hi < s[j + 1].addr)
            && (forall a: nat :: last <= a < hi ==> TypeAt(s, a) == kind)
            && RightNormal(s, j, kind)
            && (hi != s[j].addr <==> !Boundary(s, last) && TypeAt(s, last) != kind)
  {
    var (j, hi) := RightEnd(s, last, kind, j0);
    forall a: nat | last <= a < hi ensures TypeAt(s, a) == kind {
      TypeAtIs(s, j0, a);
    }
    if j0 < |s| - 1 {
      TypeAtIs(s, j0, last);
    }
    assert Boundary(s, last) <==> last == s[j0].addr;
  }

  /** An existing boundary is moved to `last` exactly when no right cut is needed for want of one. */
  lemma CutsRightFacts(s: seq<Range>, first: nat, last: nat, kind: int, i0: nat, j0: nat)
    requires Sorted(s) && NoEqualNeighbours(s) && first < last <= Limit(s) && Holds(s, i0, first)
    requires j0 < |s| && s[j0].addr <= last && (j0 < |s| - 1 ==> last < s[j0 + 1].addr)
    ensures var (i, lo) := LeftEnd(s, first, kind, i0);
            var (j, hi) := RightEnd(s, last, kind, j0);
            i <= j0 && (CutsRight(s, first, last, kind) <==> hi != s[j].addr && !(j > i && lo == s[i].addr))
  {
    LeftEndFacts(s, first, kind, i0);
    RightEndFacts(s, last, kind, j0);
    BoundaryBetween(s, first, last, i0, j0);
    TypeBefore(s, first, i0);
  }

  /** There is a boundary after `first` up to `last` exactly if they lie in different ranges. */
  lemma BoundaryBetween(s: seq<Range>, first: nat, last: nat, i0: nat, j0: nat)
    requires Sorted(s) && first < last <= Limit(s) && Holds(s, i0, first)
    requires j0 < |s| && s[j0].addr <= last && (j0 < |s| - 1 ==> last < s[j0 + 1].addr)
    ensures i0 <= j0 && ((exists b :: first < b <= last && Boundary(s, b)) <==> i0 < j0)
  {
    if i0 < j0 {
      assert Boundary(s, s[j0].addr);
    }
  }

  /** The types at `first` and just before it. */
  lemma TypeBefore(s: seq<Range>, first: nat, i0: nat)
    requires Sorted(s) && Holds(s, i0, first)
    ensures TypeAt(s, first) == s[i0].kind
    ensures first > 0 ==> TypeAt(s, first - 1) == if first == s[i0].addr then s[i0 - 1].kind else s[i0].kind
  {
    TypeAtIs(s, i0, first);
    if first > 0 {
      TypeAtIs(s, if first == s[i0].addr then i0 - 1 else i0, first - 1);
    }
  }

  /** What the search half of `set` hands to the assignment half. */
  ghost predicate Located(s: seq<Range>, t: seq<Range>, first: nat, last: nat, kind: int,
                          i: nat, lo: nat, j: nat, hi: nat)
  {
    && Drafts(s, t, lo, hi) && Widened(s, first, last, kind, lo, hi)
    && Holds(t, i, lo) && EndsIn(t, i, j, hi) && RightNormal(t, j, kind)
    && (lo == t[i].addr ==> LeftNormal(t, i, kind))
    && (lo != t[i].addr ==> t[i].kind != kind && forall k :: 0 < k <= i ==> t[k - 1].kind != t[k].kind)
  }

  lemma LocatedUnmoved(s: seq<Range>, first: nat, last: nat, kind: int, i0: nat, j0: nat)
    requires Sorted(s) && NoEqualNeighbours(s) && first < last <= Limit(s) && Holds(s, i0, first)
    requires j0 < |s| && s[j0].addr <= last && (j0 < |s| - 1 ==> last < s[j0 + 1].addr)
    ensures var (i, lo) := LeftEnd(s, first, kind, i0);
            var (j, hi) := RightEnd(s, last, kind, j0);
            && (hi == s[j].addr ==> i < j)
            && Located(s, s, first, last, kind, i, lo, j, hi)
            && (lo != s[i].addr <==> CutsLeft(s, first, kind))
  {
    LeftEndFacts(s, first, kind, i0);
    RightEndFacts(s, last, kind, j0);
    assert i0 <= j0;
  }

  lemma LocatedMoved(s: seq<Range>, first: nat, last: nat, kind: int, i: nat, j: nat)
    requires Sorted(s) && 0 <= i < j < |s|
    requires Located(s, s, first, last, kind, i, s[i].addr, j, last)
    ensures Located(s, s[j := Range(last, s[j].kind)], first, last, kind, i, s[i].addr, j, last)
  {
    NudgeKeeps(s, j, last);
  }

  /** Shifting the ranges after `i` up by one makes room for a new boundary. */
  lemma ShiftSplits(a: seq<Range>, b: seq<Range>, n: nat, i: nat, addr: nat)
    requires i < n && n + 1 < |a| == |b|
    requires b[..i + 2] == a[..i + 2] && b[i + 2..n + 2] == a[i + 1..n + 1]
    ensures b[i + 1 := Range(addr, b[i].kind)][..n + 2] == SplitAt(a[..n + 1], i, addr)
  {
    var c := b[i + 1 := Range(addr, b[i].kind)];
    assert b[i] == b[..i + 2][i] == a[i];
    assert c[..i + 1] == b[..i + 2][..i + 1] == a[..n + 1][..i + 1];
    assert c[i + 2..n + 2] == b[i + 2..n + 2] == a[..n + 1][i + 1..];
    assert c[..n + 2] == c[..i + 1] + [c[i + 1]] + c[i + 2..n + 2];
  }

  /** Setting the type of range `i` and shifting the ranges from `j` on down behind it. */
  lemma ShiftCollapses(a: seq<Range>, b: seq<Range>, n: nat, i: nat, j: nat, kind: int)
    requires i < j <= n < |a| == |b|
    requires b[..i] == a[..i] && b[i] == Range(a[i].addr, kind) && b[i + 1..i + 1 + (n + 1 - j)] == a[j..n + 1]
    ensures b[..n + 1 - (j - (i + 1))] == Collapse(a[..n + 1], i, j, kind)
  {
    var m := n + 1 - (j - (i + 1));
    assert b[..m] == b[..i] + [b[i]] + b[i + 1..m];
    assert a[..n + 1][..i] == a[..i] && a[..n + 1][j..] == a[j..n + 1];
  }

  /** The same with the two changes made one after the other; the second is void if `j` follows `i`. */
  lemma Shifted(a: seq<Range>, m: seq<Range>, b: seq<Range>, n: nat, i: nat, j: nat, kind: int)
    requires i < j <= n < |a| == |m| == |b| && m == a[i := Range(a[i].addr, kind)]
    requires b[..i + 1] == m[..i + 1] && b[i + 1..i + 1 + (n + 1 - j)] == m[j..n + 1]
    ensures b[..n + 1 - (j - (i + 1))] == Collapse(a[..n + 1], i, j, kind)
  {
    assert b[i] == b[..i + 1][i] == m[..i + 1][i];
    assert b[..i] == b[..i + 1][..i] == m[..i + 1][..i] == a[..i];
    assert m[j..n + 1] == a[j..n + 1];
    ShiftCollapses(a, b, n, i, j, kind);
  }

  /** The right end of the range to replace: past a range of type `kind`, or at a boundary moved to `last`. */
  function Adjust(s: seq<Range>, i: nat, lo: nat, j: nat, last: nat, kind: int): (seq<Range>, nat, nat)
    requires i < |s| && j < |s|
  {
    if j < |s| - 1 && s[j].kind == kind then (s, j + 1, s[j + 1].addr)
    else if j > i && lo == s[i].addr then (s[j := Range(last, s[j].kind)], j, last)
    else (s, j, last)
  }

  lemma AdjustIsLocated(s: seq<Range>, first: nat, last: nat, kind: int, i0: nat, j0: nat)
    requires Sorted(s) && NoEqualNeighbours(s) && first < last <= Limit(s) && Holds(s, i0, first)
    requires j0 < |s| && s[j0].addr <= last && (j0 < |s| - 1 ==> last < s[j0 + 1].addr)
    ensures var (i, lo) := LeftEnd(s, first, kind, i0);
            var (t, j, hi) := Adjust(s, i, lo, j0, last, kind);
            && Located(s, t, first, last, kind, i, lo, j, hi)
            && (lo != t[i].addr <==> CutsLeft(s, first, kind))
            && (hi != t[j].addr <==> CutsRight(s, first, last, kind))
            && (lo != t[i].addr || hi != t[j].addr ==> t == s)
  {
    var (i, lo) := LeftEnd(s, first, kind, i0);
    var (j, hi) := RightEnd(s, last, kind, j0);
    LocatedUnmoved(s, first, last, kind, i0, j0);
    CutsRightFacts(s, first, last, kind, i0, j0);
    if !(j0 < |s| - 1 && s[j0].kind == kind) && j > i && lo == s[i].addr {
      LocatedMoved(s, first, last, kind, i, j);
    }
  }

  /** Range `i` of `t` starts at `lo`; it remains to cut at `hi` if needed, and to merge. */
  ghost predicate LeftDone(s: seq<Range>, t: seq<Range>, first: nat, last: nat, kind: int,
                           i: nat, lo: nat, j: nat, hi: nat)
  {
    && Drafts(s, t, lo, hi) && Widened(s, first, last, kind, lo, hi)
    && i < |t| && t[i].addr == lo && LeftNormal(t, i, kind) && EndsIn(t, i, j, hi) && RightNormal(t, j, kind)
  }

  lemma LocatedIsDone(s: seq<Range>, t: seq<Range>, first: nat, last: nat, kind: int, i: nat, lo: nat, j: nat, hi: nat)
    requires Located(s, t, first, last, kind, i, lo, j, hi)
    ensures lo == t[i].addr ==> LeftDone(s, t, first, last, kind, i, lo, j, hi)
    ensures lo != t[i].addr ==>
              LeftDone(s, SplitAt(t, i, lo), first, last, kind, i + 1, lo, j + 1, hi)
              && (hi != SplitAt(t, i, lo)[j + 1].addr <==> hi != t[j].addr)
  {
    if lo != t[i].addr {
      CutLeft(s, t, i, lo, j, hi, kind);
    }
  }

  // ---------------------------------------------------------------- the class

  class MemRangeSet {
    const maxsize: nat
    var r: array<Range>
    var n: nat

    ghost predicate Valid()
      reads this, r
    {
      && r.Length == maxsize + 1
      && 0 < n <= maxsize
      && Sorted(Ranges())
      && NoEqualNeighbours(Ranges())
    }

    ghost function Ranges(): seq<Range>
      requires n < r.Length
      reads this, r
    {
      r[..n + 1]
    }

    constructor (maxsize: nat, limit: nat)
      requires 0 < maxsize && 0 < limit
      ensures Valid() && fresh(r) && this.maxsize == maxsize
      ensures Limit(Ranges()) == limit
      ensures forall a: nat :: a < limit ==> TypeAt(Ranges(), a) == 0
    {
      this.maxsize := maxsize;
      var slots := new Range[maxsize + 1];
      slots[0] := Range(0, 0);
      slots[1] := Range(limit, 0);
      r := slots;
      n := 1;
      new;
      assert Ranges() == [Range(0, 0), Range(limit, 0)];
    }

    /** Index of the range containing `addr`, or `n` if `addr` is not below the limit. */
    method Find(addr: nat) returns (i: nat)
      requires Valid()
      ensures i <= n
      ensures i < n <==> addr < Limit(Ranges())
      ensures i < n ==> Holds(Ranges(), i, addr) && r[i].kind == TypeAt(Ranges(), addr)
    {
      i := 0;
      while i < n && addr >= r[i + 1].addr
        invariant i <= n && r[i].addr <= addr
      {
        i := i + 1;
      }
      assert Limit(Ranges()) == r[n].addr;
      if i < n {
        TypeAtIs(Ranges(), i, addr);
      }
    }

    method Type(addr: nat) returns (kind: int)
      requires Valid() && addr < Limit(Ranges())
      ensures kind == TypeAt(Ranges(), addr)
    {
      var i := Find(addr);
      kind := r[i].kind;
    }

    /** `memmove` within the array, given in elements. */
    method MemMove(dst: nat, src: nat, count: nat)
      requires dst + count <= r.Length && src + count <= r.Length
      modifies r
      ensures r[..dst] == old(r[..dst])
      ensures r[dst..dst + count] == old(r[src..src + count])
      ensures r[dst + count..] == old(r[dst + count..])
    {
      forall k | dst <= k < dst + count {
        r[k] := r[k - dst + src];
      }
    }

    method Split(i: nat, addr: nat)
      requires r.Length == maxsize + 1 && i < n < maxsize
      modifies this, r
      ensures r == old(r) && n == old(n) + 1
      ensures Ranges() == SplitAt(old(Ranges()), i, addr)
    {
      MemMove(i + 2, i + 1, n - i);
      ShiftSplits(old(r[..]), r[..], n, i, addr);
      r[i + 1] := Range(addr, r[i].kind);
      n := n + 1;
    }

    /** Find the range holding `first`, consolidating with ranges of type `kind`. */
    method SearchLeft(first: nat, kind: int) returns (ghost i0: nat, i: nat, lo: nat)
      requires Valid() && first < Limit(Ranges())
      ensures Holds(Ranges(), i0, first) && (i, lo) == LeftEnd(Ranges(), first, kind, i0)
      ensures i <= i0
    {
      i, lo := 0, first;
      while lo >= r[i + 1].addr
        invariant i < n && r[i].addr <= lo
        decreases n - i
      {
        i := i + 1;
      }
      i0 := i;
      if lo == r[i].addr && i > 0 && r[i - 1].kind == kind {
        i := i - 1;
      }
      if r[i].kind == kind {
        lo := r[i].addr;
      }
    }

    /** Find the range holding `last`, starting at `i`. */
    method SearchRight(i: nat, last: nat) returns (j: nat)
      requires Valid() && i < n && r[i].addr <= last <= Limit(Ranges())
      ensures i <= j <= n && r[j].addr <= last && (j < n ==> last < r[j + 1].addr)
    {
      j := i;
      while j < n && last >= r[j + 1].addr
        invariant i <= j <= n && r[j].addr <= last
      {
        j := j + 1;
      }
    }

    /** First half of `set`: find the ranges to replace, moving boundary `j` to `last` if that saves a cut. */
    method Locate(first: nat, last: nat, kind: int) returns (i: nat, lo: nat, j: nat, hi: nat)
      requires Valid() && first < last <= Limit(Ranges())
      modifies r
      ensures Whole(Located(old(Ranges()), Ranges(), first, last, kind, i, lo, j, hi))
      ensures lo != r[i].addr <==> CutsLeft(old(Ranges()), first, kind)
      ensures hi != r[j].addr <==> CutsRight(old(Ranges()), first, last, kind)
      ensures lo != r[i].addr || hi != r[j].addr ==> r[..] == old(r[..])
    {
      ghost var i0;
      i0, i, lo := SearchLeft(first, kind);
      j := SearchRight(i, last);
      AdjustIsLocated(Ranges(), first, last, kind, i0, j);
      j, hi := AdjustRight(i, lo, j, last, kind);
    }

    /** Go past a range of type `kind`, or move boundary `j0` to `last` if that saves a cut. */
    method AdjustRight(i: nat, lo: nat, j0: nat, last: nat, kind: int) returns (j: nat, hi: nat)
      requires n < r.Length && i <= n && j0 <= n
      modifies r
      ensures (Ranges(), j, hi) == Adjust(old(Ranges()), i, lo, j0, last, kind)
      ensures Ranges() == old(Ranges()) ==> r[..] == old(r[..])
    {
      j, hi := j0, last;
      if j < n && r[j].kind == kind {
        j := j + 1;
        hi := r[j].addr;
      } else if j > i && lo == r[i].addr {
        r[j] := r[j].(addr := hi);
        assert r[..] == old(r[..])[j := Range(last, old(r[j].kind))];
        assert Ranges() == old(Ranges())[j := Range(last, old(r[j].kind))];
        assert Ranges() == old(Ranges()) ==> Ranges()[j] == old(r[j]);
      }
    }

    /** Give range `i` type `kind` and remove the ranges from `i + 1` to `j`. */
    method Merge(i: nat, j: nat, kind: int)
      requires n < r.Length && i < j <= n
      modifies this, r
      ensures r == old(r) && n == old(n) - (j - (i + 1))
      ensures Ranges() == Collapse(old(Ranges()), i, j, kind)
    {
      r[i] := r[i].(kind := kind);
      ghost var m := r[..];
      if i + 1 < j {
        MemMove(i + 1, j, n + 1 - j);
        n := n - (j - (i + 1));
      }
      Shifted(old(r[..]), m, r[..], old(n), i, j, kind);
    }

    /** Second half of `set`: cut at `lo` and `hi` where needed and merge what lies between. */
    method Assign(ghost s: seq<Range>, ghost first: nat, ghost last: nat, kind: int,
                  i0: nat, lo: nat, j0: nat, hi: nat)
      requires r.Length == maxsize + 1 && n <= maxsize
      requires Located(s, Ranges(), first, last, kind, i0, lo, j0, hi)
      requires n + (if lo != r[i0].addr then 1 else 0) + (if hi != r[j0].addr then 1 else 0) <= maxsize
      modifies this, r
      ensures Valid() && r == old(r)
      ensures Assigned(s, Ranges(), first, last, kind)
    {
      var i, j := i0, j0;
      LocatedIsDone(s, Ranges(), first, last, kind, i, lo, j, hi);
      if lo != r[i].addr {
        Split(i, lo);
        i, j := i + 1, j + 1;
      }
      FinishRight(s, first, last, kind, i, lo, j, hi);
    }

    method FinishRight(ghost s: seq<Range>, ghost first: nat, ghost last: nat, kind: int,
                       i: nat, ghost lo: nat, j0: nat, hi: nat)
      requires r.Length == maxsize + 1 && n <= maxsize
      requires Whole(LeftDone(s, Ranges(), first, last, kind, i, lo, j0, hi))
      requires n + (if hi != r[j0].addr then 1 else 0) <= maxsize
      modifies this, r
      ensures Valid() && r == old(r)
      ensures Assigned(s, Ranges(), first, last, kind)
    {
      var j := j0;
      if hi != r[j].addr {
        CutRight(s, Ranges(), i, lo, j, hi, kind);
        Split(j, hi);
        j := j + 1;
      }
      CollapseFinishes(s, Ranges(), first, last, kind, i, j);
      CollapseNormal(Ranges(), i, j, kind);
      Merge(i, j, kind);
    }

    /** Set the type of `[first, last)` to `kind`. */
    method Set(first: nat, last: nat, kind: int) returns (ok: bool)
      requires Valid() && first <= last <= Limit(Ranges())
      modifies this, r
      ensures Valid() && r == old(r)
      ensures ok <==> first == last || old(n) + Cuts(old(Ranges()), first, last, kind) <= maxsize
      ensures ok ==> Assigned(old(Ranges()), Ranges(), first, last, kind)
      ensures !ok ==> n == old(n) && r[..] == old(r[..])
    {
      if first == last {
        return true;
      }
      var i, lo, j, hi := Locate(first, last, kind);
      if n + (if lo != r[i].addr then 1 else 0) + (if hi != r[j].addr then 1 else 0) > maxsize {
        return false;
      }
      Assign(old(Ranges()), first, last, kind, i, lo, j, hi);
      ok := true;
    }
  }
}
