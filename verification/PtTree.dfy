/**
 * The page-table pages of a page table in depth-first order, as `ptiter` (k-vmiter.hh) promises
 * to visit them.
 */
module PtTree {
  import opened Collections
  import opened Arithmetic
  import opened PageTable
  import opened VmMotion
  import opened VmUpdate

  /** A page-table page: the first address it covers, its level, and its frame. */
  datatype Node = Node(va: nat, level: nat, table: nat)

  /** One past the last address a page-table page covers. */
  function NodeEnd(n: Node): nat
    requires n.level <= 3
  {
    n.va + Size(n.level + 1)
  }

  /** The pages below the entries of table `t` that stand for the addresses from `v` up to `e`. */
  function Entries(mem: Mem, t: nat, level: nat, v: nat, e: nat): seq<Node>
    requires 1 <= level <= 3
    decreases level, if v < e then e - v else 0, t
  {
    if v >= e then []
    else FromEntry(mem, mem(t, Index(v, level)), level, v) + Entries(mem, t, level, v + Size(level), e)
  }

  /** The pages that hang from one entry: those below the table it points to, then that table. */
  function FromEntry(mem: Mem, w: Word, level: nat, v: nat): seq<Node>
    requires 1 <= level <= 3
    decreases level, 0
  {
    if !IsTable(w) then []
    else
      (if level == 1 then [] else Entries(mem, w.frame, level - 1, v, v + Size(level)))
      + [Node(v, level - 1, w.frame)]
  }

  function AllNodes(mem: Mem, root: nat): seq<Node> {
    Entries(mem, root, 3, 0, VA_NONCANONEND)
  }

  function LowNodes(mem: Mem, root: nat): seq<Node> {
    Entries(mem, root, 3, 0, VA_LOWEND)
  }

  function HighNodes(mem: Mem, root: nat): seq<Node> {
    Entries(mem, root, 3, VA_LOWEND, VA_NONCANONEND)
  }

  // ---------------------------------------------------------------- addresses

  predicate Aligned(v: nat, level: nat)
    requires level <= 4
  {
    v % Size(level) == 0
  }

  lemma MultipleIs(v: nat, s: nat)
    requires s > 0 && v % s == 0
    ensures v == v / s * s
  {
  }

  lemma AlignedUp(v: nat, level: nat)
    requires level <= 3
    ensures Aligned(v, level + 1) ==> Aligned(v, level) && Index(v, level) == 0
    ensures Size(level + 1) == 512 * Size(level)
    ensures v / Size(level + 1) == v / Size(level) / 512
  {
    Digits(v, Size(level), 512);
    assert Size(level) * 512 == Size(level + 1);
  }

  /** Moving on by one entry. */
  lemma NextEntry(va: nat, level: nat)
    requires level <= 3
    ensures Aligned(UpTo(va, level), level) && va < UpTo(va, level) <= UpTo(va, level + 1)
    ensures Aligned(va, level) ==> UpTo(va, level) == va + Size(level)
    ensures UpTo(va, level) < UpTo(va, level + 1) ==>
              Index(UpTo(va, level), level) == Index(va, level) + 1
              && UpTo(va, level) / Size(level + 1) == va / Size(level + 1)
    ensures UpTo(va, level) == UpTo(va, level + 1) ==> UpTo(va, level) / Size(level + 1) != va / Size(level + 1)
  {
    var s, x := Size(level), va / Size(level);
    var next := UpTo(va, level);
    InRegion(va, va, level);
    InRegion(va, next, level + 1);
    QuotientIs(next, s, x + 1, 0);
    AlignedUp(va, level);
    AlignedUp(next, level);
    assert va == x * s + va % s;
    UpToNested(va, level);
  }

  lemma UpToNested(va: nat, level: nat)
    requires level <= 3
    ensures UpTo(va, level) <= UpTo(va, level + 1)
  {
    var s, x := Size(level), va / Size(level);
    AlignedUp(va, level);
    MulMonotone(x + 1, (x / 512 + 1) * 512, s);
    assert (x / 512 + 1) * 512 * s == (x / 512 + 1) * Size(level + 1);
  }

  /** Addresses of one table region share that table. */
  lemma SameTableRegion(mem: Mem, root: nat, va: nat, va': nat, level: nat)
    requires level <= 3 && va / Size(level + 1) == va' / Size(level + 1)
    ensures At(mem, root, va, level) == At(mem, root, va', level) && UpTo(va, level + 1) == UpTo(va', level + 1)
  {
    SameRegionSamePrefix(va, va', level + 1);
    SharedWalk(mem, root, va, va', level);
  }

  // ---------------------------------------------------------------- what the order contains

  /** A page-table page met on a walk, with the first address it covers. */
  predicate IsNode(mem: Mem, root: nat, n: Node) {
    && n.level < 3 && Aligned(n.va, n.level + 1)
    && At(mem, root, n.va, n.level).Some? && At(mem, root, n.va, n.level).value.table == n.table
  }

  predicate Within(n: Node, v: nat, e: nat) {
    n.level < 3 && v <= n.va && NodeEnd(n) <= e
  }

  /** Depth-first order, children first: by the end of the region covered, then by level. */
  predicate Before(m: Node, n: Node)
    requires m.level < 3 && n.level < 3
  {
    NodeEnd(m) < NodeEnd(n) || (NodeEnd(m) == NodeEnd(n) && m.level < n.level)
  }

  ghost predicate Proper(mem: Mem, root: nat, ns: seq<Node>, level: nat, v: nat, e: nat) {
    && (forall i :: 0 <= i < |ns| ==> IsNode(mem, root, ns[i]) && Within(ns[i], v, e) && ns[i].level < level)
    && (forall i, j :: 0 <= i < j < |ns| ==> Before(ns[i], ns[j]))
  }

  /** The addresses from `v` to `e` lie in one table `t` of `level`, on entry boundaries. */
  predicate InTable(mem: Mem, root: nat, t: nat, level: nat, v: nat, e: nat)
    requires 1 <= level <= 3
  {
    && Aligned(v, level) && Aligned(e, level)
    && (v < e ==> At(mem, root, v, level).Some? && At(mem, root, v, level).value.table == t && e <= UpTo(v, level + 1))
  }

  lemma AlignedLess(v: nat, e: nat, s: nat)
    requires s > 0 && v % s == 0 && e % s == 0 && v < e
    ensures v + s <= e
  {
    MultipleIs(v, s);
    MultipleIs(e, s);
    if v / s >= e / s {
      MulMonotone(e / s, v / s, s);
    }
    MulMonotone(v / s + 1, e / s, s);
  }

  /** The rest of the table, and the table below the first entry. */
  lemma InTableSteps(mem: Mem, root: nat, t: nat, level: nat, v: nat, e: nat)
    requires 1 <= level <= 3 && v < e && InTable(mem, root, t, level, v, e)
    ensures v + Size(level) <= e && InTable(mem, root, t, level, v + Size(level), e)
    ensures var w := mem(t, Index(v, level));
            IsTable(w) ==>
              && At(mem, root, v, level - 1).Some? && At(mem, root, v, level - 1).value.table == w.frame
              && (level > 1 ==> InTable(mem, root, w.frame, level - 1, v, v + Size(level)))
  {
    AlignedLess(v, e, Size(level));
    NextEntry(v, level);
    if v + Size(level) < e {
      SameTableRegion(mem, root, v, v + Size(level), level);
    }
    AlignedUp(v, level - 1);
    AlignedUp(v + Size(level), level - 1);
  }

  lemma ProperConcat(mem: Mem, root: nat, xs: seq<Node>, ys: seq<Node>, level: nat, v: nat, m: nat, e: nat)
    requires Proper(mem, root, xs, level, v, m) && Proper(mem, root, ys, level, m, e) && v <= m <= e
    ensures Proper(mem, root, xs + ys, level, v, e)
  {
  }

  lemma ProperTop(mem: Mem, root: nat, xs: seq<Node>, n: Node, level: nat, e: nat)
    requires 1 <= level <= 3 && n.level == level - 1 && Aligned(n.va, level) && e == n.va + Size(level)
    requires At(mem, root, n.va, level - 1).Some? && At(mem, root, n.va, level - 1).value.table == n.table
    requires Proper(mem, root, xs, level - 1, n.va, e)
    ensures Proper(mem, root, xs + [n], level, n.va, e)
  {
    assert NodeEnd(n) == e;
  }

  /** Everything listed is a page-table page of the region, in depth-first order. */
  lemma {:induction false} EntriesProper(mem: Mem, root: nat, t: nat, level: nat, v: nat, e: nat)
    requires 1 <= level <= 3 && InTable(mem, root, t, level, v, e)
    ensures Proper(mem, root, Entries(mem, t, level, v, e), level, v, e)
    decreases level, if v < e then e - v else 0
  {
    if v < e {
      InTableSteps(mem, root, t, level, v, e);
      var v' := v + Size(level);
      EntriesProper(mem, root, t, level, v', e);
      FromEntryProper(mem, root, t, level, v, e);
      var here, rest := FromEntry(mem, mem(t, Index(v, level)), level, v), Entries(mem, t, level, v', e);
      ProperConcat(mem, root, here, rest, level, v, v', e);
    }
  }

  lemma {:induction false} FromEntryProper(mem: Mem, root: nat, t: nat, level: nat, v: nat, e: nat)
    requires 1 <= level <= 3 && v < e && InTable(mem, root, t, level, v, e)
    ensures Proper(mem, root, FromEntry(mem, mem(t, Index(v, level)), level, v), level, v, v + Size(level))
    decreases level, 0
  {
    InTableSteps(mem, root, t, level, v, e);
    var w := mem(t, Index(v, level));
    if IsTable(w) {
      var n, v' := Node(v, level - 1, w.frame), v + Size(level);
      if level == 1 {
        ProperTop(mem, root, [], n, level, v');
      } else {
        EntriesProper(mem, root, w.frame, level - 1, v, v');
        ProperTop(mem, root, Entries(mem, w.frame, level - 1, v, v'), n, level, v');
      }
    }
  }

  function NodeAt(mem: Mem, root: nat, x: nat, l: nat): Node
    requires l < 3 && At(mem, root, x, l).Some?
  {
    Node(x / Size(l + 1) * Size(l + 1), l, At(mem, root, x, l).value.table)
  }

  lemma {:induction false} WalkAbove(mem: Mem, root: nat, x: nat, l: nat, l': nat)
    requires l <= l' <= 3 && At(mem, root, x, l).Some?
    ensures At(mem, root, x, l').Some?
    decreases l' - l
  {
    if l < l' {
      WalkAbove(mem, root, x, l + 1, l');
    }
  }

  /** Every page-table page of the region is listed. */
  lemma {:induction false} EntriesComplete(mem: Mem, root: nat, t: nat, level: nat, v: nat, e: nat, x: nat, l: nat)
    requires 1 <= level <= 3 && InTable(mem, root, t, level, v, e)
    requires v <= x < e && l < level && At(mem, root, x, l).Some?
    ensures NodeAt(mem, root, x, l) in Entries(mem, t, level, v, e)
    decreases level, e - v
  {
    InTableSteps(mem, root, t, level, v, e);
    if x >= v + Size(level) {
      EntriesComplete(mem, root, t, level, v + Size(level), e, x, l);
    } else {
      FromEntryComplete(mem, root, t, level, v, e, x, l);
    }
  }

  lemma FirstEntryOf(mem: Mem, root: nat, t: nat, level: nat, v: nat, e: nat, x: nat)
    requires 1 <= level <= 3 && v < e && InTable(mem, root, t, level, v, e) && v <= x < v + Size(level)
    ensures x / Size(level) * Size(level) == v && At(mem, root, x, level - 1) == At(mem, root, v, level - 1)
  {
    NextEntry(v, level);
    InRegion(v, x, level);
    MultipleIs(v, Size(level));
    SameTableRegion(mem, root, v, x, level - 1);
  }

  lemma {:induction false} FromEntryComplete(mem: Mem, root: nat, t: nat, level: nat, v: nat, e: nat, x: nat, l: nat)
    requires 1 <= level <= 3 && v < e && InTable(mem, root, t, level, v, e)
    requires v <= x < v + Size(level) && l < level && At(mem, root, x, l).Some?
    ensures NodeAt(mem, root, x, l) in FromEntry(mem, mem(t, Index(v, level)), level, v)
    decreases level, 0
  {
    InTableSteps(mem, root, t, level, v, e);
    FirstEntryOf(mem, root, t, level, v, e, x);
    WalkAbove(mem, root, x, l, level - 1);
    if l < level - 1 {
      EntriesComplete(mem, root, mem(t, Index(v, level)).frame, level - 1, v, v + Size(level), x, l);
    }
  }

  // ---------------------------------------------------------------- the low half

  /** Low pages come first, then the others. */
  lemma {:induction false} EntriesSplit(mem: Mem, t: nat, level: nat, v: nat, m: nat, e: nat)
    requires 1 <= level <= 3 && v <= m <= e && Aligned(v, level) && Aligned(m, level)
    ensures Entries(mem, t, level, v, e) == Entries(mem, t, level, v, m) + Entries(mem, t, level, m, e)
    decreases m - v
  {
    if v < m {
      AlignedLess(v, m, Size(level));
      NextEntry(v, level);
      EntriesSplit(mem, t, level, v + Size(level), m, e);
    }
  }

  lemma RootInTable(mem: Mem, root: nat, v: nat, e: nat)
    requires v in {0, VA_LOWEND} && e in {VA_LOWEND, VA_NONCANONEND} && v < e
    ensures InTable(mem, root, root, 3, v, e)
  {
  }

  lemma ListsProper(mem: Mem, root: nat)
    ensures Proper(mem, root, AllNodes(mem, root), 3, 0, VA_NONCANONEND)
    ensures Proper(mem, root, LowNodes(mem, root), 3, 0, VA_LOWEND)
    ensures Proper(mem, root, HighNodes(mem, root), 3, VA_LOWEND, VA_NONCANONEND)
    ensures AllNodes(mem, root) == LowNodes(mem, root) + HighNodes(mem, root)
  {
    RootInTable(mem, root, 0, VA_NONCANONEND);
    RootInTable(mem, root, 0, VA_LOWEND);
    RootInTable(mem, root, VA_LOWEND, VA_NONCANONEND);
    EntriesProper(mem, root, root, 3, 0, VA_NONCANONEND);
    EntriesProper(mem, root, root, 3, 0, VA_LOWEND);
    EntriesProper(mem, root, root, 3, VA_LOWEND, VA_NONCANONEND);
    EntriesSplit(mem, root, 3, 0, VA_LOWEND, VA_NONCANONEND);
  }

  /** The low list holds the page-table pages reachable from the low half, and no others. */
  lemma LowNodesExact(mem: Mem, root: nat, x: nat, l: nat, n: Node)
    requires x < VA_LOWEND && l < 3
    ensures At(mem, root, x, l).Some? ==> NodeAt(mem, root, x, l) in LowNodes(mem, root)
    ensures n in LowNodes(mem, root) ==> IsNode(mem, root, n) && n.va < VA_LOWEND
  {
    ListsProper(mem, root);
    if At(mem, root, x, l).Some? {
      RootInTable(mem, root, 0, VA_LOWEND);
      EntriesComplete(mem, root, root, 3, 0, VA_LOWEND, x, l);
    }
  }

  /** A page-table page of the low half is met in one place only, and is not the root. */
  lemma TableTellsNode(mem: Mem, root: nat, a: Node, b: Node)
    requires Unshared(mem, root, a.va) && IsNode(mem, root, a) && IsNode(mem, root, b)
    requires a.va < VA_NONCANONEND && b.va < VA_NONCANONEND
    ensures a.table == b.table ==> a == b
    ensures a.table != root
  {
    if a.table == b.table {
      assert SameTable(mem, root, a.va, a.level, b.va, b.level);
      SamePlace(a, b);
    }
    if a.table == root {
      assert SameTable(mem, root, a.va, a.level, a.va, 3);
    }
  }

  lemma LowPrefix(v: nat, level: nat)
    requires v < VA_NONCANONEND && level <= 4
    ensures Prefix(v, level) == v / Size(level)
  {
  }

  lemma SamePlace(a: Node, b: Node)
    requires a.level == b.level < 3 && Aligned(a.va, a.level + 1) && Aligned(b.va, a.level + 1)
    requires a.va < VA_NONCANONEND && b.va < VA_NONCANONEND && Prefix(a.va, a.level + 1) == Prefix(b.va, a.level + 1)
    ensures a.va == b.va
  {
    var s := Size(a.level + 1);
    LowPrefix(a.va, a.level + 1);
    LowPrefix(b.va, a.level + 1);
    MultipleIs(a.va, s);
    MultipleIs(b.va, s);
  }

  lemma NodeEndIs(mem: Mem, root: nat, x: nat, l: nat)
    requires l < 3 && At(mem, root, x, l).Some?
    ensures NodeEnd(NodeAt(mem, root, x, l)) == UpTo(x, l + 1)
  {
  }

  lemma ParentAfter(mem: Mem, root: nat, x: nat, l: nat)
    requires l < 2 && At(mem, root, x, l).Some?
    ensures Before(NodeAt(mem, root, x, l), NodeAt(mem, root, x, l + 1))
  {
    NodeEndIs(mem, root, x, l);
    NodeEndIs(mem, root, x, l + 1);
    UpToNested(x, l + 1);
  }

  lemma OrderOf(mem: Mem, root: nat, ns: seq<Node>, level: nat, v: nat, e: nat, i: nat, j: nat)
    requires Proper(mem, root, ns, level, v, e) && i < |ns| && j < |ns| && ns[i].level < 3 && ns[j].level < 3
    requires Before(ns[i], ns[j])
    ensures i < j
  {
  }

  /** Children come before their parents. */
  lemma ChildrenFirst(mem: Mem, root: nat, x: nat, l: nat, i: nat, j: nat)
    requires x < VA_LOWEND && l < 2 && At(mem, root, x, l).Some?
    requires i < |LowNodes(mem, root)| && LowNodes(mem, root)[i] == NodeAt(mem, root, x, l)
    requires j < |LowNodes(mem, root)| && LowNodes(mem, root)[j] == NodeAt(mem, root, x, l + 1)
    ensures i < j
  {
    ListsProper(mem, root);
    ParentAfter(mem, root, x, l);
    OrderOf(mem, root, LowNodes(mem, root), 3, 0, VA_LOWEND, i, j);
  }

  // ---------------------------------------------------------------- what remains to be visited

  /** Once the table of level `l - 1` on the walk of `va` is done: that table, and what follows it. */
  function Up(mem: Mem, root: nat, va: nat, l: nat): seq<Node>
    requires 1 <= l <= 4 && At(mem, root, va, l - 1).Some?
    decreases 4 - l
  {
    if l == 4 then []
    else [NodeAt(mem, root, va, l - 1)]
         + (Entries(mem, At(mem, root, va, l).value.table, l, UpTo(va, l), UpTo(va, l + 1)) + Up(mem, root, va, l + 1))
  }

  /** What remains from the entry of `va` at `level` on, or from the one after it. */
  function Rest(mem: Mem, root: nat, va: nat, level: nat, skip: bool): seq<Node>
    requires 1 <= level <= 3 && At(mem, root, va, level).Some?
  {
    Entries(mem, At(mem, root, va, level).value.table, level, if skip then UpTo(va, level) else va, UpTo(va, level + 1))
    + Up(mem, root, va, level + 1)
  }

  lemma UpYields(mem: Mem, root: nat, va: nat, l: nat)
    requires 1 <= l <= 3 && At(mem, root, va, l - 1).Some?
    ensures Up(mem, root, va, l) == [NodeAt(mem, root, va, l - 1)] + Rest(mem, root, va, l, true)
  {
  }

  lemma {:induction false} UpShared(mem: Mem, root: nat, va: nat, va': nat, l: nat)
    requires 1 <= l <= 4 && va / Size(l) == va' / Size(l) && At(mem, root, va, l - 1).Some?
    ensures At(mem, root, va', l - 1) == At(mem, root, va, l - 1) && Up(mem, root, va, l) == Up(mem, root, va', l)
    decreases 4 - l
  {
    SameTableRegion(mem, root, va, va', l - 1);
    if l < 4 {
      AlignedUp(va, l);
      AlignedUp(va', l);
      SameTableRegion(mem, root, va, va', l);
      UpShared(mem, root, va, va', l + 1);
    }
  }

  lemma RestUnfolds(mem: Mem, root: nat, va: nat, level: nat)
    requires 1 <= level <= 3 && Aligned(va, level) && At(mem, root, va, level).Some?
    ensures var w := mem(At(mem, root, va, level).value.table, Index(va, level));
            Rest(mem, root, va, level, false) == FromEntry(mem, w, level, va) + Rest(mem, root, va, level, true)
  {
    NextEntry(va, level);
  }

  /** Going down one level. */
  lemma RestDescends(mem: Mem, root: nat, va: nat, level: nat)
    requires 2 <= level <= 3 && Aligned(va, level) && At(mem, root, va, level - 1).Some?
    ensures Aligned(va, level - 1) && Rest(mem, root, va, level, false) == Rest(mem, root, va, level - 1, false)
  {
    RestUnfolds(mem, root, va, level);
    UpYields(mem, root, va, level);
    AlignedUp(va, level - 1);
    NextEntry(va, level);
    MultipleIs(va, Size(level));
    var child := At(mem, root, va, level - 1).value.table;
    var n, below := NodeAt(mem, root, va, level - 1), Entries(mem, child, level - 1, va, va + Size(level));
    assert FromEntry(mem, mem(At(mem, root, va, level).value.table, Index(va, level)), level, va) == below + [n];
    Regroup(below, [n], Rest(mem, root, va, level, true));
  }

  /** At the last level that holds tables, the entry's table is next. */
  lemma RestYields(mem: Mem, root: nat, va: nat)
    requires Aligned(va, 1) && At(mem, root, va, 0).Some?
    ensures Rest(mem, root, va, 1, false) == [NodeAt(mem, root, va, 0)] + Rest(mem, root, va, 1, true)
  {
    RestUnfolds(mem, root, va, 1);
    MultipleIs(va, Size(1));
  }

  /** Moving on within a table. */
  lemma RestAdvances(mem: Mem, root: nat, va: nat, level: nat)
    requires 1 <= level <= 3 && At(mem, root, va, level).Some? && UpTo(va, level) < UpTo(va, level + 1)
    ensures At(mem, root, UpTo(va, level), level) == At(mem, root, va, level)
    ensures Rest(mem, root, va, level, true) == Rest(mem, root, UpTo(va, level), level, false)
  {
    NextEntry(va, level);
    SameTableRegion(mem, root, va, UpTo(va, level), level);
    UpShared(mem, root, va, UpTo(va, level), level + 1);
  }
}
