/**
 * Writing to page tables (k-vmiter.cc): what happens to translations, and the tree that keeps
 * updates apart.
 */
module VmUpdate {
  import opened Collections
  import opened PageTable

  predicate SameTable(mem: Mem, root: nat, v: nat, l: nat, v': nat, l': nat)
    requires l <= 3 && l' <= 3
  {
    var a, b := At(mem, root, v, l), At(mem, root, v', l');
    a.Some? && b.Some? && a.value.table == b.value.table
  }

  /**
   * No sharing: a table on the walk of `v` is on no other walk at another level, nor at the same
   * level for a different part of the address space.
   */
  ghost predicate Unshared(mem: Mem, root: nat, v: nat) {
    forall l: nat, v': nat, l': nat :: l <= 3 && l' <= 3 && SameTable(mem, root, v, l, v', l') ==>
      l == l' && Prefix(v, l + 1) == Prefix(v', l + 1)
  }

  /** The tables of the low half form a tree. */
  ghost predicate LowTree(mem: Mem, root: nat) {
    forall v: nat :: v < VA_LOWEND ==> Unshared(mem, root, v)
  }

  /** Whatever part of the tables was a tree still is. */
  ghost predicate KeepsTree(mem: Mem, mem': Mem, root: nat) {
    forall v: nat :: Unshared(mem, root, v) ==> Unshared(mem', root, v)
  }

  /** No walk meets frame `n`. */
  ghost predicate Unreached(mem: Mem, root: nat, n: nat) {
    forall v: nat, l: nat :: l <= 3 && At(mem, root, v, l).Some? ==> At(mem, root, v, l).value.table != n
  }

  ghost predicate FreshPages(mem: Mem, root: nat, pages: seq<nat>) {
    && (forall i :: 0 <= i < |pages| ==> Unreached(mem, root, pages[i]))
    && (forall i, j :: 0 <= i < j < |pages| ==> pages[i] != pages[j])
  }

  function SetWord(mem: Mem, t: nat, i: nat, w: Word): Mem {
    (f: nat, x: nat) => if f == t && x == i then w else mem(f, x)
  }

  function ZeroFrame(mem: Mem, n: nat): Mem {
    (f: nat, x: nat) => if f == n then ZERO else mem(f, x)
  }

  /** Memory after a new, empty table `n` has been linked at entry `i` of table `t`. */
  function Grow(mem: Mem, t: nat, i: nat, n: nat): Mem {
    SetWord(ZeroFrame(mem, n), t, i, Word(n, PWU, 0))
  }

  /** The walk of `va` ends at `pos`, where a table may be added. */
  ghost predicate Growable(mem: Mem, root: nat, va: nat, pos: Pos, n: nat) {
    && Unshared(mem, root, va) && Unreached(mem, root, n)
    && Walk(mem, root, va) == pos && 0 < pos.level <= 3 && PTE_P !in EntryOf(mem, va, pos).flags
  }

  function Grown(mem: Mem, va: nat, pos: Pos, n: nat): Mem
    requires pos.level <= 3
  {
    Grow(mem, pos.table, Index(va, pos.level), n)
  }

  /** A walk that does not lead through the entry of `va` at `level` does not read it. */
  lemma OtherEntry(mem: Mem, root: nat, va: nat, pos: Pos, v: nat, l: nat)
    requires Unshared(mem, root, va) && l <= 3 && pos.level <= 3 && At(mem, root, va, pos.level) == Some(pos)
    requires At(mem, root, v, l).Some? && At(mem, root, v, l).value.table == pos.table
    requires Index(v, l) == Index(va, pos.level)
    ensures l == pos.level && Prefix(v, l) == Prefix(va, l)
  {
    assert SameTable(mem, root, va, pos.level, v, l);
    PrefixStep(va, l);
    PrefixStep(v, l);
  }

  /** What the walk of `v` meets at `l` once a table has been added for `va`. */
  function GrownAt(mem: Mem, root: nat, va: nat, pos: Pos, n: nat, v: nat, l: nat): Option<Pos>
    requires l <= 3 && pos.level <= 3
  {
    if l < pos.level && Prefix(v, pos.level) == Prefix(va, pos.level)
    then if l == pos.level - 1 then Some(Pos(n, l, pos.perm * PWU)) else None
    else At(mem, root, v, l)
  }

  /** The entry read on a walk that does not lead through the new table is as before. */
  lemma GrowReads(mem: Mem, root: nat, va: nat, pos: Pos, n: nat, v: nat, l: nat)
    requires Growable(mem, root, va, pos, n) && l <= 3 && At(mem, root, v, l).Some?
    requires Prefix(v, pos.level) != Prefix(va, pos.level) || l != pos.level
    ensures EntryOf(Grown(mem, va, pos, n), v, At(mem, root, v, l).value) == EntryOf(mem, v, At(mem, root, v, l).value)
  {
    WalkEnds(mem, root, va);
    var q := At(mem, root, v, l).value;
    if q.table == pos.table && Index(v, l) == Index(va, pos.level) {
      OtherEntry(mem, root, va, pos, v, l);
    }
  }

  /** A walk that leads through the new table comes to the entry that points to it. */
  lemma GrowEnters(mem: Mem, root: nat, va: nat, pos: Pos, v: nat)
    requires Walk(mem, root, va) == pos && pos.level <= 3 && Prefix(v, pos.level) == Prefix(va, pos.level)
    ensures At(mem, root, v, pos.level) == Some(pos) && Index(v, pos.level) == Index(va, pos.level)
  {
    WalkEnds(mem, root, va);
    PrefixStep(v, pos.level);
    PrefixStep(va, pos.level);
    SharedWalk(mem, root, va, v, pos.level);
  }

  lemma {:induction false} GrowWalks(mem: Mem, root: nat, va: nat, pos: Pos, n: nat, v: nat, l: nat)
    requires Growable(mem, root, va, pos, n) && l <= 3
    ensures At(Grown(mem, va, pos, n), root, v, l) == GrownAt(mem, root, va, pos, n, v, l)
    decreases 3 - l
  {
    if l < 3 {
      GrowWalks(mem, root, va, pos, n, v, l + 1);
      if Prefix(v, pos.level) == Prefix(va, pos.level) && l + 1 == pos.level {
        GrowEnters(mem, root, va, pos, v);
      } else if At(mem, root, v, l + 1).Some? {
        GrowReads(mem, root, va, pos, n, v, l + 1);
      }
    }
  }

  lemma GrowTranslates(mem: Mem, root: nat, va: nat, pos: Pos, n: nat, v: nat)
    requires Growable(mem, root, va, pos, n)
    ensures Translate(Grown(mem, va, pos, n), root, v) == Translate(mem, root, v)
    ensures Prefix(v, pos.level) == Prefix(va, pos.level) ==>
              Walk(Grown(mem, va, pos, n), root, v) == Pos(n, pos.level - 1, pos.perm * PWU)
              && EntryOf(Grown(mem, va, pos, n), v, Pos(n, pos.level - 1, pos.perm * PWU)) == ZERO
  {
    var mem' := Grown(mem, va, pos, n);
    WalkEnds(mem, root, va);
    if Prefix(v, pos.level) == Prefix(va, pos.level) {
      SameRegion(mem, root, va, v);
      GrowWalks(mem, root, va, pos, n, va, pos.level);
      GrowWalks(mem, root, va, pos, n, v, pos.level - 1);
      WalkResumes(mem', root, v, pos.level - 1);
    } else {
      WalkEnds(mem, root, v);
      var end := Walk(mem, root, v);
      GrowWalks(mem, root, va, pos, n, v, end.level);
      GrowReads(mem, root, va, pos, n, v, end.level);
      WalkResumes(mem', root, v, end.level);
    }
  }

  lemma GrowKeepsTree(mem: Mem, root: nat, va: nat, pos: Pos, n: nat, v: nat)
    requires Growable(mem, root, va, pos, n) && Unshared(mem, root, v)
    ensures Unshared(Grown(mem, va, pos, n), root, v)
  {
    var mem' := Grown(mem, va, pos, n);
    forall l: nat, v': nat, l': nat | l <= 3 && l' <= 3 && SameTable(mem', root, v, l, v', l')
      ensures l == l' && Prefix(v, l + 1) == Prefix(v', l + 1)
    {
      GrowWalks(mem, root, va, pos, n, v, l);
      GrowWalks(mem, root, va, pos, n, v', l');
      assert At(mem, root, v, l).Some? && At(mem, root, v', l').Some? ==>
          (SameTable(mem, root, v, l, v', l') ==> l == l' && Prefix(v, l + 1) == Prefix(v', l + 1));
    }
  }

  lemma GrowUnreached(mem: Mem, root: nat, va: nat, pos: Pos, n: nat, other: nat)
    requires Growable(mem, root, va, pos, n) && Unreached(mem, root, other) && other != n
    ensures Unreached(Grown(mem, va, pos, n), root, other)
  {
    var mem' := Grown(mem, va, pos, n);
    forall v: nat, l: nat | l <= 3 && At(mem', root, v, l).Some? ensures At(mem', root, v, l).value.table != other {
      GrowWalks(mem, root, va, pos, n, v, l);
    }
  }

  // ---------------------------------------------------------------- writing a last-level entry

  /** The walk of `va` ends at the last level. */
  ghost predicate AtLeaf(mem: Mem, root: nat, va: nat, pos: Pos) {
    Unshared(mem, root, va) && Walk(mem, root, va) == pos && pos.level == 0
  }

  function LeafSet(mem: Mem, va: nat, pos: Pos, w: Word): Mem
    requires pos.level <= 3
  {
    SetWord(mem, pos.table, Index(va, pos.level), w)
  }

  lemma {:induction false} LeafWalks(mem: Mem, root: nat, va: nat, pos: Pos, w: Word, v: nat, l: nat)
    requires AtLeaf(mem, root, va, pos) && l <= 3
    ensures At(LeafSet(mem, va, pos, w), root, v, l) == At(mem, root, v, l)
    decreases 3 - l
  {
    WalkEnds(mem, root, va);
    if l < 3 {
      LeafWalks(mem, root, va, pos, w, v, l + 1);
      if At(mem, root, v, l + 1).Some? {
        assert SameTable(mem, root, va, 0, v, l + 1) ==> l + 1 == 0;
      }
    }
  }

  /** The new entry is what the page of `va` translates through, and no other page does. */
  lemma LeafTranslates(mem: Mem, root: nat, va: nat, pos: Pos, w: Word, v: nat)
    requires AtLeaf(mem, root, va, pos)
    ensures Walk(LeafSet(mem, va, pos, w), root, v) == Walk(mem, root, v)
    ensures Translate(LeafSet(mem, va, pos, w), root, v) ==
            if Prefix(v, 0) != Prefix(va, 0) then Translate(mem, root, v)
            else if PTE_P in w.flags then Present(w.frame * Size(0) + v % Size(0), w.flags * pos.perm)
            else Absent
  {
    var mem' := LeafSet(mem, va, pos, w);
    WalkEnds(mem, root, va);
    WalkEnds(mem, root, v);
    var end := Walk(mem, root, v);
    LeafWalks(mem, root, va, pos, w, v, end.level);
    if Prefix(v, 0) == Prefix(va, 0) {
      SameRegion(mem, root, va, v);
      PrefixStep(v, 0);
      PrefixStep(va, 0);
    } else if end.table == pos.table && Index(v, end.level) == Index(va, 0) {
      OtherEntry(mem, root, va, pos, v, end.level);
    }
    WalkResumes(mem', root, v, end.level);
  }

  lemma LeafKeepsTree(mem: Mem, root: nat, va: nat, pos: Pos, w: Word, v: nat)
    requires AtLeaf(mem, root, va, pos) && Unshared(mem, root, v)
    ensures Unshared(LeafSet(mem, va, pos, w), root, v)
  {
    var mem' := LeafSet(mem, va, pos, w);
    forall l: nat, v': nat, l': nat | l <= 3 && l' <= 3 && SameTable(mem', root, v, l, v', l')
      ensures l == l' && Prefix(v, l + 1) == Prefix(v', l + 1)
    {
      LeafWalks(mem, root, va, pos, w, v, l);
      LeafWalks(mem, root, va, pos, w, v', l');
      assert SameTable(mem, root, v, l, v', l');
    }
  }

  lemma LeafKeepsFresh(mem: Mem, root: nat, va: nat, pos: Pos, w: Word, pages: seq<nat>)
    requires AtLeaf(mem, root, va, pos) && FreshPages(mem, root, pages)
    ensures FreshPages(LeafSet(mem, va, pos, w), root, pages)
  {
    var mem' := LeafSet(mem, va, pos, w);
    forall v: nat, l: nat, i | l <= 3 && 0 <= i < |pages| && At(mem', root, v, l).Some?
      ensures At(mem', root, v, l).value.table != pages[i]
    {
      LeafWalks(mem, root, va, pos, w, v, l);
      assert Unreached(mem, root, pages[i]);
    }
  }
}
