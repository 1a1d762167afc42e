/**
 * `vmiter` (k-vmiter.cc, k-vmiter.hh): an iterator over virtual address mappings.
 */
module VmIter {
  import opened Collections
  import opened PageTable
  import opened VmMotion
  import opened VmUpdate

  class Machine {
    var mem: Mem

    constructor (mem: Mem)
      ensures this.mem == mem
    {
      this.mem := mem;
    }
  }

  /** What the new mapping gives to the addresses of its page. */
  function Mapped(v: nat, pa: Word, perm: set<nat>, pathPerm: set<nat>): Translation {
    if PTE_P in perm then Present(pa.frame * Size(0) + v % Size(0), perm * pathPerm) else Absent
  }

  ghost predicate SameTranslations(mem: Mem, mem': Mem, root: nat) {
    forall v: nat :: Translate(mem', root, v) == Translate(mem, root, v)
  }

  /** `mem'` maps the page of `va` to `pa` with `perm`, and everything else as `mem` does. */
  ghost predicate Updated(mem: Mem, mem': Mem, root: nat, va: nat, pa: Word, perm: set<nat>, pathPerm: set<nat>) {
    forall v: nat :: Translate(mem', root, v) ==
      if Prefix(v, 0) == Prefix(va, 0) then Mapped(v, pa, perm, pathPerm) else Translate(mem, root, v)
  }

  /** Flags gathered on the way, possibly through tables added for the purpose. */
  predicate PathPerm(before: set<nat>, after: set<nat>) {
    after == before || after == before * PWU
  }

  /** One table added on the way to `va`. */
  lemma GrowStep(mem: Mem, root: nat, va: nat, pos: Pos, pages: seq<nat>)
    requires pages != [] && FreshPages(mem, root, pages) && Growable(mem, root, va, pos, pages[0])
    ensures var mem' := Grown(mem, va, pos, pages[0]);
            && SameTranslations(mem, mem', root) && KeepsTree(mem, mem', root) && FreshPages(mem', root, pages[1..])
            && Walk(mem', root, va) == Pos(pages[0], pos.level - 1, pos.perm * PWU)
            && EntryOf(mem', va, Walk(mem', root, va)) == ZERO
  {
    var n, mem' := pages[0], Grown(mem, va, pos, pages[0]);
    forall v: nat ensures Translate(mem', root, v) == Translate(mem, root, v) {
      GrowTranslates(mem, root, va, pos, n, v);
    }
    GrowTranslates(mem, root, va, pos, n, va);
    forall v: nat | Unshared(mem, root, v) ensures Unshared(mem', root, v) {
      GrowKeepsTree(mem, root, va, pos, n, v);
    }
    forall i | 0 <= i < |pages[1..]| ensures Unreached(mem', root, pages[1..][i]) {
      GrowUnreached(mem, root, va, pos, n, pages[i + 1]);
    }
  }

  lemma LeafStep(mem0: Mem, mem: Mem, root: nat, va: nat, pos: Pos, pa: Word, perm: set<nat>)
    requires SameTranslations(mem0, mem, root) && AtLeaf(mem, root, va, pos)
    requires if PTE_P in perm then pa.flags == {} && pa.high == 0 else PTE_P !in pa.flags
    ensures var mem' := LeafSet(mem, va, pos, Word(pa.frame, pa.flags + perm, pa.high));
            && Updated(mem0, mem', root, va, pa, perm, pos.perm) && KeepsTree(mem, mem', root)
            && Walk(mem', root, va) == pos
  {
    var w := Word(pa.frame, pa.flags + perm, pa.high);
    var mem' := LeafSet(mem, va, pos, w);
    assert PTE_P in perm ==> w.flags == perm;
    forall v: nat ensures Translate(mem', root, v) ==
        if Prefix(v, 0) == Prefix(va, 0) then Mapped(v, pa, perm, pos.perm) else Translate(mem0, root, v) {
      LeafTranslates(mem, root, va, pos, w, v);
    }
    LeafTranslates(mem, root, va, pos, w, va);
    forall v: nat | Unshared(mem, root, v) ensures Unshared(mem', root, v) {
      LeafKeepsTree(mem, root, va, pos, w, v);
    }
  }

  class VmIter {
    const machine: Machine
    const pt: nat
    /** `pep_`: the entry `index` of `table`. */
    var table: nat
    var index: nat
    var level: nat
    var perm: set<nat>
    var va: nat

    ghost function Here(): Pos
      reads this
    {
      Pos(table, level, perm)
    }

    /** The iterator stands on the walk of its address. */
    ghost predicate Passing()
      reads this, machine
    {
      level <= 3 && va < VA_END && index == Index(va, level) && At(machine.mem, pt, va, level) == Some(Here())
    }

    /** The iterator stands where a new one at its address would. */
    ghost predicate Valid()
      reads this, machine
    {
      level <= 3 && va < VA_END && index == Index(va, level) && Here() == Walk(machine.mem, pt, va)
    }

    constructor (machine: Machine, pt: nat, va: nat)
      requires va < VA_END
      ensures this.machine == machine && this.pt == pt && this.va == va && Valid()
    {
      this.machine, this.pt := machine, pt;
      this.table, this.index, this.level, this.perm, this.va := pt, 0, 3, ALL_FLAGS, 0;
      new;
      RealFind(va);
    }

    method Down()
      requires level <= 3 && index == Index(va, level)
      modifies this`table, this`index, this`level, this`perm
      ensures level <= 3 && index == Index(va, level) && Here() == Descend(machine.mem, va, old(Here()))
    {
      while level > 0 && IsTable(machine.mem(table, index))
        invariant level <= 3 && index == Index(va, level)
        invariant Descend(machine.mem, va, Here()) == Descend(machine.mem, va, old(Here()))
        decreases level
      {
        var e := machine.mem(table, index);
        perm := perm * e.flags;
        level := level - 1;
        table, index := e.frame, Index(va, level);
      }
    }

    method RealFind(va': nat)
      requires Passing() && va' < VA_END
      modifies this
      ensures Valid() && va == va'
    {
      if va / Size(level + 1) != va' / Size(level + 1) {
        level := 3;
        table, index := pt, Index(va', level);
        perm := ALL_FLAGS;
      } else {
        SameRegionSamePrefix(va, va', level + 1);
        SharedWalk(machine.mem, pt, va, va', level);
        WalkResumes(machine.mem, pt, va', level);
        index := index + (Index(va', level) - index);
      }
      va := va';
      Down();
    }

    lemma ValidIsPassing()
      requires Valid()
      ensures Passing()
    {
      WalkEnds(machine.mem, pt, va);
    }

    /** `pa` and `perm`. */
    function Read(): (r: Translation)
      requires Valid()
      reads this, machine
      ensures r == Translate(machine.mem, pt, va)
    {
      var e := machine.mem(table, index);
      if PTE_P !in e.flags then Absent
      else Present((if level > 0 then e.frame - e.frame % 2 else e.frame) * Size(0) + va % Size(level), e.flags * perm)
    }

    function Perm(): set<nat>
      requires Valid()
      reads this, machine
    {
      var e := machine.mem(table, index);
      if PTE_P in e.flags then e.flags * perm else {}
    }

    /** A present page never has an empty set of permissions. */
    lemma PermNonempty()
      requires Valid()
      ensures Perm() == {} <==> Translate(machine.mem, pt, va) == Absent
    {
      ValidIsPassing();
      PermKeepsPresent(machine.mem, pt, va, level);
      assert PTE_P in machine.mem(table, index).flags ==> PTE_P in Perm();
    }

    predicate HasPerm(p: set<nat>)
      requires Valid()
      reads this, machine
      ensures HasPerm(p) == Permitted(machine.mem, pt, va, p)
    {
      p <= machine.mem(table, index).flags * perm
    }

    method Find(va': nat)
      requires Valid() && va' < VA_END
      modifies this
      ensures Valid() && va == va'
    {
      ValidIsPassing();
      RealFind(va');
    }

    /** Move on to the next page, or past a region that holds none. */
    method Next()
      requires Valid()
      modifies this
      ensures Valid() && va == RegionEnd(old(va), NextLevel(machine.mem, pt, old(va)))
    {
      ValidIsPassing();
      PermNonempty();
      var l := 0;
      if level > 0 && Perm() == {} {
        l := level;
      }
      RealFind(RegionEnd(va, l));
    }

    method Step()
      requires Valid()
      modifies this
      ensures Valid() && va == RegionEnd(old(va), Walk(machine.mem, pt, old(va)).level)
    {
      ValidIsPassing();
      RealFind(RegionEnd(va, level));
    }

    /**
     * `check_range`, cut off after `turns` turns of its loop. Clear of the top of the address space
     * `sz` turns are always enough; at the top, if all lower addresses have the permissions too,
     * no number of turns is.
     */
    method CheckRange(sz: nat, perms: set<nat>, turns: nat) returns (r: Option<bool>)
      requires Valid()
      modifies this
      ensures Valid() && r == CheckLoop(machine.mem, pt, old(va), (old(va) + sz) % VA_END, perms, turns)
      ensures ClearOfTop(machine.mem, pt, old(va), sz) && turns >= sz ==>
                r == Some(AllPermitted(machine.mem, pt, old(va), old(va) + sz, perms))
      ensures GoesRound(machine.mem, pt, old(va), sz, perms) ==> r == None
    {
      CheckEnds(machine.mem, pt, va, sz, perms, turns);
      r := CheckUpTo((va + sz) % VA_END, perms, turns);
    }

    /** The loop of `check_range`, with the end of the range computed. */
    method CheckUpTo(end: nat, perms: set<nat>, turns: nat) returns (r: Option<bool>)
      requires Valid()
      modifies this
      ensures Valid() && r == CheckLoop(machine.mem, pt, old(va), end, perms, turns)
    {
      var n := turns;
      while va < end
        invariant Valid()
        invariant CheckLoop(machine.mem, pt, va, end, perms, n)
               == CheckLoop(machine.mem, pt, old(va), end, perms, turns)
        decreases n
      {
        if !HasPerm(perms) {
          return Some(false);
        }
        if n == 0 {
          return None;
        }
        Step();
        n := n - 1;
      }
      return Some(true);
    }

    /** Link a new, empty table at the current entry and go down to it. */
    method AddTable(ghost pages: seq<nat>, page: nat)
      requires Valid() && pages != [] && page == pages[0] && FreshPages(machine.mem, pt, pages)
      requires Growable(machine.mem, pt, va, Here(), page)
      modifies this`table, this`index, this`level, this`perm, machine
      ensures Valid() && level == old(level) - 1 && perm == old(perm) * PWU
      ensures SameTranslations(old(machine.mem), machine.mem, pt) && KeepsTree(old(machine.mem), machine.mem, pt)
      ensures FreshPages(machine.mem, pt, pages[1..]) && machine.mem(table, index) == ZERO
    {
      GrowStep(machine.mem, pt, va, Here(), pages);
      machine.mem := ZeroFrame(machine.mem, page);
      machine.mem := SetWord(machine.mem, table, index, Word(page, PWU, 0));
      WalkEnds(old(machine.mem), pt, va);
      GrowWalks(old(machine.mem), pt, va, Here(), page, va, level);
      WalkResumes(machine.mem, pt, va, level);
      Down();
    }

    /** Write the last-level entry. */
    method SetEntry(ghost mem0: Mem, pa: Word, perm': set<nat>, ghost pages: seq<nat>)
      requires Valid() && level == 0 && Unshared(machine.mem, pt, va) && SameTranslations(mem0, machine.mem, pt)
      requires FreshPages(machine.mem, pt, pages)
      requires if PTE_P in perm' then pa.flags == {} && pa.high == 0 else PTE_P !in pa.flags
      modifies machine
      ensures Valid() && KeepsTree(old(machine.mem), machine.mem, pt) && FreshPages(machine.mem, pt, pages)
      ensures Updated(mem0, machine.mem, pt, va, pa, perm', perm)
    {
      LeafStep(mem0, machine.mem, pt, va, Here(), pa, perm');
      LeafKeepsFresh(machine.mem, pt, va, Here(), Word(pa.frame, pa.flags + perm', pa.high), pages);
      machine.mem := SetWord(machine.mem, table, index, Word(pa.frame, pa.flags + perm', pa.high));
    }

    /**
     * Map the current page. `pages` are the pages the allocator will hand out, none when it is
     * exhausted. Only a mapping with no permissions above the last level is without effect. The
     * tables of the current address must not be shared, as those of the low half are not.
     */
    method Map(pa: Word, perm': set<nat>, pages: seq<nat>) returns (r: int, rest: seq<nat>)
      requires Valid() && va % Size(0) == 0
      requires if PTE_P in perm' then pa.flags == {} && pa.high == 0 else PTE_P !in pa.flags
      requires perm' * PWU <= perm
      requires level > 0 && perm' != {} ==> PTE_P !in machine.mem(table, index).flags
      requires Unshared(machine.mem, pt, va) && FreshPages(machine.mem, pt, pages)
      modifies this`table, this`index, this`level, this`perm, machine
      ensures Valid() && KeepsTree(old(machine.mem), machine.mem, pt) && FreshPages(machine.mem, pt, rest)
      ensures r == 0 || r == -1
      ensures old(level) > 0 && perm' == {} ==> r == 0 && machine.mem == old(machine.mem)
      ensures r == -1 <==> perm' != {} && |pages| < old(level)
      ensures r == -1 ==> SameTranslations(old(machine.mem), machine.mem, pt)
      ensures r == 0 && (old(level) == 0 || perm' != {}) ==>
                PathPerm(old(perm), perm) && Updated(old(machine.mem), machine.mem, pt, va, pa, perm', perm)
    {
      rest := pages;
      ghost var mem0 := machine.mem;
      while level > 0 && perm' != {}
        invariant Valid() && KeepsTree(mem0, machine.mem, pt) && FreshPages(machine.mem, pt, rest)
        invariant SameTranslations(mem0, machine.mem, pt) && PathPerm(old(perm), perm)
        invariant level > 0 && perm' != {} ==> PTE_P !in machine.mem(table, index).flags
        invariant level <= old(level) && |pages| - |rest| == old(level) - level
        invariant perm' == {} ==> machine.mem == mem0 && level == old(level)
        decreases level
      {
        if rest == [] {
          return -1, rest;
        }
        AddTable(rest, rest[0]);
        rest := rest[1..];
      }
      if level == 0 {
        SetEntry(mem0, pa, perm', rest);
      }
      return 0, rest;
    }
  }

  /** The requested present, writable and user bits are the ones that take effect. */
  lemma RequestedBits(perm: set<nat>, before: set<nat>, after: set<nat>)
    requires perm * PWU <= before && PathPerm(before, after)
    ensures perm * after * PWU == perm * PWU
  {
  }
}
