/**
 * x86-64 page tables (x86-64.h): memory words, address arithmetic and the four-level walk of
 * section 4.5 of volume 3A of the Intel 64 and IA-32 Architectures Software Developer's Manual.
 */
module PageTable {
  import opened Collections
  import opened Arithmetic

  /**
   * A 64-bit word: `flags` the set bits among the low 12, `frame` the bits under `PTE_PAMASK`
   * divided by the page size, `high` the rest.
   */
  datatype Word = Word(frame: nat, flags: set<nat>, high: nat)

  const PTE_P: nat := 0
  const PTE_W: nat := 1
  const PTE_U: nat := 2
  const PTE_PS: nat := 7

  const ZERO: Word := Word(0, {}, 0)
  const PWU: set<nat> := {PTE_P, PTE_W, PTE_U}
  const ALL_FLAGS: set<nat> := set b: nat | b < 12

  /** Physical memory, a frame number and a word index below 512 at a time. */
  type Mem = (nat, nat) -> Word

  /** The number of bytes that an entry at `level` stands for. */
  function Size(level: nat): (r: nat)
    requires level <= 4
    ensures r > 0
  {
    match level
    case 0 => 0x1000
    case 1 => 0x20_0000
    case 2 => 0x4000_0000
    case 3 => 0x80_0000_0000
    case 4 => 0x1_0000_0000_0000
  }

  const VA_LOWEND: nat := 0x8000_0000_0000
  const VA_NONCANONEND: nat := 0x1_0000_0000_0000
  const VA_END: nat := 0x1_0000_0000_0000_0000

  /** `pageindex`. */
  function Index(va: nat, level: nat): (i: nat)
    requires level <= 3
    ensures i < 512
  {
    va / Size(level) % 512
  }

  /** The part of an address that selects the entry at `level` and those above it. */
  function Prefix(va: nat, level: nat): nat
    requires level <= 4
  {
    va % VA_NONCANONEND / Size(level)
  }

  /** `(va | pageoffmask(level)) + 1`, in 64 bits: the start of the next region. */
  function RegionEnd(va: nat, level: nat): nat
    requires level <= 4
  {
    (va / Size(level) + 1) * Size(level) % VA_END
  }

  /** How many regions of `level` make up the 48-bit address space. */
  function Regions(level: nat): nat
    requires level <= 4
  {
    match level
    case 0 => 0x10_0000_0000
    case 1 => 0x800_0000
    case 2 => 0x4_0000
    case 3 => 0x200
    case 4 => 1
  }

  lemma PrefixIs(va: nat, level: nat)
    requires level <= 4
    ensures Prefix(va, level) == va / Size(level) % Regions(level)
  {
    Digits(va, Size(level), Regions(level));
    assert Size(level) * Regions(level) == VA_NONCANONEND;
  }

  /** Addresses decompose into table indexes. */
  lemma PrefixStep(va: nat, level: nat)
    requires level <= 3
    ensures Index(va, level) == Prefix(va, level) % 512 && Prefix(va, level + 1) == Prefix(va, level) / 512
  {
    MiddleDigit(va, Size(level), 512, Regions(level + 1));
    assert Size(level) * 512 == Size(level + 1) && Size(level) * (512 * Regions(level + 1)) == VA_NONCANONEND;
  }

  lemma SameRegionSamePrefix(va: nat, va': nat, level: nat)
    requires level <= 4 && va / Size(level) == va' / Size(level)
    ensures Prefix(va, level) == Prefix(va', level)
  {
    PrefixIs(va, level);
    PrefixIs(va', level);
  }

  // ---------------------------------------------------------------- the walk

  /** The entry leads to a table of the next lower level. */
  predicate IsTable(e: Word) {
    PTE_P in e.flags && PTE_PS !in e.flags
  }

  /** Where a walk stands: a table, its level, and the flags common to the entries passed. */
  datatype Pos = Pos(table: nat, level: nat, perm: set<nat>)

  function Descend(mem: Mem, va: nat, pos: Pos): (r: Pos)
    requires pos.level <= 3
    ensures r.level <= pos.level
    decreases pos.level
  {
    var e := mem(pos.table, Index(va, pos.level));
    if pos.level > 0 && IsTable(e) then Descend(mem, va, Pos(e.frame, pos.level - 1, pos.perm * e.flags)) else pos
  }

  /** The walk of address `va` from the root. */
  function Walk(mem: Mem, root: nat, va: nat): Pos {
    Descend(mem, va, Pos(root, 3, ALL_FLAGS))
  }

  function EntryOf(mem: Mem, va: nat, pos: Pos): Word
    requires pos.level <= 3
  {
    mem(pos.table, Index(va, pos.level))
  }

  /** Where the walk of `va` stands when it comes to `level`, if it does. */
  function At(mem: Mem, root: nat, va: nat, level: nat): (r: Option<Pos>)
    requires level <= 3
    ensures r.Some? ==> r.value.level == level
    decreases 3 - level
  {
    if level == 3 then Some(Pos(root, 3, ALL_FLAGS))
    else
      match At(mem, root, va, level + 1)
      case None => None
      case Some(p) =>
        var e := mem(p.table, Index(va, level + 1));
        if IsTable(e) then Some(Pos(e.frame, level, p.perm * e.flags)) else None
  }

  /** Two addresses that agree above `level` share their walk down to `level`. */
  lemma {:induction false} SharedWalk(mem: Mem, root: nat, va: nat, va': nat, level: nat)
    requires level <= 3 && Prefix(va, level + 1) == Prefix(va', level + 1)
    ensures At(mem, root, va, level) == At(mem, root, va', level)
    decreases 3 - level
  {
    if level < 3 {
      PrefixStep(va, level + 1);
      PrefixStep(va', level + 1);
      SharedWalk(mem, root, va, va', level + 1);
    }
  }

  /** The walk may be resumed wherever it passes. */
  lemma {:induction false} WalkResumes(mem: Mem, root: nat, va: nat, level: nat)
    requires level <= 3 && At(mem, root, va, level).Some?
    ensures Walk(mem, root, va) == Descend(mem, va, At(mem, root, va, level).value)
    decreases 3 - level
  {
    if level < 3 {
      WalkResumes(mem, root, va, level + 1);
    }
  }

  lemma {:induction false} DescentPasses(mem: Mem, root: nat, va: nat, pos: Pos)
    requires pos.level <= 3 && At(mem, root, va, pos.level) == Some(pos)
    ensures var end := Descend(mem, va, pos);
            && At(mem, root, va, end.level) == Some(end) && (end.level > 0 ==> !IsTable(EntryOf(mem, va, end)))
    decreases pos.level
  {
    var e := mem(pos.table, Index(va, pos.level));
    if pos.level > 0 && IsTable(e) {
      DescentPasses(mem, root, va, Pos(e.frame, pos.level - 1, pos.perm * e.flags));
    }
  }

  /** Where a walk ends it passed, and it passed nothing below. */
  lemma WalkEnds(mem: Mem, root: nat, va: nat)
    ensures var end := Walk(mem, root, va);
            && At(mem, root, va, end.level) == Some(end) && (end.level > 0 ==> !IsTable(EntryOf(mem, va, end)))
  {
    DescentPasses(mem, root, va, Pos(root, 3, ALL_FLAGS));
  }

  // ---------------------------------------------------------------- translation

  /** What an address translates to. */
  datatype Translation = Absent | Present(pa: nat, perm: set<nat>)

  /** `vmiter::pa` and `vmiter::perm` at a position. */
  function Reading(mem: Mem, va: nat, pos: Pos): Translation
    requires pos.level <= 3
  {
    var e := EntryOf(mem, va, pos);
    if PTE_P !in e.flags then Absent
    else
      var frame := if pos.level > 0 then e.frame - e.frame % 2 else e.frame;
      Present(frame * Size(0) + va % Size(pos.level), e.flags * pos.perm)
  }

  function Translate(mem: Mem, root: nat, va: nat): Translation {
    Reading(mem, va, Walk(mem, root, va))
  }

  /** `(*pep_ & perm_ & p) == p`. */
  predicate Permitted(mem: Mem, root: nat, va: nat, p: set<nat>) {
    var pos := Walk(mem, root, va);
    p <= EntryOf(mem, va, pos).flags * pos.perm
  }

  /** Addresses of one region share walk and entry. */
  lemma SameRegion(mem: Mem, root: nat, va: nat, va': nat)
    requires var l := Walk(mem, root, va).level; Prefix(va, l) == Prefix(va', l)
    ensures Walk(mem, root, va') == Walk(mem, root, va)
    ensures EntryOf(mem, va', Walk(mem, root, va)) == EntryOf(mem, va, Walk(mem, root, va))
  {
    var pos := Walk(mem, root, va);
    WalkEnds(mem, root, va);
    PrefixStep(va, pos.level);
    PrefixStep(va', pos.level);
    SharedWalk(mem, root, va, va', pos.level);
    WalkResumes(mem, root, va', pos.level);
  }

  lemma PermKeepsPresent(mem: Mem, root: nat, va: nat, level: nat)
    requires level <= 3 && At(mem, root, va, level).Some?
    ensures PTE_P in At(mem, root, va, level).value.perm
    decreases 3 - level
  {
  }
}
