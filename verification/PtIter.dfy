/**
 * `ptiter` (k-vmiter.cc, k-vmiter.hh): an iterator over page-table pages, children first.
 */
module PtIter {
  import opened Collections
  import opened PageTable
  import opened VmMotion
  import opened VmUpdate
  import opened PtTree
  import VmIter

  /** On the root and on the tables still to be visited, memory `m` is as it was in `mem`. */
  ghost predicate Agrees(m: Mem, mem: Mem, root: nat, rest: seq<Node>) {
    && (forall i: nat :: m(root, i) == mem(root, i))
    && (forall n, i: nat :: n in rest ==> m(n.table, i) == mem(n.table, i))
  }

  /** `p` stands at the entry of `va` in the table of `level` on its walk. */
  predicate OnPath(mem: Mem, root: nat, va: nat, level: nat, table: nat, index: nat) {
    && 1 <= level <= 3 && va < VA_NONCANONEND && index == Index(va, level)
    && At(mem, root, va, level).Some? && At(mem, root, va, level).value.table == table
  }

  /**
   * What is left when the loop of `down` looks for the next entry (`stop == 1`), or has
   * finished the table below level `stop` and comes down again to the entry leading to it.
   */
  predicate Seeking(mem: Mem, root: nat, va: nat, level: nat, skip: bool, stop: nat, rest: seq<Node>)
    requires 1 <= level <= 3 && At(mem, root, va, level).Some?
  {
    if stop == 1 then Rest(mem, root, va, level, skip) == rest && (!skip ==> Aligned(va, level))
    else !skip && 2 <= stop <= level && At(mem, root, va, stop - 1).Some? && Up(mem, root, va, stop) == rest
  }

  /** The entry just reached leads to the first of `rest`. */
  predicate Yields(mem: Mem, root: nat, va: nat, level: nat, rest: seq<Node>)
    requires 1 <= level <= 3 && At(mem, root, va, level).Some?
  {
    && At(mem, root, va, level - 1).Some?
    && rest == [NodeAt(mem, root, va, level - 1)] + Rest(mem, root, va, level, true)
  }

  /** The table that the loop reads has not been visited yet. */
  lemma ReadsUnvisited(mem: Mem, m: Mem, root: nat, va: nat, level: nat, skip: bool, stop: nat, rest: seq<Node>)
    requires 1 <= level <= 3 && At(mem, root, va, level).Some? && Seeking(mem, root, va, level, skip, stop, rest)
    requires Agrees(m, mem, root, rest)
    ensures EntryOf(m, va, At(mem, root, va, level).value) == EntryOf(mem, va, At(mem, root, va, level).value)
  {
  }

  /** An entry that leads to a table, and is to be stopped at. */
  lemma SeekStops(mem: Mem, root: nat, va: nat, level: nat, rest: seq<Node>)
    requires 1 <= level <= 3 && At(mem, root, va, level).Some? && Seeking(mem, root, va, level, false, level, rest)
    requires IsTable(EntryOf(mem, va, At(mem, root, va, level).value))
    ensures Yields(mem, root, va, level, rest)
  {
    if level == 1 {
      RestYields(mem, root, va);
    } else {
      UpYields(mem, root, va, level);
    }
  }

  /** An entry that leads to a table, and is to be followed. */
  lemma SeekDescends(mem: Mem, root: nat, va: nat, level: nat, stop: nat, rest: seq<Node>)
    requires 1 <= level <= 3 && At(mem, root, va, level).Some? && Seeking(mem, root, va, level, false, stop, rest)
    requires IsTable(EntryOf(mem, va, At(mem, root, va, level).value)) && level != stop
    ensures 2 <= level && At(mem, root, va, level - 1).Some? && Seeking(mem, root, va, level - 1, false, stop, rest)
  {
    if stop == 1 {
      RestDescends(mem, root, va, level);
    }
  }

  /** On the way down again every entry leads to a table. */
  lemma SeekFollows(mem: Mem, root: nat, va: nat, level: nat, skip: bool, stop: nat, rest: seq<Node>)
    requires 1 <= level <= 3 && At(mem, root, va, level).Some? && Seeking(mem, root, va, level, skip, stop, rest)
    requires skip || !IsTable(EntryOf(mem, va, At(mem, root, va, level).value))
    ensures stop == 1 && Rest(mem, root, va, level, true) == rest
  {
    if stop > 1 {
      WalkAbove(mem, root, va, stop - 1, level - 1);
    } else if !skip {
      RestUnfolds(mem, root, va, level);
    }
  }

  /** The table is exhausted: what is left is the table itself and what follows it. */
  lemma SeekExhausted(mem: Mem, root: nat, va: nat, level: nat, rest: seq<Node>)
    requires 1 <= level <= 3 && At(mem, root, va, level).Some? && Rest(mem, root, va, level, true) == rest
    requires UpTo(va, level) == UpTo(va, level + 1)
    ensures level == 3 ==> rest == []
    ensures level < 3 ==> Seeking(mem, root, va, 3, false, level + 1, rest)
  {
  }

  lemma SeekAdvances(mem: Mem, root: nat, va: nat, level: nat, rest: seq<Node>)
    requires 1 <= level <= 3 && At(mem, root, va, level).Some? && Rest(mem, root, va, level, true) == rest
    requires UpTo(va, level) < UpTo(va, level + 1) && va < VA_NONCANONEND
    ensures At(mem, root, UpTo(va, level), level) == At(mem, root, va, level)
    ensures Seeking(mem, root, UpTo(va, level), level, false, 1, rest)
    ensures Index(UpTo(va, level), level) == Index(va, level) + 1 && va < UpTo(va, level) < VA_NONCANONEND
  {
    RestAdvances(mem, root, va, level);
    NextEntry(va, level);
    UpToTop(va, level + 1);
  }

  lemma UpToTop(va: nat, level: nat)
    requires level <= 4 && va < VA_NONCANONEND
    ensures UpTo(va, level) <= VA_NONCANONEND
    decreases 4 - level
  {
  }

  lemma SeekStarts(mem: Mem, root: nat, va: nat, level: nat)
    requires va == 0 && level == 3
    ensures OnPath(mem, root, va, level, root, 0) && Seeking(mem, root, va, level, false, 1, AllNodes(mem, root))
  {
  }

  class PtIter {
    const machine: VmIter.Machine
    const pt: nat
    /** `pep_`: the entry `index` of `table`. */
    var table: nat
    var index: nat
    var level: nat
    var va: nat

    /**
     * The iterator, walking memory that once was `mem`, stands at the first node of `rest`, or
     * is at its end.
     */
    ghost predicate StandsAt(mem: Mem, rest: seq<Node>)
      reads this
    {
      if rest == [] then va == VA_NONCANONEND
      else OnPath(mem, pt, va, level, table, index) && Yields(mem, pt, va, level, rest)
    }

    /** A new iterator at address 0. */
    constructor (machine: VmIter.Machine, pt: nat)
      ensures this.machine == machine && this.pt == pt
      ensures StandsAt(machine.mem, AllNodes(machine.mem, pt))
    {
      this.machine, this.pt := machine, pt;
      this.level, this.table, this.index, this.va := 3, pt, 0, 0;
      new;
      Go(AllNodes(machine.mem, pt));
    }

    /** `go(0)`. */
    method Go(ghost all: seq<Node>)
      requires all == AllNodes(machine.mem, pt)
      modifies this
      ensures StandsAt(machine.mem, all)
    {
      level, table, index, va := 3, pt, 0, 0;
      SeekStarts(machine.mem, pt, va, level);
      Down(false, machine.mem, all);
    }

    ghost predicate Loop(mem: Mem, skip: bool, stop: nat, rest: seq<Node>)
      reads this
    {
      OnPath(mem, pt, va, level, table, index) && Seeking(mem, pt, va, level, skip, stop, rest)
    }

    /** Follow the current entry to the table it leads to. */
    method Descend(frame: nat, ghost mem: Mem, ghost stop: nat, ghost rest: seq<Node>)
      requires Loop(mem, false, stop, rest) && level != stop
      requires IsTable(mem(table, index)) && mem(table, index).frame == frame
      modifies this`level, this`table, this`index
      ensures level == old(level) - 1 && Loop(mem, false, stop, rest)
    {
      SeekDescends(mem, pt, va, level, stop, rest);
      level := level - 1;
      table, index := frame, Index(va, level);
    }

    /** Pass the current entry: on to the next one, or up from an exhausted table. */
    method Pass(ghost mem: Mem, ghost skip: bool, ghost stop: nat, ghost rest: seq<Node>)
      returns (done: bool, stop': nat)
      requires Loop(mem, skip, stop, rest) && (skip || !IsTable(mem(table, index)))
      modifies this
      ensures stop == 1
      ensures done ==> StandsAt(mem, rest)
      ensures !done ==> Whole(Loop(mem, false, stop', rest)) && (stop' == 1 ==> va > old(va))
    {
      SeekFollows(mem, pt, va, level, skip, stop, rest);
      NextEntry(va, level);
      var va' := UpTo(va, level);
      if va' / Size(level + 1) != va / Size(level + 1) {
        SeekExhausted(mem, pt, va, level, rest);
        if level == 3 {
          va := VA_NONCANONEND;
          return true, 1;
        }
        stop' := level + 1;
        level := 3;
        table, index := pt, Index(va, level);
        return false, stop';
      }
      SeekAdvances(mem, pt, va, level, rest);
      index := index + 1;
      va := va';
      return false, 1;
    }

    method Down(skip0: bool, ghost mem: Mem, ghost rest: seq<Node>)
      requires Loop(mem, skip0, 1, rest) && Agrees(machine.mem, mem, pt, rest)
      modifies this
      ensures StandsAt(mem, rest)
    {
      var stop, skip := 1, skip0;
      while true
        invariant Loop(mem, skip, stop, rest)
        decreases if stop == 1 then 1 else 0, VA_NONCANONEND - va, level
      {
        ReadsUnvisited(mem, machine.mem, pt, va, level, skip, stop, rest);
        var e := machine.mem(table, index);
        if IsTable(e) && !skip {
          if level == stop {
            SeekStops(mem, pt, va, level, rest);
            return;
          }
          Descend(e.frame, mem, stop, rest);
        } else {
          var done, stop' := Pass(mem, skip, stop, rest);
          if done {
            return;
          }
          stop, skip := stop', false;
        }
      }
    }

    /** The page-table page that the current entry leads to. */
    function PtpPa(): nat
      reads this, machine
    {
      machine.mem(table, index).frame
    }

    method Next(ghost mem: Mem, ghost rest: seq<Node>)
      requires rest != [] && StandsAt(mem, rest) && Agrees(machine.mem, mem, pt, rest[1..])
      modifies this
      ensures StandsAt(mem, rest[1..])
    {
      assert rest[1..] == Rest(mem, pt, va, level, true);
      Down(true, mem, rest[1..]);
    }
  }

  /** `low` comes first in `all`, and its tables are met nowhere else in `all`. */
  ghost predicate LowFirst(root: nat, all: seq<Node>, low: seq<Node>) {
    && |low| <= |all| && (forall i :: 0 <= i < |all| ==> all[i].level < 3)
    && (forall i :: 0 <= i < |low| ==> all[i] == low[i] && NodeEnd(low[i]) <= VA_LOWEND && low[i].table != root)
    && (forall i :: |low| <= i < |all| ==> all[i].va >= VA_LOWEND)
    && (forall i, j :: 0 <= i < |low| && i < j < |all| ==> all[i].table != all[j].table)
  }

  lemma ProperLowFirst(mem: Mem, root: nat, all: seq<Node>, low: seq<Node>, high: seq<Node>)
    requires LowTree(mem, root) && all == low + high && Proper(mem, root, all, 3, 0, VA_NONCANONEND)
    requires Proper(mem, root, low, 3, 0, VA_LOWEND) && Proper(mem, root, high, 3, VA_LOWEND, VA_NONCANONEND)
    ensures LowFirst(root, all, low)
  {
    forall i | 0 <= i < |low| ensures all[i] == low[i] && low[i].table != root {
      TableTellsNode(mem, root, low[i], low[i]);
    }
    forall i, j | 0 <= i < |low| && i < j < |all| ensures all[i].table != all[j].table {
      assert Before(all[i], all[j]);
      TableTellsNode(mem, root, all[i], all[j]);
    }
    forall i | |low| <= i < |all| ensures all[i].va >= VA_LOWEND {
      assert all[i] == high[i - |low|];
    }
  }

  /** Page-table pages of the low half are visited first, and each once. */
  lemma LowComesFirst(mem: Mem, root: nat)
    requires LowTree(mem, root)
    ensures LowFirst(root, AllNodes(mem, root), LowNodes(mem, root))
  {
    ListsProper(mem, root);
    ProperLowFirst(mem, root, AllNodes(mem, root), LowNodes(mem, root), HighNodes(mem, root));
  }

  lemma StartOf(va: nat, s: nat)
    requires s > 0
    ensures va / s * s <= va
  {
  }

  /** The iterator is in the low half exactly while low nodes remain. */
  lemma LowWhile(mem: Mem, root: nat, va: nat, level: nat, all: seq<Node>, low: seq<Node>, k: nat)
    requires LowFirst(root, all, low) && k <= |all|
    requires if k == |all| then va == VA_NONCANONEND
             else 1 <= level <= 3 && At(mem, root, va, level).Some? && Yields(mem, root, va, level, all[k..])
    ensures va < VA_LOWEND <==> k < |low|
  {
    if k < |all| {
      assert all[k] == all[k..][0] == NodeAt(mem, root, va, level - 1);
      NodeEndIs(mem, root, va, level - 1);
      InRegion(va, va, level);
      StartOf(va, Size(level));
    }
  }

  /** The table of the entry stood at is still to be visited, unless it is the root. */
  lemma StandsOnUnvisited(mem: Mem, m: Mem, root: nat, va: nat, level: nat, rest: seq<Node>)
    requires 1 <= level <= 3 && At(mem, root, va, level).Some? && Yields(mem, root, va, level, rest)
    requires Agrees(m, mem, root, rest)
    ensures EntryOf(m, va, At(mem, root, va, level).value).frame == rest[0].table
  {
  }

  function Scribbled(mem: Mem, t: nat, junk: nat -> Word): Mem {
    (f: nat, i: nat) => if f == t then junk(i) else mem(f, i)
  }

  /** What happens to a low table once visited does not matter to what follows. */
  lemma ScribbleAgrees(mem: Mem, m: Mem, root: nat, all: seq<Node>, low: seq<Node>, k: nat, junk: nat -> Word)
    requires LowFirst(root, all, low) && k < |low| && Agrees(m, mem, root, all[k..])
    ensures Agrees(Scribbled(m, all[k].table, junk), mem, root, all[k..][1..])
  {
  }

  /** `out` lists the frames of the first nodes of `ns`. */
  ghost predicate Lists(out: seq<nat>, ns: seq<Node>) {
    |out| <= |ns| && forall i :: 0 <= i < |out| ==> out[i] == ns[i].table
  }

  /** Visit one page, overwrite it, and move on. */
  method VisitOne(it: PtIter, junk: nat -> Word,
                  ghost mem: Mem, ghost all: seq<Node>, ghost low: seq<Node>, ghost k: nat)
    returns (t: nat)
    requires LowFirst(it.pt, all, low) && k < |low|
    requires it.StandsAt(mem, all[k..]) && Agrees(it.machine.mem, mem, it.pt, all[k..])
    modifies it, it.machine
    ensures t == low[k].table
    ensures it.StandsAt(mem, all[k + 1..]) && Agrees(it.machine.mem, mem, it.pt, all[k + 1..])
    ensures it.va < VA_LOWEND <==> k + 1 < |low|
  {
    StandsOnUnvisited(mem, it.machine.mem, it.pt, it.va, it.level, all[k..]);
    t := it.PtpPa();
    ScribbleAgrees(mem, it.machine.mem, it.pt, all, low, k, junk);
    it.machine.mem := Scribbled(it.machine.mem, t, junk);
    assert all[k..][1..] == all[k + 1..];
    it.Next(mem, all[k..]);
    LowWhile(mem, it.pt, it.va, it.level, all, low, k + 1);
  }

  method VisitLow(it: PtIter, junk: nat -> nat -> Word, ghost mem: Mem, ghost all: seq<Node>, ghost low: seq<Node>)
    returns (out: seq<nat>)
    requires LowFirst(it.pt, all, low) && it.StandsAt(mem, all) && Agrees(it.machine.mem, mem, it.pt, all)
    modifies it, it.machine
    ensures Lists(out, low) && |out| == |low|
  {
    out := [];
    assert all[0..] == all;
    LowWhile(mem, it.pt, it.va, it.level, all, low, 0);
    while it.va < VA_LOWEND
      invariant Lists(out, low) && (it.va < VA_LOWEND <==> |out| < |low|)
      invariant it.StandsAt(mem, all[|out|..]) && Agrees(it.machine.mem, mem, it.pt, all[|out|..])
      decreases |low| - |out|
    {
      var t := VisitOne(it, junk(|out|), mem, all, low, |out|);
      out := out + [t];
    }
  }

  /**
   * The loop that frees a page table: visit pages while in the low half, and let each be
   * overwritten (by `junk`) as soon as it has been visited. Every page-table page reachable from
   * the low half is visited, once, in depth-first order, and the loop ends.
   */
  method FreeLowTables(machine: VmIter.Machine, pt: nat, junk: nat -> nat -> Word) returns (out: seq<nat>)
    requires LowTree(machine.mem, pt)
    modifies machine
    ensures Lists(out, LowNodes(old(machine.mem), pt)) && |out| == |LowNodes(old(machine.mem), pt)|
    ensures forall i, j :: 0 <= i < j < |out| ==> out[i] != out[j]
  {
    LowComesFirst(machine.mem, pt);
    var it := new PtIter(machine, pt);
    out := VisitLow(it, junk, machine.mem, AllNodes(machine.mem, pt), LowNodes(machine.mem, pt));
  }
}
