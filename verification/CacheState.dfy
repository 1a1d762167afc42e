/**
 * The state of the buffer cache (k-chkfs.hh, k-chkfs.cc): slots, lists and disk, the invariant
 * that relates them, and what the single changes made to them keep.
 */
module CacheState {
  import opened Collections

  const NE: nat := 100
  const N_PREFETCH: nat := NE / 5
  const SUPERBLOCK_BN: nat := 0

  /** The contents of a block; `inMemory` stands for the inode fields that only matter in memory. */
  datatype Data = Data(kept: seq<char>, inMemory: nat)

  /** `clean_inode_block`. */
  function Clean(d: Data): Data {
    d.(inMemory := 0)
  }

  /** `pending`: the disk has yet to deliver the block (`fetch_status_ == E_AGAIN`). */
  datatype Entry = Entry(bn: Option<nat>, ref: nat, loaded: bool, loading: bool, dirty: bool,
                         pending: bool, prefetched: bool, buf: Data)

  const EMPTY: Entry := Entry(None, 0, false, false, false, false, false, Data([], 0))

  datatype Cache = Cache(es: seq<Entry>, eList: seq<nat>, prefList: seq<nat>, dirtyList: seq<nat>, disk: nat -> Data)

  // ---------------------------------------------------------------- invariant

  /** What an entry holds, against the disk. */
  predicate EntryOk(e: Entry, disk: nat -> Data) {
    && (e.bn.None? ==> e == EMPTY.(buf := e.buf))
    && !(e.loaded && e.loading) && (e.dirty ==> e.loaded) && (e.loaded ==> !e.pending)
    && (e.ref > 0 ==> e.loaded || e.loading)
    && (e.bn.Some? && e.loaded && !e.dirty ==> Clean(e.buf) == Clean(disk(e.bn.value)))
    && (e.bn.Some? && e.loading ==> e.buf == disk(e.bn.value))
  }

  /** Every slot in use is on one list, once; prefetched blocks on the second list are unreferenced. */
  ghost predicate ListsOk(c: Cache) {
    && Distinct(c.eList) && Distinct(c.prefList)
    && (forall i: nat :: i in c.eList || i in c.prefList ==> i < |c.es|)
    && (forall i: nat :: i < |c.es| ==> (c.es[i].bn.Some? <==> i in c.eList || i in c.prefList))
    && (forall i: nat :: i in c.prefList ==> i !in c.eList)
    && (forall i: nat :: i in c.prefList && i < |c.es| ==> c.es[i].ref == 0 && c.es[i].prefetched)
  }

  /** The dirty list holds the dirty slots. */
  ghost predicate DirtyOk(c: Cache) {
    Distinct(c.dirtyList) && forall i: nat :: i in c.dirtyList <==> i < |c.es| && c.es[i].dirty
  }

  /** No block is in two slots. */
  ghost predicate Unique(c: Cache) {
    forall i, j :: 0 <= i < |c.es| && 0 <= j < |c.es| && c.es[i].bn.Some? && c.es[i].bn == c.es[j].bn ==> i == j
  }

  ghost predicate Valid(c: Cache) {
    && |c.es| == NE && Unique(c) && ListsOk(c) && DirtyOk(c)
    && (forall i :: 0 <= i < |c.es| ==> EntryOk(c.es[i], c.disk))
  }

  // ---------------------------------------------------------------- contents

  predicate LoadedAt(c: Cache, i: nat, bn: nat) {
    i < |c.es| && c.es[i].bn == Some(bn) && c.es[i].loaded
  }

  /** The current contents of block `bn`: the cached copy if there is one. */
  ghost function Latest(c: Cache, bn: nat): Data {
    if exists i: nat :: LoadedAt(c, i, bn) then var i: nat :| LoadedAt(c, i, bn); c.es[i].buf else c.disk(bn)
  }

  lemma LatestIs(c: Cache, i: nat, bn: nat)
    requires Unique(c) && LoadedAt(c, i, bn)
    ensures Latest(c, bn) == c.es[i].buf
  {
  }

  /** Same contents, apart from fields that only matter in memory. */
  ghost predicate SameContents(c: Cache, c': Cache) {
    forall bn: nat :: Clean(Latest(c', bn)) == Clean(Latest(c, bn))
  }

  /** An entry as far as contents are concerned. */
  function Visible(e: Entry): Option<(nat, Data)> {
    if e.bn.Some? && e.loaded then Some((e.bn.value, e.buf)) else None
  }

  lemma SameVisible(c: Cache, c': Cache, bn: nat)
    requires Unique(c) && Unique(c') && |c.es| == |c'.es| && c'.disk(bn) == c.disk(bn)
    requires forall i :: 0 <= i < |c.es| ==> Visible(c'.es[i]) == Visible(c.es[i])
    ensures Latest(c', bn) == Latest(c, bn)
  {
    if i: nat :| LoadedAt(c, i, bn) {
      assert Visible(c.es[i]) == Some((bn, c.es[i].buf));
      assert LoadedAt(c', i, bn);
    } else {
      forall i: nat ensures !LoadedAt(c', i, bn) {
        assert LoadedAt(c', i, bn) ==> Visible(c'.es[i]) == Some((bn, c'.es[i].buf)) && LoadedAt(c, i, bn);
      }
    }
  }

  /** Contents of the other blocks do not depend on a slot that holds `bn`, or nothing. */
  lemma OtherBlocks(c: Cache, c': Cache, k: nat, bn: nat)
    requires Unique(c) && Unique(c') && |c.es| == |c'.es| && k < |c.es| && c'.disk(bn) == c.disk(bn)
    requires forall i :: 0 <= i < |c.es| && i != k ==> Visible(c'.es[i]) == Visible(c.es[i])
    requires c.es[k].bn != Some(bn) && c'.es[k].bn != Some(bn)
    ensures Latest(c', bn) == Latest(c, bn)
  {
    if i: nat :| LoadedAt(c, i, bn) {
      assert Visible(c.es[i]) == Some((bn, c.es[i].buf));
      assert LoadedAt(c', i, bn);
    } else {
      forall i: nat ensures !LoadedAt(c', i, bn) {
        assert LoadedAt(c', i, bn) ==> Visible(c'.es[i]) == Some((bn, c'.es[i].buf)) && LoadedAt(c, i, bn);
      }
    }
  }

  // ---------------------------------------------------------------- single changes

  /** Set entry `i` in a way that concerns neither lists nor block numbers. */
  lemma SetEntry(c: Cache, i: nat, e: Entry)
    requires Valid(c) && i < NE && e.bn == c.es[i].bn && e.dirty == c.es[i].dirty && EntryOk(e, c.disk)
    requires i in c.prefList ==> e.ref == 0 && e.prefetched
    ensures Valid(c.(es := c.es[i := e]))
  {
  }

  /** Move slot `i` to the back of the list of used slots. */
  function Touch(c: Cache, i: nat): Cache {
    c.(eList := Without(c.eList, i) + [i], prefList := Without(c.prefList, i))
  }

  lemma TouchKeeps(c: Cache, i: nat)
    requires Valid(c) && i < NE && c.es[i].bn.Some?
    ensures Valid(Touch(c, i)) && SameContents(c, Touch(c, i)) && i !in Touch(c, i).prefList
  {
    WithoutDistinct(c.eList, i);
    WithoutDistinct(c.prefList, i);
    forall bn: nat ensures Latest(Touch(c, i), bn) == Latest(c, bn) {
      SameVisible(c, Touch(c, i), bn);
    }
  }

  /** Take slot `i` out of use. */
  function Evict(c: Cache, i: nat): Cache
    requires i < |c.es|
  {
    c.(es := c.es[i := EMPTY], eList := Without(c.eList, i), prefList := Without(c.prefList, i))
  }

  /** Evicting a clean, unreferenced slot loses nothing. */
  lemma EvictKeeps(c: Cache, i: nat)
    requires Valid(c) && i < NE && c.es[i].bn.Some? && c.es[i].ref == 0 && !c.es[i].dirty
    ensures Valid(Evict(c, i)) && SameContents(c, Evict(c, i))
  {
    var c' := Evict(c, i);
    WithoutDistinct(c.eList, i);
    WithoutDistinct(c.prefList, i);
    forall bn: nat ensures Clean(Latest(c', bn)) == Clean(Latest(c, bn)) {
      if c.es[i].bn != Some(bn) {
        OtherBlocks(c, c', i, bn);
      } else {
        assert EntryOk(c.es[i], c.disk);
        assert forall j: nat :: !LoadedAt(c', j, bn);
        if LoadedAt(c, i, bn) {
          LatestIs(c, i, bn);
        } else {
          assert forall j: nat :: !LoadedAt(c, j, bn);
        }
      }
    }
  }

  /** Give the empty slot `i` to block `bn`, which no slot holds. */
  function Assign(c: Cache, i: nat, bn: nat): Cache
    requires i < |c.es|
  {
    c.(es := c.es[i := c.es[i].(bn := Some(bn))],
       eList := Without(c.eList, i) + [i], prefList := Without(c.prefList, i))
  }

  lemma AssignKeeps(c: Cache, i: nat, bn: nat)
    requires Valid(c) && i < NE && c.es[i].bn.None? && forall j :: 0 <= j < NE ==> c.es[j].bn != Some(bn)
    ensures Valid(Assign(c, i, bn)) && SameContents(c, Assign(c, i, bn))
  {
    var c' := Assign(c, i, bn);
    WithoutDistinct(c.eList, i);
    WithoutDistinct(c.prefList, i);
    assert EntryOk(c.es[i], c.disk);
    forall b: nat ensures Latest(c', b) == Latest(c, b) {
      SameVisible(c, c', b);
    }
  }

  /** Write slot `i` back to the disk; `c` counts it among the dirty ones first in line. */
  function WriteBack(c: Cache, i: nat, bn: nat): Cache
    requires i < |c.es| && c.dirtyList != []
  {
    var disk, d := c.disk, c.es[i].buf;
    c.(es := c.es[i := c.es[i].(dirty := false)], dirtyList := c.dirtyList[1..],
       disk := (b: nat) => if b == bn then d else disk(b))
  }

  lemma WriteBackKeeps(c: Cache, i: nat, bn: nat)
    requires Valid(c) && c.dirtyList != [] && i == c.dirtyList[0] && i < |c.es| && c.es[i].bn == Some(bn)
    ensures Valid(WriteBack(c, i, bn)) && SameContents(c, WriteBack(c, i, bn))
  {
    var c' := WriteBack(c, i, bn);
    assert EntryOk(c.es[i], c.disk) && i in c.dirtyList;
    forall j | 0 <= j < NE ensures EntryOk(c'.es[j], c'.disk) {
      assert EntryOk(c.es[j], c.disk);
    }
    assert LoadedAt(c, i, bn) && LoadedAt(c', i, bn);
    forall b: nat ensures Latest(c', b) == Latest(c, b) {
      if b == bn {
        LatestIs(c, i, bn);
        LatestIs(c', i, bn);
      } else {
        SameVisible(c, c', b);
      }
    }
  }

  /** With nothing dirty the disk agrees with the contents of every block. */
  lemma CleanMeansOnDisk(c: Cache, bn: nat)
    requires Valid(c) && c.dirtyList == []
    ensures Clean(c.disk(bn)) == Clean(Latest(c, bn))
  {
  }

  // ---------------------------------------------------------------- changes to one entry

  /** Start loading slot `i` unless that has been done. */
  function StartLoad(e: Entry, disk: nat -> Data): Entry {
    if e.loaded || e.loading || e.bn.None? then e else e.(loading := true, pending := true, buf := disk(e.bn.value))
  }

  lemma StartLoadKeeps(c: Cache, i: nat)
    requires Valid(c) && i < NE && c.es[i].bn.Some?
    ensures var c' := c.(es := c.es[i := StartLoad(c.es[i], c.disk)]); Valid(c') && SameContents(c, c')
  {
    var c' := c.(es := c.es[i := StartLoad(c.es[i], c.disk)]);
    assert EntryOk(c.es[i], c.disk);
    SetEntry(c, i, c'.es[i]);
    forall bn: nat ensures Latest(c', bn) == Latest(c, bn) {
      SameVisible(c, c', bn);
    }
  }

  /** A change of reference count, or of what is not part of the contents. */
  lemma SetCounts(c: Cache, i: nat, e: Entry)
    requires Valid(c) && i < NE && e.bn == c.es[i].bn && e.dirty == c.es[i].dirty && EntryOk(e, c.disk)
    requires i in c.prefList ==> e.ref == 0 && e.prefetched
    requires Visible(e) == Visible(c.es[i])
    ensures Valid(c.(es := c.es[i := e])) && SameContents(c, c.(es := c.es[i := e]))
  {
    var c' := c.(es := c.es[i := e]);
    SetEntry(c, i, e);
    forall bn: nat ensures Latest(c', bn) == Latest(c, bn) {
      SameVisible(c, c', bn);
    }
  }

  /** Move the unreferenced slot `i` to the front of the prefetch list. */
  function ToPrefetch(c: Cache, i: nat): Cache
    requires i < |c.es|
  {
    c.(es := c.es[i := c.es[i].(prefetched := true)],
       eList := Without(c.eList, i), prefList := [i] + Without(c.prefList, i))
  }

  lemma ToPrefetchKeeps(c: Cache, i: nat)
    requires Valid(c) && i < NE && c.es[i].bn.Some? && c.es[i].ref == 0
    ensures Valid(ToPrefetch(c, i)) && SameContents(c, ToPrefetch(c, i))
  {
    var c' := ToPrefetch(c, i);
    WithoutDistinct(c.eList, i);
    WithoutDistinct(c.prefList, i);
    assert EntryOk(c.es[i], c.disk);
    forall bn: nat ensures Latest(c', bn) == Latest(c, bn) {
      SameVisible(c, c', bn);
    }
  }

  /** Take delivery of slot `i`, whose load has completed. */
  function Delivered(e: Entry, clean: bool): Entry {
    e.(loading := false, loaded := true, pending := false, buf := if clean then Clean(e.buf) else e.buf)
  }

  lemma DeliverKeeps(c: Cache, i: nat, bn: nat, clean: bool)
    requires Valid(c) && i < NE && c.es[i].bn == Some(bn) && c.es[i].loading
    ensures var c' := c.(es := c.es[i := Delivered(c.es[i], clean)]);
            Valid(c') && SameContents(c, c') && LoadedAt(c', i, bn)
  {
    var c' := c.(es := c.es[i := Delivered(c.es[i], clean)]);
    assert EntryOk(c.es[i], c.disk);
    SetEntry(c, i, c'.es[i]);
    forall b: nat ensures Clean(Latest(c', b)) == Clean(Latest(c, b)) {
      if b != bn {
        OtherBlocks(c, c', i, b);
      } else {
        LatestIs(c', i, bn);
        assert forall j: nat :: !LoadedAt(c, j, bn);
      }
    }
  }

  /** Write `d` to slot `i`, marking it dirty. */
  function Written(c: Cache, i: nat, d: Data): Cache
    requires i < |c.es|
  {
    c.(es := c.es[i := c.es[i].(dirty := true, buf := d)],
       dirtyList := if c.es[i].dirty then c.dirtyList else [i] + c.dirtyList)
  }

  /** A write changes the contents of its block and of no other. */
  lemma WriteKeeps(c: Cache, i: nat, bn: nat, d: Data)
    requires Valid(c) && LoadedAt(c, i, bn)
    ensures Valid(Written(c, i, d))
    ensures forall b: nat :: Latest(Written(c, i, d), b) == if b == bn then d else Latest(c, b)
  {
    var c' := Written(c, i, d);
    assert EntryOk(c.es[i], c.disk);
    forall b: nat ensures Latest(c', b) == if b == bn then d else Latest(c, b) {
      if b != bn {
        OtherBlocks(c, c', i, b);
      } else {
        LatestIs(c', i, bn);
      }
    }
  }
}
