/**
 * `chkfs_fileiter` (k-chkfsiter.cc) and the block functions of `chkfsstate` (k-chkfs.cc).
 */
module FileIter {
  import opened Collections
  import opened FileMap

  datatype Outcome = Done | NoSpace | NoMemory

  /** What `dptr_` points to. */
  datatype Place = InodeEntry(i: nat) | BlockEntry(b: nat, i: nat)

  ghost predicate OneFree(fs: Fs) {
    exists x: nat :: IsFree(fs, x)
  }

  ghost predicate TwoFree(fs: Fs) {
    exists x: nat, y: nat :: x != y && IsFree(fs, x) && IsFree(fs, y)
  }

  lemma OneFewer(fs: Fs, fs': Fs, b: nat)
    requires IsFree(fs, b) && fs'.free == fs.free[b := false]
    ensures OneFree(fs) && (OneFree(fs') <==> TwoFree(fs))
  {
    assert forall x: nat :: IsFree(fs', x) <==> x != b && IsFree(fs, x);
  }

  class Volume {
    var fs: Fs

    constructor (fs: Fs)
      ensures this.fs == fs
    {
      this.fs := fs;
    }

    /** `allocate_block`: the first free block, no longer free. */
    method AllocateBlock() returns (r: Option<nat>)
      modifies this
      ensures r.None? ==> fs == old(fs) && forall b: nat :: !IsFree(fs, b)
      ensures r.Some? ==>
                && IsFree(old(fs), r.value) && (forall b: nat :: b < r.value ==> !IsFree(old(fs), b))
                && fs == old(fs).(free := old(fs).free[r.value := false])
    {
      var bn := 0;
      while bn < |fs.free|
        invariant 0 <= bn <= |fs.free| && fs == old(fs)
        invariant forall b :: 0 <= b < bn ==> !fs.free[b]
      {
        if fs.free[bn] {
          fs := fs.(free := fs.free[bn := false]);
          return Some(bn);
        }
        bn := bn + 1;
      }
      return None;
    }

    /** Nothing that the file points to has changed; at most a block has been lost. */
    twostate predicate OnlyLeaked()
      reads this
    {
      && old(Good(fs)) && Good(fs) && (forall s :: IsSlot(s) ==> At(fs, s) == At(old(fs), s))
      && (forall b: nat :: IsFree(fs, b) ==> IsFree(old(fs), b))
    }

    /**
     * `allocate_metablock_entry`, and the store of the new block's number in `slot`. `loads`
     * tells whether the buffer cache finds room for the block.
     */
    method LinkBlock(slot: Slot, loads: bool) returns (r: Outcome, b: nat)
      requires Good(fs) && IsSlot(slot) && !IsData(slot) && (InInode(slot) || Holder(fs, slot) != 0)
      modifies this
      ensures r.Done? ==> IsFree(old(fs), b) && fs == Link(old(fs), slot, b)
      ensures !r.Done? ==> OnlyLeaked()
      ensures r.Done? <==> loads && OneFree(old(fs))
      ensures r.Done? ==> (OneFree(fs) <==> TwoFree(old(fs)))
    {
      var bn := AllocateBlock();
      if bn.None? {
        return NoSpace, 0;
      }
      TakeKeeps(old(fs), bn.value);
      if !loads {
        Unlinked(old(fs), bn.value);
        return NoMemory, 0;
      }
      b := bn.value;
      var ptr := fs.ptr;
      fs := fs.(ptr := (x: nat, y: nat) => if x == b then 0 else ptr(x, y));
      assert fs == TakeBlock(old(fs), b);
      fs := Store(fs, slot, b);
      r := Done;
      OneFewer(old(fs), fs, b);
    }
  }

  lemma Unlinked(fs: Fs, b: nat)
    requires Good(fs) && IsFree(fs, b)
    ensures var fs' := fs.(free := fs.free[b := false]); Good(fs') && forall s :: IsSlot(s) ==> At(fs', s) == At(fs, s)
  {
    var fs' := fs.(free := fs.free[b := false]);
    assert forall s :: IsSlot(s) ==> At(fs', s) == At(fs, s);
  }

  /** The indexes whose pointers are hidden when pointer blocks are added for `bi`. */
  predicate Hidden(bi: nat, no2: bool, no1: bool, x: nat) {
    (no2 && x >= NDIRECT + NINDIRECT) || (no1 && Iclass(x) == Iclass(bi))
  }

  lemma UnderIs(bi: nat, x: nat)
    requires bi < MAXBLOCKS && x < MAXBLOCKS
    ensures Under(SlotOf(x), Ind2) <==> x >= NDIRECT + NINDIRECT
    ensures bi >= NDIRECT ==> (Under(SlotOf(x), IptrSlot(bi)) <==> Iclass(x) == Iclass(bi))
    ensures SlotOf(x) == SlotOf(bi) <==> x == bi
  {
    IclassFacts(bi);
    IclassFacts(x);
    if SlotOf(x) == SlotOf(bi) {
      SlotOfInjective(x, bi);
    }
  }

  /** The flat map after a successful `map`. */
  ghost predicate Remapped(fs: Fs, fs': Fs, bi: nat, bn: nat, no2: bool, no1: bool) {
    && Shape(fs) && Shape(fs') && bi < MAXBLOCKS
    && forall x: nat :: x < MAXBLOCKS ==>
         Lookup(fs', x) == if x == bi then bn else if Hidden(bi, no2, no1, x) then 0 else Lookup(fs, x)
  }

  ghost predicate SameMap(fs: Fs, fs': Fs) {
    Shape(fs) && Shape(fs') && forall x: nat :: x < MAXBLOCKS ==> Lookup(fs', x) == Lookup(fs, x)
  }

  /**
   * `get_data_block`, up to the number of the data block it returns; none if there is no block at
   * that offset. `loads2`, `loads1` and `loads` tell whether the doubly indirect block, the
   * indirect block and the data block can be loaded.
   */
  method DataBlockNumber(fs: Fs, off: nat, loads2: bool, loads1: bool, loads: bool) returns (r: Option<nat>)
    requires Shape(fs) && off < MAXSIZE && off % BLOCKSIZE == 0
    ensures var bi := off / BLOCKSIZE;
            && (r.Some? ==> r.value == Lookup(fs, bi))
            && (r.Some? <==> Lookup(fs, bi) != 0 && loads && (bi >= NDIRECT ==> loads1)
                             && (bi >= NDIRECT + NINDIRECT ==> loads2))
  {
    var bi := off / BLOCKSIZE;
    IclassFacts(bi);
    var iptr, dptr := 0, 0;
    if bi >= NDIRECT + NINDIRECT {
      if fs.ino.indirect2 == 0 || !loads2 {
        return None;
      }
      iptr := fs.ptr(fs.ino.indirect2, IndirectIndex(bi));
    } else if bi >= NDIRECT {
      iptr := fs.ino.indirect;
    }
    if bi >= NDIRECT {
      if iptr == 0 || !loads1 {
        return None;
      }
      dptr := fs.ptr(iptr, DirectIndex(bi));
    } else {
      dptr := fs.ino.direct[DirectIndex(bi)];
    }
    if dptr == 0 || !loads {
      return None;
    }
    return Some(dptr);
  }

  /** Indexes of one class share their pointer blocks. */
  lemma SameClass(bi: nat, bi': nat)
    requires bi < MAXBLOCKS && bi' < MAXBLOCKS
    ensures Iclass(bi) == Iclass(bi') ==>
              && (bi < NDIRECT <==> bi' < NDIRECT) && (bi < NDIRECT + NINDIRECT <==> bi' < NDIRECT + NINDIRECT)
              && (bi >= NDIRECT ==> IptrSlot(bi) == IptrSlot(bi'))
  {
    IclassFacts(bi);
    IclassFacts(bi');
  }

  /** `fs'` has a new, empty block behind slot `top`, and is otherwise as `fs`. */
  ghost predicate Hides(fs: Fs, fs': Fs, top: Slot) {
    && Shape(fs) && Shape(fs')
    && forall s :: IsSlot(s) && s != top ==> At(fs', s) == if Under(s, top) then 0 else At(fs, s)
  }

  /** Everything from the first doubly indirect index on is gone, and nothing else. */
  ghost predicate LostBeyond(fs: Fs, fs': Fs) {
    && Shape(fs) && Shape(fs')
    && forall x: nat :: x < MAXBLOCKS ==> Lookup(fs', x) == if x >= NDIRECT + NINDIRECT then 0 else Lookup(fs, x)
  }

  /** `map` gets as far as linking a new doubly indirect block. */
  ghost predicate Adds2(fs: Fs, no2: bool, loads2: bool) {
    no2 && loads2 && OneFree(fs)
  }

  /** The flat map after a failed `map`. */
  ghost predicate Failed(fs: Fs, fs': Fs, no2: bool, loads2: bool) {
    if Adds2(fs, no2, loads2) then LostBeyond(fs, fs') else SameMap(fs, fs')
  }

  /** The pointer blocks that are lacking can be allocated and loaded. */
  ghost predicate CanLink(fs: Fs, no2: bool, no1: bool, loads2: bool, loads1: bool) {
    && (no2 ==> loads2 && OneFree(fs))
    && (no1 ==> loads1 && if no2 then TwoFree(fs) else OneFree(fs))
  }

  class FileIter {
    const vol: Volume
    var off: nat
    var indirect2: Option<nat>
    var indirect: Option<nat>
    var dptr: Option<Place>

    ghost function Bi(): nat
      reads this
    {
      off / BLOCKSIZE
    }

    /** The loaded entries are those of the file's pointer blocks. */
    ghost predicate Valid()
      reads this, vol
    {
      && Good(vol.fs) && off < MAXSIZE
      && (indirect2.Some? ==> indirect2.value == vol.fs.ino.indirect2 != 0)
      && (indirect.Some? ==> Bi() >= NDIRECT && indirect.value == At(vol.fs, IptrSlot(Bi())) != 0)
      && (indirect.Some? && Bi() >= NDIRECT + NINDIRECT ==> indirect2.Some?)
      && (dptr.Some? ==> (Bi() >= NDIRECT ==> indirect.Some?) && dptr.value == PlaceNow())
    }

    /** Where `get_dptr` points. */
    function PlaceNow(): Place
      reads this
    {
      var bi := off / BLOCKSIZE;
      if bi < NDIRECT then InodeEntry(bi)
      else BlockEntry(if indirect.Some? then indirect.value else 0, DirectIndex(bi))
    }

    /** No pointer block that exists is missing from the iterator. */
    ghost predicate Settled()
      requires Valid()
      reads this, vol
    {
      && (Bi() >= NDIRECT + NINDIRECT && indirect2.None? ==> vol.fs.ino.indirect2 == 0)
      && (Bi() >= NDIRECT && indirect.None? ==> At(vol.fs, IptrSlot(Bi())) == 0)
      && (Bi() < NDIRECT || indirect.Some? ==> dptr.Some?)
    }

    /** `blocknum`. */
    function BlockNum(): (r: nat)
      requires Valid()
      reads this, vol
      ensures dptr.Some? || Settled() ==> r == Lookup(vol.fs, Bi())
    {
      if dptr.None? then 0
      else
        match dptr.value
        case InodeEntry(i) => vol.fs.ino.direct[i]
        case BlockEntry(b, i) => vol.fs.ptr(b, i)
    }

    constructor (vol: Volume)
      requires Good(vol.fs)
      ensures this.vol == vol && Valid() && Settled() && off == 0 && indirect2.None?
    {
      this.vol := vol;
      off, indirect2, indirect, dptr := 0, None, None, Some(InodeEntry(0));
    }

    /** Move to `off'`; `loads2` and `loads1` tell whether pointer blocks can be loaded. */
    method Find(off': nat, loads2: bool, loads1: bool)
      requires Valid() && off' < MAXSIZE
      modifies this
      ensures Valid() && off == off'
      ensures loads2 && loads1 ==> Settled()
      ensures !loads1 && Iclass(Bi()) != Iclass(old(Bi())) ==> indirect.None?
      ensures !loads2 ==> indirect2 == old(indirect2)
    {
      var bi := off' / BLOCKSIZE;
      SameClass(off / BLOCKSIZE, bi);
      if indirect.Some? && Iclass(bi) != Iclass(off / BLOCKSIZE) {
        indirect := None;
      }
      off := off';
      dptr := None;
      LoadIndirect2(loads2);
      if bi >= NDIRECT + NINDIRECT && indirect2.None? {
        return;
      }
      LoadIndirect(loads1);
      if bi >= NDIRECT && indirect.None? {
        return;
      }
      dptr := Some(PlaceNow());
    }

    /** Load the doubly indirect block if the current index needs it. */
    method LoadIndirect2(loads: bool)
      requires Valid() && dptr.None?
      modifies this`indirect2
      ensures Valid() && (Bi() >= NDIRECT + NINDIRECT && indirect2.None? ==> vol.fs.ino.indirect2 == 0 || !loads)
      ensures !loads ==> indirect2 == old(indirect2)
    {
      if off / BLOCKSIZE >= NDIRECT + NINDIRECT && indirect2.None? {
        if vol.fs.ino.indirect2 != 0 && loads {
          indirect2 := Some(vol.fs.ino.indirect2);
        }
      }
    }

    /** Load the indirect block if the current index needs it. */
    method LoadIndirect(loads: bool)
      requires Valid() && dptr.None? && (Bi() >= NDIRECT + NINDIRECT ==> indirect2.Some?)
      modifies this`indirect
      ensures Valid() && (old(indirect).Some? ==> indirect == old(indirect))
      ensures Bi() >= NDIRECT && old(indirect).None? ==>
                (indirect.None? <==> At(vol.fs, IptrSlot(Bi())) == 0 || !loads)
      ensures Bi() < NDIRECT ==> indirect == old(indirect)
    {
      var bi := off / BLOCKSIZE;
      if bi >= NDIRECT && indirect.None? {
        IclassFacts(bi);
        var iptr := if Iclass(bi) > 1 then vol.fs.ptr(indirect2.value, Iclass(bi) - 2) else vol.fs.ino.indirect;
        if iptr != 0 && loads {
          indirect := Some(iptr);
        }
      }
    }

    /** The current index needs a doubly indirect block that the iterator has not got. */
    ghost predicate Lacks2()
      reads this
    {
      Bi() >= NDIRECT + NINDIRECT && indirect2.None?
    }

    /** The current index needs an indirect block that the iterator has not got. */
    ghost predicate Lacks1()
      reads this
    {
      Bi() >= NDIRECT && indirect.None?
    }

    /** Block number `bn` may be stored: it is 0, or in use and pointed to from nowhere yet. */
    ghost predicate Storable(bn: nat)
      requires Good(vol.fs)
      reads this, vol
    {
      bn == 0 || (Loose(vol.fs, bn) && !IsFree(vol.fs, bn))
    }

    /** Make sure that there is a doubly indirect block if the current index needs one. */
    method AddIndirect2(loads: bool, ghost bn: nat) returns (r: Outcome)
      requires Valid()
      modifies this`indirect2, vol
      ensures Valid() && (old(Storable(bn)) ==> Storable(bn))
      ensures r.Done? && Bi() >= NDIRECT + NINDIRECT ==> indirect2.Some?
      ensures old(Bi() < NDIRECT + NINDIRECT || indirect2.Some?) ==>
                r.Done? && vol.fs == old(vol.fs) && indirect2 == old(indirect2)
      ensures !r.Done? ==> vol.OnlyLeaked() && indirect2 == old(indirect2)
      ensures !old(Bi() < NDIRECT + NINDIRECT || indirect2.Some?) ==>
                && (r.Done? <==> loads && OneFree(old(vol.fs)))
                && (r.Done? ==> Hides(old(vol.fs), vol.fs, Ind2) && (OneFree(vol.fs) <==> TwoFree(old(vol.fs))))
    {
      if off / BLOCKSIZE >= NDIRECT + NINDIRECT && indirect2.None? {
        var b;
        r, b := vol.LinkBlock(Ind2, loads);
        if r.Done? {
          LinkKeeps(old(vol.fs), Ind2, b);
          indirect2 := Some(b);
        }
        assert !r.Done? ==> At(vol.fs, Ind2) == At(old(vol.fs), Ind2);
      } else {
        r := Done;
      }
    }

    /** Make sure that there is an indirect block if the current index needs one. */
    method AddIndirect(loads: bool, ghost bn: nat) returns (r: Outcome)
      requires Valid() && (Bi() >= NDIRECT + NINDIRECT ==> indirect2.Some?)
      modifies this`indirect, vol
      ensures Valid() && (old(Storable(bn)) ==> Storable(bn)) && (r.Done? && Bi() >= NDIRECT ==> indirect.Some?)
      ensures old(Bi() < NDIRECT || indirect.Some?) ==> r.Done? && vol.fs == old(vol.fs)
      ensures !r.Done? ==> vol.OnlyLeaked() && indirect == old(indirect)
      ensures !old(Bi() < NDIRECT || indirect.Some?) ==>
                && (r.Done? <==> loads && OneFree(old(vol.fs)))
                && (r.Done? ==> Hides(old(vol.fs), vol.fs, IptrSlot(Bi())))
    {
      if off / BLOCKSIZE >= NDIRECT && indirect.None? {
        var b;
        r, b := vol.LinkBlock(IptrSlot(off / BLOCKSIZE), loads);
        if r.Done? {
          LinkKeeps(old(vol.fs), IptrSlot(Bi()), b);
          indirect := Some(b);
        }
        assert At(vol.fs, Ind2) == At(old(vol.fs), Ind2);
        assert !r.Done? ==> At(vol.fs, IptrSlot(Bi())) == At(old(vol.fs), IptrSlot(Bi()));
      } else {
        r := Done;
      }
    }

    /** Store the data pointer. */
    method StorePointer(bn: nat)
      requires Valid() && (Bi() >= NDIRECT ==> indirect.Some?)
      modifies this`dptr, vol
      ensures Shape(vol.fs) && dptr.Some? && (old(Storable(bn)) ==> Valid())
      ensures forall s :: IsSlot(s) ==> At(vol.fs, s) == if s == SlotOf(Bi()) then bn else At(old(vol.fs), s)
    {
      IclassFacts(off / BLOCKSIZE);
      StoreData(vol.fs, SlotOf(Bi()), bn);
      dptr := Some(PlaceNow());
      vol.fs := match dptr.value
        case InodeEntry(i) => vol.fs.(ino := vol.fs.ino.(direct := vol.fs.ino.direct[i := bn]))
        case BlockEntry(b, i) => SetPtr(vol.fs, b, i, bn);
      assert vol.fs == Store(old(vol.fs), SlotOf(Bi()), bn);
    }

    /**
     * Change the block number at the current index. A pointer block that the iterator has not
     * loaded is replaced by an empty one; if the iterator is settled there was none.
     */
    method Map(bn: nat, loads2: bool, loads1: bool) returns (r: Outcome)
      requires Valid()
      modifies this`indirect2, this`indirect, this`dptr, vol
      ensures Shape(vol.fs) && (old(Storable(bn)) || !r.Done? ==> Valid())
      ensures bn == 0 && old(dptr).None? ==> r.Done? && vol.fs == old(vol.fs)
      ensures r.Done? && (bn != 0 || old(dptr).Some?) ==>
                Remapped(old(vol.fs), vol.fs, Bi(), bn, old(Lacks2()), old(Lacks1()))
      ensures !r.Done? ==> Failed(old(vol.fs), vol.fs, old(Lacks2()), loads2)
      ensures r.Done? <==>
                || (bn == 0 && old(dptr).None?)
                || CanLink(old(vol.fs), old(Lacks2()), old(Lacks1()), loads2, loads1)
    {
      if bn == 0 && dptr.None? {
        return Done;
      }
      ghost var fs0 := vol.fs;
      ghost var no2, no1 := Lacks2(), Lacks1();
      r := AddIndirect2(loads2, bn);
      if !r.Done? {
        return;
      }
      ghost var fs1 := vol.fs;
      r := AddIndirect(loads1, bn);
      if !r.Done? {
        FailedLate(fs0, fs1, vol.fs, no2);
        return;
      }
      ghost var fs2 := vol.fs;
      StorePointer(bn);
      Composed(fs0, fs1, fs2, vol.fs, Bi(), bn, no2, no1);
    }
  }

  /**
   * Exactly when a failed `map` leaves the flat map alone: it got no new doubly indirect block, or
   * there was nothing to be lost beyond the indirect block.
   */
  lemma FailureExact(fs: Fs, fs': Fs, no2: bool, loads2: bool)
    requires Failed(fs, fs', no2, loads2)
    ensures SameMap(fs, fs') <==>
              !Adds2(fs, no2, loads2) || forall x: nat :: NDIRECT + NINDIRECT <= x < MAXBLOCKS ==> Lookup(fs, x) == 0
    ensures fs.ino.indirect2 == 0 ==> SameMap(fs, fs')
  {
    if fs.ino.indirect2 == 0 {
      forall x: nat | NDIRECT + NINDIRECT <= x < MAXBLOCKS ensures Lookup(fs, x) == 0 {
        IclassFacts(x);
      }
    }
  }

  /** `map` failing for want of an indirect block, with or without a new doubly indirect one. */
  lemma FailedLate(fs0: Fs, fs1: Fs, fs2: Fs, no2: bool)
    requires Shape(fs0) && Shape(fs1) && Shape(fs2)
    requires if no2 then Hides(fs0, fs1, Ind2) else fs1 == fs0
    requires forall s :: IsSlot(s) ==> At(fs2, s) == At(fs1, s)
    ensures if no2 then LostBeyond(fs0, fs2) else SameMap(fs0, fs2)
  {
    forall x: nat | x < MAXBLOCKS
      ensures Lookup(fs2, x) == if no2 && x >= NDIRECT + NINDIRECT then 0 else Lookup(fs0, x)
    {
      UnderIs(x, x);
    }
  }

  /** The three parts of `map` together. */
  lemma Composed(fs0: Fs, fs1: Fs, fs2: Fs, fs3: Fs, bi: nat, bn: nat, no2: bool, no1: bool)
    requires Shape(fs0) && Shape(fs1) && Shape(fs2) && Shape(fs3) && bi < MAXBLOCKS
    requires if no2 then Hides(fs0, fs1, Ind2) else fs1 == fs0
    requires if no1 then bi >= NDIRECT && Hides(fs1, fs2, IptrSlot(bi)) else fs2 == fs1
    requires forall s :: IsSlot(s) ==> At(fs3, s) == if s == SlotOf(bi) then bn else At(fs2, s)
    ensures Remapped(fs0, fs3, bi, bn, no2, no1)
  {
    forall x: nat | x < MAXBLOCKS
      ensures Lookup(fs3, x) == if x == bi then bn else if Hidden(bi, no2, no1, x) then 0 else Lookup(fs0, x)
    {
      UnderIs(bi, x);
    }
  }

  /** From a settled iterator, `map` is a functional update of the flat map. */
  lemma SettledUpdate(fs: Fs, fs': Fs, bi: nat, bn: nat, no2: bool, no1: bool)
    requires Remapped(fs, fs', bi, bn, no2, no1)
    requires no2 ==> bi >= NDIRECT + NINDIRECT && fs.ino.indirect2 == 0
    requires no1 ==> bi >= NDIRECT && At(fs, IptrSlot(bi)) == 0
    ensures forall x: nat :: x < MAXBLOCKS ==> Lookup(fs', x) == if x == bi then bn else Lookup(fs, x)
  {
    forall x: nat | x < MAXBLOCKS && Hidden(bi, no2, no1, x) ensures Lookup(fs, x) == 0 {
      UnderIs(bi, x);
      IclassFacts(bi);
      IclassFacts(x);
    }
  }

  /**
   * Exactly when `map` leaves the other indexes alone: those hidden by a new pointer block were
   * empty. An iterator that failed to load an existing pointer block loses what it leads to.
   */
  lemma UpdateExact(fs: Fs, fs': Fs, bi: nat, bn: nat, no2: bool, no1: bool)
    requires Remapped(fs, fs', bi, bn, no2, no1)
    ensures (forall x: nat :: x < MAXBLOCKS && x != bi ==> Lookup(fs', x) == Lookup(fs, x)) <==>
            (forall x: nat :: x < MAXBLOCKS && x != bi && Hidden(bi, no2, no1, x) ==> Lookup(fs, x) == 0)
  {
  }

  /**
   * Such a loss does happen: index 9 is mapped through an indirect block that could not be
   * loaded; mapping index 10 succeeds, and index 9 is mapped no more.
   */
  method LosesMapping() returns (vol: Volume, before: Fs)
    ensures Good(before) && Lookup(before, 9) == 2 && Good(vol.fs) && Lookup(vol.fs, 9) == 0 && Lookup(vol.fs, 10) == 3
  {
    before := Fs(Inode([0, 0, 0, 0, 0, 0, 0, 0, 0], 1, 0), (b: nat, i: nat) => if b == 1 && i == 0 then 2 else 0,
                 [false, false, false, false, true, true]);
    Simple(before);
    vol := new Volume(before);
    var it := new FileIter(vol);
    it.Find(10 * BLOCKSIZE, true, false);
    IclassFacts(10);
    IclassFacts(0);
    assert IsFree(vol.fs, 4) && IsFree(vol.fs, 5);
    var r := it.Map(3, true, true);
    assert Hidden(10, false, true, 9);
  }

  lemma Simple(fs: Fs)
    requires fs.ino == Inode([0, 0, 0, 0, 0, 0, 0, 0, 0], 1, 0) && fs.free == [false, false, false, false, true, true]
    requires forall b: nat, i: nat :: fs.ptr(b, i) == if b == 1 && i == 0 then 2 else 0
    ensures Good(fs) && Loose(fs, 3) && At(fs, InInd(0)) == 2
  {
  }

  /**
   * And a failed `map` can lose a mapping too: index 1033 is mapped through a doubly indirect block
   * that could not be loaded; the only free block replaces it, and none is left for the indirect one.
   */
  method LosesOnFailure() returns (vol: Volume, before: Fs, r: Outcome)
    ensures Good(before) && Lookup(before, 1033) == 3 && !r.Done? && Good(vol.fs) && Lookup(vol.fs, 1033) == 0
  {
    before := Fs(Inode([0, 0, 0, 0, 0, 0, 0, 0, 0], 0, 1),
                 (b: nat, i: nat) => if b == 1 && i == 0 then 2 else if b == 2 && i == 0 then 3 else 0,
                 [false, false, false, false, false, true]);
    Deep(before);
    vol := new Volume(before);
    var it := new FileIter(vol);
    it.Find(1033 * BLOCKSIZE, false, true);
    assert IsFree(vol.fs, 5);
    r := it.Map(4, true, true);
  }

  lemma Deep(fs: Fs)
    requires fs.ino == Inode([0, 0, 0, 0, 0, 0, 0, 0, 0], 0, 1)
    requires fs.free == [false, false, false, false, false, true]
    requires forall b: nat, i: nat ::
               fs.ptr(b, i) == if b == 1 && i == 0 then 2 else if b == 2 && i == 0 then 3 else 0
    ensures Good(fs) && Lookup(fs, 1033) == 3 && OneFree(fs) && !TwoFree(fs)
  {
    IclassFacts(1033);
    assert IsFree(fs, 5);
  }
}
