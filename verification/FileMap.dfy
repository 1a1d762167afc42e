/**
 * The block map of a ChickadeeFS file (chickadeefs.hh): direct, indirect and doubly indirect
 * pointers, which together stand for a flat map from block indexes to block numbers.
 */
module FileMap {
  const NDIRECT: nat := 9
  const NINDIRECT: nat := 1024
  const BLOCKSIZE: nat := 4096
  const MAXBLOCKS: nat := NDIRECT + NINDIRECT + NINDIRECT * NINDIRECT
  const MAXSIZE: nat := MAXBLOCKS * BLOCKSIZE

  datatype Inode = Inode(direct: seq<nat>, indirect: nat, indirect2: nat)

  /** `ptr(b, i)` is pointer `i` of block `b`; bit `b` of `free` is set if block `b` is free. */
  datatype Fs = Fs(ino: Inode, ptr: (nat, nat) -> nat, free: seq<bool>)

  // ---------------------------------------------------------------- index computations

  /** `bi_direct_index`. */
  function DirectIndex(bi: nat): nat {
    if bi < NDIRECT then bi else (bi - NDIRECT) % NINDIRECT
  }

  /** `bi_indirect_index`. */
  function IndirectIndex(bi: nat): nat
    requires bi >= NDIRECT + NINDIRECT
  {
    (bi - NDIRECT - NINDIRECT) / NINDIRECT
  }

  /** `chkfs_fileiter::iclass`. */
  function Iclass(bi: nat): nat {
    (bi + NINDIRECT - NDIRECT) / NINDIRECT
  }

  /** The two index computations agree, and an index is its class and its place in it. */
  lemma IclassFacts(bi: nat)
    requires bi < MAXBLOCKS
    ensures Iclass(bi) == 0 <==> bi < NDIRECT
    ensures Iclass(bi) == 1 <==> NDIRECT <= bi < NDIRECT + NINDIRECT
    ensures bi >= NDIRECT + NINDIRECT ==> IndirectIndex(bi) == Iclass(bi) - 2 < NINDIRECT
    ensures bi >= NDIRECT ==> bi == NDIRECT + (Iclass(bi) - 1) * NINDIRECT + DirectIndex(bi)
  {
  }

  // ---------------------------------------------------------------- pointers

  /** The places that hold a block pointer. */
  datatype Slot =
    | Direct(i: nat)
    | Ind
    | Ind2
    | InInd(i: nat)
    | InInd2(j: nat)
    | InSub(j: nat, i: nat)

  predicate IsSlot(s: Slot) {
    match s
    case Direct(i) => i < NDIRECT
    case Ind => true
    case Ind2 => true
    case InInd(i) => i < NINDIRECT
    case InInd2(j) => j < NINDIRECT
    case InSub(j, i) => j < NINDIRECT && i < NINDIRECT
  }

  predicate Shape(fs: Fs) {
    |fs.ino.direct| == NDIRECT && |fs.free| > 0 && !fs.free[0]
  }

  function Through(fs: Fs, b: nat, i: nat): nat {
    if b == 0 then 0 else fs.ptr(b, i)
  }

  /** The pointer held in a slot; 0 where the block that would hold it does not exist. */
  function At(fs: Fs, s: Slot): nat
    requires Shape(fs) && IsSlot(s)
  {
    match s
    case Direct(i) => fs.ino.direct[i]
    case Ind => fs.ino.indirect
    case Ind2 => fs.ino.indirect2
    case InInd(i) => Through(fs, fs.ino.indirect, i)
    case InInd2(j) => Through(fs, fs.ino.indirect2, j)
    case InSub(j, i) => Through(fs, Through(fs, fs.ino.indirect2, j), i)
  }

  /** Where the pointer to the data block of index `bi` is held. */
  function SlotOf(bi: nat): (s: Slot)
    requires bi < MAXBLOCKS
    ensures IsSlot(s)
  {
    if bi < NDIRECT then Direct(bi)
    else if bi < NDIRECT + NINDIRECT then InInd(DirectIndex(bi))
    else IclassFacts(bi); InSub(IndirectIndex(bi), DirectIndex(bi))
  }

  /** Where the pointer to the indirect block for index `bi` is held. */
  function IptrSlot(bi: nat): (s: Slot)
    requires NDIRECT <= bi < MAXBLOCKS
    ensures IsSlot(s)
  {
    if bi < NDIRECT + NINDIRECT then Ind else IclassFacts(bi); InInd2(Iclass(bi) - 2)
  }

  /** The flat map. */
  function Lookup(fs: Fs, bi: nat): nat
    requires Shape(fs) && bi < MAXBLOCKS
  {
    At(fs, SlotOf(bi))
  }

  lemma SlotOfInjective(bi: nat, bi': nat)
    requires bi < MAXBLOCKS && bi' < MAXBLOCKS && SlotOf(bi) == SlotOf(bi')
    ensures bi == bi'
  {
    IclassFacts(bi);
    IclassFacts(bi');
  }

  // ---------------------------------------------------------------- invariants

  /** No block is pointed to from two slots. */
  ghost predicate Apart(fs: Fs)
    requires Shape(fs)
  {
    forall s, s' :: IsSlot(s) && IsSlot(s') && At(fs, s) != 0 && At(fs, s) == At(fs, s') ==> s == s'
  }

  predicate IsFree(fs: Fs, b: nat) {
    b < |fs.free| && fs.free[b]
  }

  /** No block pointed to is free. */
  ghost predicate OffFree(fs: Fs)
    requires Shape(fs)
  {
    forall s :: IsSlot(s) && At(fs, s) != 0 ==> !IsFree(fs, At(fs, s))
  }

  ghost predicate Good(fs: Fs) {
    Shape(fs) && Apart(fs) && OffFree(fs)
  }

  /** Block `b` is pointed to from nowhere. */
  ghost predicate Loose(fs: Fs, b: nat)
    requires Shape(fs)
  {
    forall s :: IsSlot(s) ==> At(fs, s) != b
  }

  // ---------------------------------------------------------------- updates

  function SetPtr(fs: Fs, b: nat, i: nat, v: nat): Fs {
    var ptr := fs.ptr;
    fs.(ptr := (x: nat, y: nat) => if x == b && y == i then v else ptr(x, y))
  }

  /** Clear a block, having taken it off the free list. */
  function TakeBlock(fs: Fs, b: nat): Fs
    requires b < |fs.free|
  {
    var ptr := fs.ptr;
    fs.(free := fs.free[b := false], ptr := (x: nat, y: nat) => if x == b then 0 else ptr(x, y))
  }

  /** The block that holds a slot, 0 for the inode. */
  function Holder(fs: Fs, s: Slot): nat
    requires Shape(fs) && IsSlot(s)
  {
    match s
    case InInd(_) => fs.ino.indirect
    case InInd2(_) => fs.ino.indirect2
    case InSub(j, _) => Through(fs, fs.ino.indirect2, j)
    case _ => 0
  }

  predicate InInode(s: Slot) {
    s.Direct? || s.Ind? || s.Ind2?
  }

  function Store(fs: Fs, s: Slot, v: nat): Fs
    requires Shape(fs) && IsSlot(s)
  {
    match s
    case Direct(i) => fs.(ino := fs.ino.(direct := fs.ino.direct[i := v]))
    case Ind => fs.(ino := fs.ino.(indirect := v))
    case Ind2 => fs.(ino := fs.ino.(indirect2 := v))
    case InInd(i) => SetPtr(fs, Holder(fs, s), i, v)
    case InInd2(j) => SetPtr(fs, Holder(fs, s), j, v)
    case InSub(_, i) => SetPtr(fs, Holder(fs, s), i, v)
  }

  /** Slot `s` lies in a block that is reached through slot `top`. */
  predicate Under(s: Slot, top: Slot) {
    match top
    case Ind => s.InInd?
    case Ind2 => s.InInd2? || s.InSub?
    case InInd2(j) => s.InSub? && s.j == j
    case _ => false
  }

  predicate IsData(s: Slot) {
    s.Direct? || s.InInd? || s.InSub?
  }

  /** The slot through which a slot outside the inode is reached. */
  function Up(s: Slot): (r: Slot)
    requires IsSlot(s) && !InInode(s)
    ensures IsSlot(r)
  {
    match s
    case InInd(_) => Ind
    case InInd2(_) => Ind2
    case InSub(j, _) => InInd2(j)
  }

  /** A block that holds slot `s` is not reached through any other slot than `Up(s)`. */
  lemma HolderOnly(fs: Fs, s: Slot, top: Slot)
    requires Good(fs) && IsSlot(s) && !InInode(s) && IsSlot(top) && Holder(fs, s) != 0
    ensures Holder(fs, s) == At(fs, Up(s)) && (At(fs, top) == Holder(fs, s) ==> top == Up(s))
  {
  }

  /** Storing a pointer outside the inode changes that slot, and what is reached through it. */
  lemma StoreAt(fs: Fs, s: Slot, v: nat, s': Slot)
    requires Good(fs) && IsSlot(s) && IsSlot(s') && (InInode(s) || Holder(fs, s) != 0)
    ensures Shape(Store(fs, s, v)) && Store(fs, s, v).free == fs.free
    ensures s' == s ==> At(Store(fs, s, v), s') == v
    ensures s' != s && !Under(s', s) ==> At(Store(fs, s, v), s') == At(fs, s')
  {
    if !InInode(s) {
      HolderOnly(fs, s, Ind);
      HolderOnly(fs, s, Ind2);
      if s'.InInd2? || s'.InSub? {
        HolderOnly(fs, s, InInd2(s'.j));
      }
    }
  }

  /** Storing a data pointer changes that slot only. */
  lemma StoreData(fs: Fs, s: Slot, v: nat)
    requires Good(fs) && IsSlot(s) && IsData(s) && (InInode(s) || Holder(fs, s) != 0)
    ensures Shape(Store(fs, s, v))
    ensures forall s' :: IsSlot(s') ==> At(Store(fs, s, v), s') == if s' == s then v else At(fs, s')
    ensures v == 0 || (Loose(fs, v) && !IsFree(fs, v)) ==> Good(Store(fs, s, v))
  {
    var fs' := Store(fs, s, v);
    forall s' | IsSlot(s') ensures At(fs', s') == if s' == s then v else At(fs, s') {
      StoreAt(fs, s, v, s');
    }
    assert Shape(fs') && fs'.free == fs.free by {
      StoreAt(fs, s, v, s);
    }
  }

  // ---------------------------------------------------------------- linking a new pointer block

  /** Take free block `b`, clear it and store a pointer to it in `s`. */
  function Link(fs: Fs, s: Slot, b: nat): Fs
    requires Shape(fs) && IsSlot(s) && IsFree(fs, b)
  {
    Store(TakeBlock(fs, b), s, b)
  }

  /** A block off the free list and cleared is still pointed to from nowhere. */
  lemma TakeKeeps(fs: Fs, b: nat)
    requires Good(fs) && IsFree(fs, b)
    ensures var fs' := TakeBlock(fs, b);
            && Good(fs') && Loose(fs', b) && b != 0 && !IsFree(fs', b)
            && (forall s :: IsSlot(s) ==> At(fs', s) == At(fs, s) && Holder(fs', s) == Holder(fs, s))
  {
    var fs' := TakeBlock(fs, b);
    forall s | IsSlot(s) ensures At(fs', s) == At(fs, s) && Holder(fs', s) == Holder(fs, s) {
      if !InInode(s) {
        assert At(fs, Up(s)) == Holder(fs, s);
        assert s.InSub? ==> At(fs, Ind2) != b && At(fs, InInd2(s.j)) != b;
      }
    }
  }

  lemma LinkAt(fs: Fs, s: Slot, b: nat, s': Slot)
    requires Good(fs) && IsSlot(s) && !IsData(s) && IsSlot(s') && IsFree(fs, b) && (InInode(s) || Holder(fs, s) != 0)
    ensures Shape(Link(fs, s, b))
    ensures At(Link(fs, s, b), s') == if s' == s then b else if Under(s', s) then 0 else At(fs, s')
  {
    var fs1 := TakeBlock(fs, b);
    TakeKeeps(fs, b);
    StoreAt(fs1, s, b, s');
    if Under(s', s) {
      assert s.InInd2? ==> At(fs1, Ind2) != b;
    }
  }

  /** A new pointer block hides what was reached through the slot, and nothing else. */
  lemma LinkKeeps(fs: Fs, s: Slot, b: nat)
    requires Good(fs) && IsSlot(s) && !IsData(s) && IsFree(fs, b) && (InInode(s) || Holder(fs, s) != 0)
    ensures var fs' := Link(fs, s, b);
            && Good(fs')
            && (forall s' :: IsSlot(s') ==>
                  At(fs', s') == if s' == s then b else if Under(s', s) then 0 else At(fs, s'))
            && (forall x: nat :: x != b && Loose(fs, x) && x != 0 ==> Loose(fs', x))
            && (forall x: nat :: IsFree(fs', x) ==> IsFree(fs, x))
  {
    var fs' := Link(fs, s, b);
    LinkAt(fs, s, b, s);
    forall s' | IsSlot(s') ensures At(fs', s') == if s' == s then b else if Under(s', s) then 0 else At(fs, s') {
      LinkAt(fs, s, b, s');
    }
    TakeKeeps(fs, b);
    StoreAt(TakeBlock(fs, b), s, b, s);
  }
}
