/**
 * Journal records and wrap-around transaction ids (chickadeefs.hh).
 */
module JournalFormat {

  const JOURNALMAGIC: nat := 0xFBBF_BB00_9EEB_CEED
  const NOCHECKSUM: nat := 0x8260_0A5F

  // ---------------------------------------------------------------- transaction ids

  type U16 = x: int | 0 <= x < 0x1_0000
  type Tid = U16

  /** `tiddiff_t(x - y)`: the 16-bit difference read as signed. */
  function TidDiff(x: Tid, y: Tid): (d: int)
    ensures -0x8000 <= d < 0x8000
  {
    (x - y + 0x8000) % 0x1_0000 - 0x8000
  }

  predicate TidLt(x: Tid, y: Tid) { TidDiff(x, y) < 0 }
  predicate TidGe(x: Tid, y: Tid) { TidDiff(x, y) >= 0 }
  predicate TidGt(x: Tid, y: Tid) { TidDiff(x, y) > 0 }

  function TidNext(x: Tid): Tid {
    (x + 1) % 0x1_0000
  }

  /** How many increments lead from `x` to `y`. */
  function TidSteps(x: Tid, y: Tid): nat {
    (y - x) % 0x1_0000
  }

  lemma StepsIs(x: Tid, y: Tid)
    ensures TidSteps(x, y) == if y >= x then y - x else y - x + 0x1_0000
  {
  }

  lemma NextIs(x: Tid)
    ensures TidNext(x) == if x == 0xFFFF then 0 else x + 1
  {
  }

  lemma StepsDown(x: Tid, y: Tid)
    requires x != y
    ensures TidSteps(TidNext(x), y) == TidSteps(x, y) - 1
  {
    NextIs(x);
    StepsIs(x, y);
    StepsIs(TidNext(x), y);
  }

  /** The signed difference is the number of increments, up to half of the range. */
  lemma DiffIs(x: Tid, y: Tid)
    ensures TidDiff(x, y) == if TidSteps(y, x) < 0x8000 then TidSteps(y, x) else TidSteps(y, x) - 0x1_0000
  {
    StepsIs(y, x);
  }

  lemma StepsFrom(x: Tid, y: Tid, z: Tid)
    ensures var a, b := TidSteps(x, z), TidSteps(x, y);
            TidSteps(y, z) == (if a >= b then a - b else a - b + 0x1_0000) && TidSteps(x, x) == 0
  {
    StepsIs(x, z);
    StepsIs(x, y);
    StepsIs(y, z);
  }

  /** `tid` lies in the committable region. */
  predicate InWindow(tid: Tid, complete: Tid, commit: Tid) {
    TidGe(tid, complete) && TidLt(tid, commit)
  }

  /** The ids from `x` on, up to but excluding `y`, as the loop over the region visits them. */
  function TidsBetween(x: Tid, y: Tid): seq<Tid>
    decreases TidSteps(x, y)
  {
    if x == y then [] else [x] + TidsBetween(TidNext(x), y)
  }

  /**
   * The window test passes for exactly the ids the loop enumerates, provided the boundaries
   * themselves passed the check `!tid_gt(complete, commit)`.
   */
  lemma {:induction false} WindowIsEnumerated(tid: Tid, complete: Tid, commit: Tid)
    requires !TidGt(complete, commit)
    ensures InWindow(tid, complete, commit) <==> tid in TidsBetween(complete, commit)
  {
    EnumeratedAre(tid, complete, commit);
    DiffIs(tid, complete);
    DiffIs(tid, commit);
    DiffIs(complete, commit);
    StepsFrom(complete, commit, tid);
    StepsFrom(complete, commit, complete);
  }

  lemma {:induction false} EnumeratedAre(tid: Tid, x: Tid, y: Tid)
    ensures tid in TidsBetween(x, y) <==> TidSteps(x, tid) < TidSteps(x, y)
    decreases TidSteps(x, y)
  {
    if x != y {
      EnumeratedAre(tid, TidNext(x), y);
      StepsDown(x, y);
      if tid != x {
        StepsDown(x, tid);
      } else {
        NextIs(x);
        StepsIs(x, x);
        StepsIs(TidNext(x), x);
        StepsIs(x, y);
      }
    }
  }

  // ---------------------------------------------------------------- blocks

  /** `other` holds the bits and padding the journal gives no meaning to. */
  datatype RefFlags = RefFlags(escaped: bool, nonjournaled: bool, overwritten: bool, other: nat)

  datatype Ref = Ref(bn: nat, bchecksum: nat, bflags: RefFlags)

  datatype Flags = Flags(meta: bool, error: bool, corrupt: bool, start: bool, commit: bool, complete: bool, other: nat)

  const NO_FLAGS: Flags := Flags(false, false, false, false, false, false, 0)

  /** Bitwise or; which of the bits without a meaning are set is immaterial. */
  function OrFlags(f: Flags, g: Flags): Flags {
    Flags(f.meta || g.meta, f.error || g.error, f.corrupt || g.corrupt, f.start || g.start,
          f.commit || g.commit, f.complete || g.complete, f.other + g.other)
  }

  /** A journal block, read through the layout of a metablock; `refs` fills its reference slots. */
  datatype Block = Block(
    magic: nat, checksum: nat, padding: nat,
    sequence: Tid, tid: Tid, commitBoundary: Tid, completeBoundary: Tid,
    flags: Flags, nref: U16, refs: seq<Ref>)

  /**
   * Checksums are abstract: `meta` sums a block from offset 16, `data` sums all of it.
   * `stray` is whatever memory holds where a reference beyond the last slot would lie.
   */
  datatype Env = Env(meta: Block -> nat, data: Block -> nat, stray: (nat, nat) -> Ref)

  predicate Potential(c: Env, b: Block) {
    b.magic == JOURNALMAGIC && (b.checksum == NOCHECKSUM || b.checksum == c.meta(b))
  }

  function SetError(b: Block): Block {
    b.(flags := b.flags.(error := true))
  }

  function Unescape(b: Block, escaped: bool): Block {
    if escaped then b.(magic := JOURNALMAGIC) else b
  }
}
