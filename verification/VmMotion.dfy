/**
 * Moving over virtual addresses (k-vmiter.cc): what `step` and `next` pass over, and what
 * `check_range` answers.
 */
module VmMotion {
  import opened Collections
  import opened Arithmetic
  import opened PageTable

  /** One past the last address of the region of `va`, not reduced to 64 bits. */
  function UpTo(va: nat, level: nat): nat
    requires level <= 4
  {
    (va / Size(level) + 1) * Size(level)
  }

  lemma SameQuotient(a: nat, b: nat, s: nat)
    requires s > 0 && a / s == b / s
    ensures b % s - a % s == b - a
  {
  }

  lemma InRegion(va: nat, v: nat, level: nat)
    requires level <= 4 && va <= v
    ensures v < UpTo(va, level) <==> v / Size(level) == va / Size(level)
    ensures va < UpTo(va, level)
    ensures va < VA_END ==>
              && UpTo(va, level) <= VA_END
              && RegionEnd(va, level) == if UpTo(va, level) == VA_END then 0 else UpTo(va, level)
  {
    var s, q := Size(level), va / Size(level);
    assert va == q * s + va % s && v == v / s * s + v % s;
    MulMonotone(q, v / s, s);
    if v / s >= q + 1 {
      MulMonotone(q + 1, v / s, s);
    }
    if va < VA_END {
      assert VA_END % s == 0;
      assert VA_END == VA_END / s * s;
      if q >= VA_END / s {
        MulMonotone(VA_END / s, q, s);
      }
      MulMonotone(q + 1, VA_END / s, s);
    }
  }

  /** The whole region where a walk ends translates alike: `last_va` is one past it. */
  lemma StepSpan(mem: Mem, root: nat, va: nat, v: nat)
    requires va <= v < UpTo(va, Walk(mem, root, va).level)
    ensures Walk(mem, root, v) == Walk(mem, root, va)
    ensures forall p :: Permitted(mem, root, v, p) <==> Permitted(mem, root, va, p)
    ensures match Translate(mem, root, va)
            case Absent => Translate(mem, root, v) == Absent
            case Present(pa, perm) => Translate(mem, root, v) == Present(pa + (v - va), perm)
  {
    var l := Walk(mem, root, va).level;
    InRegion(va, v, l);
    SameRegionSamePrefix(va, v, l);
    SameRegion(mem, root, va, v);
    SameQuotient(va, v, Size(l));
  }

  /** The level that `next` moves by. */
  function NextLevel(mem: Mem, root: nat, va: nat): nat {
    if Walk(mem, root, va).level > 0 && Translate(mem, root, va) == Absent then Walk(mem, root, va).level else 0
  }

  /** `next` skips no present page: what it passes over is the current page, or not mapped. */
  lemma NextSkipsNothing(mem: Mem, root: nat, va: nat, v: nat)
    requires va <= v < UpTo(va, NextLevel(mem, root, va))
    ensures v / Size(0) == va / Size(0) || Translate(mem, root, v) == Absent
  {
    if NextLevel(mem, root, va) > 0 {
      StepSpan(mem, root, va, v);
    } else {
      InRegion(va, v, 0);
    }
  }

  // ---------------------------------------------------------------- check_range

  ghost predicate AllPermitted(mem: Mem, root: nat, start: nat, end: nat, p: set<nat>) {
    forall v :: start <= v < end ==> Permitted(mem, root, v, p)
  }

  /** The region of the last address before `end` reaches the top of the address space. */
  predicate ReachesTop(mem: Mem, root: nat, end: nat)
    requires 0 < end
  {
    UpTo(end - 1, Walk(mem, root, end - 1).level) == VA_END
  }

  /** The loop of `check_range` cut off after `n` turns. */
  function CheckLoop(mem: Mem, root: nat, va: nat, end: nat, p: set<nat>, n: nat): Option<bool>
    decreases n
  {
    if va >= end then Some(true)
    else if !Permitted(mem, root, va, p) then Some(false)
    else if n == 0 then None
    else CheckLoop(mem, root, RegionEnd(va, Walk(mem, root, va).level), end, p, n - 1)
  }

  /** Where one turn of the loop leads. */
  lemma CheckMoves(mem: Mem, root: nat, va: nat, end: nat)
    requires va < end < VA_END
    ensures var l := Walk(mem, root, va).level;
            && (ReachesTop(mem, root, end) ==> RegionEnd(va, l) < end)
            && (!ReachesTop(mem, root, end) ==> va < RegionEnd(va, l) == UpTo(va, l))
  {
    var l := Walk(mem, root, va).level;
    InRegion(va, va, l);
    InRegion(va, end - 1, l);
    if UpTo(va, l) >= end {
      StepSpan(mem, root, va, end - 1);
      assert UpTo(end - 1, l) == UpTo(va, l);
    } else {
      InRegion(end - 1, end - 1, Walk(mem, root, end - 1).level);
    }
  }

  lemma CheckCovers(mem: Mem, root: nat, va: nat, end: nat, p: set<nat>)
    requires Permitted(mem, root, va, p)
    ensures AllPermitted(mem, root, va, end, p) <==>
            AllPermitted(mem, root, UpTo(va, Walk(mem, root, va).level), end, p)
  {
    var top := UpTo(va, Walk(mem, root, va).level);
    InRegion(va, va, Walk(mem, root, va).level);
    forall v | va <= v < top ensures Permitted(mem, root, v, p) {
      StepSpan(mem, root, va, v);
    }
  }

  /** One turn of the loop. */
  lemma CheckTurn(mem: Mem, root: nat, va: nat, end: nat, p: set<nat>)
    requires va < end < VA_END && Permitted(mem, root, va, p)
    ensures var va' := RegionEnd(va, Walk(mem, root, va).level);
            && (ReachesTop(mem, root, end) ==> va' < end)
            && (!ReachesTop(mem, root, end) ==>
                  va < va' && (AllPermitted(mem, root, va, end, p) <==> AllPermitted(mem, root, va', end, p)))
  {
    CheckMoves(mem, root, va, end);
    CheckCovers(mem, root, va, end, p);
  }

  lemma {:induction false} CheckBelowTop(mem: Mem, root: nat, va: nat, end: nat, p: set<nat>, n: nat)
    requires end < VA_END && (va < end ==> !ReachesTop(mem, root, end))
    ensures CheckLoop(mem, root, va, end, p, n) in {None, Some(AllPermitted(mem, root, va, end, p))}
    ensures n + va >= end ==> CheckLoop(mem, root, va, end, p, n) != None
    decreases n
  {
    if va < end && Permitted(mem, root, va, p) {
      CheckTurn(mem, root, va, end, p);
      if n > 0 {
        CheckBelowTop(mem, root, RegionEnd(va, Walk(mem, root, va).level), end, p, n - 1);
      }
    }
  }

  lemma {:induction false} CheckAtTop(mem: Mem, root: nat, va: nat, end: nat, p: set<nat>, n: nat)
    requires va < end < VA_END && ReachesTop(mem, root, end)
    ensures CheckLoop(mem, root, va, end, p, n) != Some(true)
    ensures AllPermitted(mem, root, 0, end, p) ==> CheckLoop(mem, root, va, end, p, n) == None
    decreases n
  {
    if Permitted(mem, root, va, p) && n > 0 {
      CheckTurn(mem, root, va, end, p);
      CheckAtTop(mem, root, RegionEnd(va, Walk(mem, root, va).level), end, p, n - 1);
    }
  }

  /** How far address `v` is ahead of `va`, for an iterator that wraps around at the top. */
  function Ahead(va: nat, v: nat): nat
    requires va < VA_END
  {
    if va <= v then v - va else VA_END - va + v
  }

  /** A turn from a permitted address passes over no address without the permissions. */
  lemma CheckNears(mem: Mem, root: nat, va: nat, p: set<nat>, v: nat)
    requires va < VA_END && v < VA_END && Permitted(mem, root, va, p) && !Permitted(mem, root, v, p)
    ensures var va' := RegionEnd(va, Walk(mem, root, va).level); va' < VA_END && Ahead(va', v) < Ahead(va, v)
  {
    var l := Walk(mem, root, va).level;
    InRegion(va, va, l);
    if va <= v < UpTo(va, l) {
      StepSpan(mem, root, va, v);
    }
  }

  /** So an address without the permissions, before or after `va`, is found in the end. */
  lemma {:induction false} CheckFinds(mem: Mem, root: nat, va: nat, end: nat, p: set<nat>, v: nat, n: nat)
    requires va < end < VA_END && ReachesTop(mem, root, end)
    requires v < end && !Permitted(mem, root, v, p) && n >= Ahead(va, v)
    ensures CheckLoop(mem, root, va, end, p, n) == Some(false)
    decreases n
  {
    if Permitted(mem, root, va, p) {
      CheckNears(mem, root, va, p, v);
      CheckMoves(mem, root, va, end);
      CheckFinds(mem, root, RegionEnd(va, Walk(mem, root, va).level), end, p, v, n - 1);
    }
  }

  /** The range ends below the top of the address space, and so does the region of its last byte. */
  predicate ClearOfTop(mem: Mem, root: nat, start: nat, sz: nat) {
    start + sz < VA_END && (sz > 0 ==> !ReachesTop(mem, root, start + sz))
  }

  /** The range reaches the top, and no address below its end would stop the iterator. */
  ghost predicate GoesRound(mem: Mem, root: nat, start: nat, sz: nat, p: set<nat>) {
    start + sz < VA_END && !ClearOfTop(mem, root, start, sz) && AllPermitted(mem, root, 0, start + sz, p)
  }

  /** Clear of the top, `sz` turns are enough for the right answer; at the top, none may be. */
  lemma CheckEnds(mem: Mem, root: nat, start: nat, sz: nat, p: set<nat>, n: nat)
    requires start < VA_END
    ensures ClearOfTop(mem, root, start, sz) && n >= sz ==>
              CheckLoop(mem, root, start, (start + sz) % VA_END, p, n)
              == Some(AllPermitted(mem, root, start, start + sz, p))
    ensures GoesRound(mem, root, start, sz, p) ==>
              CheckLoop(mem, root, start, (start + sz) % VA_END, p, n) == None
  {
    if start + sz < VA_END {
      assert (start + sz) % VA_END == start + sz;
      if ClearOfTop(mem, root, start, sz) {
        CheckBelowTop(mem, root, start, start + sz, p, n);
      } else {
        CheckAtTop(mem, root, start, start + sz, p, n);
      }
    }
  }

  ghost predicate Returns(mem: Mem, root: nat, start: nat, end: nat, p: set<nat>, r: bool) {
    exists n: nat :: CheckLoop(mem, root, start, end, p, n) == Some(r)
  }

  /** The loop never ends. */
  ghost predicate Hangs(mem: Mem, root: nat, start: nat, end: nat, p: set<nat>) {
    forall n: nat :: CheckLoop(mem, root, start, end, p, n) == None
  }

  /** Clear of the top the loop always ends, with true if and only if every byte has the permissions. */
  lemma CheckRangeClear(mem: Mem, root: nat, start: nat, end: nat, p: set<nat>)
    requires start <= end < VA_END && (start < end ==> !ReachesTop(mem, root, end))
    ensures Returns(mem, root, start, end, p, true) <==> AllPermitted(mem, root, start, end, p)
    ensures Returns(mem, root, start, end, p, false) <==> !AllPermitted(mem, root, start, end, p)
    ensures !Hangs(mem, root, start, end, p)
  {
    forall n: nat
      ensures CheckLoop(mem, root, start, end, p, n) in {None, Some(AllPermitted(mem, root, start, end, p))}
    {
      CheckBelowTop(mem, root, start, end, p, n);
    }
    CheckBelowTop(mem, root, start, end, p, end - start);
  }

  /**
   * If the region of the last byte ends at the top, the iterator wraps to address 0 and goes round:
   * the loop answers false if some address below `end`, in the range or not, lacks the permissions,
   * and otherwise never ends. It never answers true.
   */
  lemma CheckRangeAtTop(mem: Mem, root: nat, start: nat, end: nat, p: set<nat>)
    requires start < end < VA_END && ReachesTop(mem, root, end)
    ensures !Returns(mem, root, start, end, p, true)
    ensures Returns(mem, root, start, end, p, false) <==> !AllPermitted(mem, root, 0, end, p)
    ensures Hangs(mem, root, start, end, p) <==> AllPermitted(mem, root, 0, end, p)
  {
    forall n: nat
      ensures CheckLoop(mem, root, start, end, p, n) != Some(true)
      ensures AllPermitted(mem, root, 0, end, p) ==> CheckLoop(mem, root, start, end, p, n) == None
    {
      CheckAtTop(mem, root, start, end, p, n);
    }
    if !AllPermitted(mem, root, 0, end, p) {
      var v: nat :| v < end && !Permitted(mem, root, v, p);
      CheckFinds(mem, root, start, end, p, v, Ahead(start, v));
    }
  }

  /**
   * What `check_range(sz, p)` at `start` comes to, for every start and size. If the end of the
   * range, computed in 64 bits, has wrapped, nothing is read and the answer is true. Clear of the
   * top the answer is right. At the top it is false or there is none.
   */
  lemma CheckRangeAnswers(mem: Mem, root: nat, start: nat, sz: nat, p: set<nat>)
    requires start < VA_END && sz < VA_END
    ensures var end, wraps := (start + sz) % VA_END, start + sz >= VA_END;
            var clear, from := ClearOfTop(mem, root, start, sz), if ClearOfTop(mem, root, start, sz) then start else 0;
            var all := AllPermitted(mem, root, from, start + sz, p);
            && (Returns(mem, root, start, end, p, true) <==> wraps || (clear && all))
            && (Returns(mem, root, start, end, p, false) <==> !wraps && !all)
            && (Hangs(mem, root, start, end, p) <==> GoesRound(mem, root, start, sz, p))
  {
    var end := (start + sz) % VA_END;
    if start + sz >= VA_END {
      assert end == start + sz - VA_END < start;
      assert forall n: nat :: CheckLoop(mem, root, start, end, p, n) == Some(true);
      assert CheckLoop(mem, root, start, end, p, 0) == Some(true);
    } else if ClearOfTop(mem, root, start, sz) {
      CheckRangeClear(mem, root, start, end, p);
    } else {
      CheckRangeAtTop(mem, root, start, end, p);
    }
  }

  /** With everything mapped by large pages, checking the last page never ends. */
  lemma CheckRangeTopExample()
    ensures exists mem: Mem, root: nat, start: nat, end: nat ::
              start < end < VA_END && AllPermitted(mem, root, start, end, PWU) && Hangs(mem, root, start, end, PWU)
  {
    var mem: Mem := (f: nat, i: nat) => Word(0, PWU + {PTE_PS}, 0);
    var start, end := VA_END - 4096, VA_END - 4095;
    forall v: nat ensures Walk(mem, 0, v) == Pos(0, 3, ALL_FLAGS) && Permitted(mem, 0, v, PWU) {
    }
    assert ReachesTop(mem, 0, end);
    CheckRangeAtTop(mem, 0, start, end, PWU);
  }
}
