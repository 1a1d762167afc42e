/**
 * `bufcache` (k-chkfs.cc), run by one kernel task at a time, with memory and the disk at hand.
 */
module BufCache {
  import opened Collections
  import opened CacheState

  /** Reference counts are kept, and so is what referenced slots hold. */
  ghost predicate Steady(c: Cache, c': Cache) {
    |c'.es| == |c.es| && forall j :: 0 <= j < |c.es| ==>
      c'.es[j].ref == c.es[j].ref && (c.es[j].ref > 0 ==> c'.es[j] == c.es[j].(dirty := c'.es[j].dirty))
  }

  /** Only dirty flags differ, and only by having been cleared. */
  ghost predicate Cleaned(es: seq<Entry>, es': seq<Entry>) {
    |es'| == |es| && forall j :: 0 <= j < |es| ==> es'[j] == es[j] || es'[j] == es[j].(dirty := false)
  }

  ghost predicate Keeps(c: Cache, c': Cache) {
    Valid(c') && SameContents(c, c') && Steady(c, c')
  }

  lemma KeepsTransitive(a: Cache, b: Cache, c: Cache)
    requires Keeps(a, b) && Keeps(b, c)
    ensures Keeps(a, c)
  {
  }

  predicate Evictable(c: Cache, i: nat) {
    i < |c.es| && c.es[i].ref == 0 && !c.es[i].dirty
  }

  /** `i` is the first slot of the list of used slots that may be evicted. */
  ghost predicate LeastRecent(c: Cache, i: nat) {
    exists k :: 0 <= k < |c.eList| && c.eList[k] == i && Evictable(c, i)
      && forall x :: 0 <= x < k ==> !Evictable(c, c.eList[x])
  }

  predicate Droppable(c: Cache, i: nat) {
    i < |c.es| && !c.es[i].pending && !c.es[i].dirty
  }

  /** `i` is the first slot of the prefetch list that has been delivered and is not dirty. */
  ghost predicate FirstDelivered(c: Cache, i: nat) {
    exists k :: 0 <= k < |c.prefList| && c.prefList[k] == i && Droppable(c, i)
      && forall x :: 0 <= x < k ==> !Droppable(c, c.prefList[x])
  }

  /** Slot `i` holds a loaded block that somebody has a reference to. */
  predicate Writable(c: Cache, i: nat) {
    i < |c.es| && c.es[i].bn.Some? && c.es[i].loaded && c.es[i].ref > 0
  }

  /** No slot can be given to another block. */
  ghost predicate Full(c: Cache) {
    forall j :: 0 <= j < |c.es| ==> c.es[j].bn.Some? && (c.es[j].ref > 0 || (j in c.prefList && c.es[j].pending))
  }

  // ---------------------------------------------------------------- runs

  /** A request to the cache; slots are named by index. */
  datatype Request =
    | Get(bn: nat, clean: bool)
    | Write(slot: nat, data: Data)
    | Put(slot: nat)
    | Sync(drop: bool)
    | Arrive(slot: nat)

  /**
   * What a request leads to: contents handed out, or no room for the block; contents written;
   * the disk as a sync leaves it; nothing to be seen.
   */
  datatype Event = Got(bn: nat, data: Data) | NoRoom | Wrote(bn: nat, data: Data) | Synced(disk: nat -> Data) | Nothing

  /** What was written to block `bn` last, at first what the disk held. */
  function LastWritten(disk0: nat -> Data, events: seq<Event>, bn: nat): Data {
    if events == [] then disk0(bn)
    else
      var last := events[|events| - 1];
      if last.Wrote? && last.bn == bn then last.data else LastWritten(disk0, events[..|events| - 1], bn)
  }

  /** The event agrees with what was written before it. */
  ghost predicate Agrees(disk0: nat -> Data, before: seq<Event>, event: Event) {
    match event
    case Got(bn, d) => Clean(d) == Clean(LastWritten(disk0, before, bn))
    case Synced(disk) => forall bn: nat :: Clean(disk(bn)) == Clean(LastWritten(disk0, before, bn))
    case _ => true
  }

  ghost predicate Coherent(disk0: nat -> Data, events: seq<Event>) {
    forall k :: 0 <= k < |events| ==> Agrees(disk0, events[..k], events[k])
  }

  lemma CoherentStep(disk0: nat -> Data, events: seq<Event>, event: Event)
    requires Coherent(disk0, events) && Agrees(disk0, events, event)
    ensures Coherent(disk0, events + [event])
    ensures forall bn: nat :: LastWritten(disk0, events + [event], bn) ==
              if event.Wrote? && event.bn == bn then event.data else LastWritten(disk0, events, bn)
  {
    var all := events + [event];
    assert all[..|events|] == events;
    forall k | 0 <= k < |all| ensures Agrees(disk0, all[..k], all[k]) {
      assert k < |events| ==> all[..k] == events[..k];
    }
  }

  /** What a request leads to, between cache states `c` and `c'`. */
  ghost predicate Answers(c: Cache, request: Request, event: Event, c': Cache) {
    match request
    case Get(bn, _) =>
      if event == NoRoom then Full(c') && forall i :: 0 <= i < |c.es| ==> c.es[i].bn != Some(bn)
      else exists i: nat :: LoadedAt(c', i, bn) && event == Got(bn, c'.es[i].buf)
    case Write(i, d) => event == if Writable(c, i) then Wrote(c.es[i].bn.value, d) else Nothing
    case Sync(_) => event == Synced(c'.disk)
    case _ => event == Nothing
  }

  /** The cache shows for every block what was written last. */
  ghost predicate Shows(c: Cache, disk0: nat -> Data, events: seq<Event>) {
    forall bn: nat :: Clean(Latest(c, bn)) == Clean(LastWritten(disk0, events, bn))
  }

  class BufCache {
    const e: array<Entry>
    var eList: seq<nat>
    var prefList: seq<nat>
    var dirtyList: seq<nat>
    var disk: nat -> Data

    function State(): Cache
      reads this, e
    {
      Cache(e[..], eList, prefList, dirtyList, disk)
    }

    /** After start-up: the superblock is in slot 0 for good. */
    constructor (disk: nat -> Data)
      ensures fresh(e) && Valid(State()) && e[0].bn == Some(SUPERBLOCK_BN) && e[0].ref == 1
      ensures this.disk == disk && forall bn: nat :: Latest(State(), bn) == disk(bn)
    {
      e := new Entry[NE](_ => EMPTY);
      eList, prefList, dirtyList := [0], [], [];
      this.disk := disk;
      new;
      e[0] := Entry(Some(SUPERBLOCK_BN), 1, true, false, false, false, false, disk(SUPERBLOCK_BN));
      assert forall bn: nat, i: nat :: LoadedAt(State(), i, bn) ==> i == 0 && bn == SUPERBLOCK_BN;
    }

    /** Write one dirty slot to the disk; `rest` is what then remains of the detached dirty list. */
    method WriteOut(i: nat, ghost rest: seq<nat>)
      requires dirtyList == [] && i < e.Length && Valid(State().(dirtyList := [i] + rest))
      modifies this`disk, e
      ensures var c, c' := old(State()).(dirtyList := [i] + rest), State().(dirtyList := rest);
              && Keeps(c, c') && Cleaned(c.es, c'.es)
    {
      ghost var c := State().(dirtyList := [i] + rest);
      assert i in c.dirtyList && c.dirtyList[1..] == rest;
      assert EntryOk(c.es[i], c.disk);
      var bn := e[i].bn.value;
      WriteBackKeeps(c, i, bn);
      var oldDisk, d := disk, e[i].buf;
      disk := (b: nat) => if b == bn then d else oldDisk(b);
      e[i] := e[i].(dirty := false);
      assert e[..] == c.es[i := c.es[i].(dirty := false)];
      ghost var c' := WriteBack(c, i, bn);
      assert State().(dirtyList := rest) == Cache(c'.es, c'.eList, c'.prefList, c'.dirtyList, disk);
    }

    /** `sync`, first part: write all dirty slots to the disk. */
    method WriteDirty()
      requires Valid(State())
      modifies this`dirtyList, this`disk, e
      ensures Keeps(old(State()), State()) && Cleaned(old(e[..]), e[..]) && dirtyList == []
    {
      ghost var c0 := State();
      var temp := dirtyList;
      dirtyList := [];
      while temp != []
        invariant dirtyList == [] && Keeps(c0, State().(dirtyList := temp)) && Cleaned(c0.es, e[..])
        decreases |temp|
      {
        var i := temp[0];
        assert temp == [i] + temp[1..];
        ghost var c := State().(dirtyList := temp);
        temp := temp[1..];
        assert c == State().(dirtyList := [i] + temp);
        assert i in c.dirtyList;
        WriteOut(i, temp);
        KeepsTransitive(c0, c, State().(dirtyList := temp));
      }
      assert State() == State().(dirtyList := temp);
    }

    /** Take a clean, unreferenced slot out of use. */
    method EvictSlot(i: nat)
      requires Valid(State()) && i < NE && e[i].bn.Some? && e[i].ref == 0 && !e[i].dirty
      modifies this`eList, this`prefList, e
      ensures State() == Evict(old(State()), i) && Keeps(old(State()), State())
    {
      EvictKeeps(State(), i);
      eList, prefList := Without(eList, i), Without(prefList, i);
      e[i] := EMPTY;
      assert e[..] == old(e[..])[i := EMPTY];
    }

    /** `sync`: afterwards the disk holds the contents of every block. */
    method Sync(drop: bool)
      requires Valid(State())
      modifies this, e
      ensures Keeps(old(State()), State()) && dirtyList == []
      ensures forall bn: nat :: Clean(disk(bn)) == Clean(Latest(old(State()), bn))
      ensures !drop ==> Cleaned(old(e[..]), e[..])
      ensures drop ==> forall j :: 0 <= j < NE && e[j].bn.Some? ==> e[j].ref > 0
    {
      ghost var c0 := State();
      WriteDirty();
      if drop {
        var i := 0;
        while i != NE
          invariant 0 <= i <= NE && Keeps(c0, State()) && dirtyList == []
          invariant forall j :: 0 <= j < i && e[j].bn.Some? ==> e[j].ref > 0
          decreases NE - i
        {
          if e[i].bn.Some? && e[i].ref == 0 {
            ghost var c := State();
            assert i !in dirtyList;
            EvictSlot(i);
            KeepsTransitive(c0, c, State());
          }
          i := i + 1;
        }
      }
      forall bn: nat ensures Clean(disk(bn)) == Clean(Latest(c0, bn)) {
        CleanMeansOnDisk(State(), bn);
      }
    }

    /** The slot that holds `bn`, or `NE`. */
    method FindBlock(bn: nat) returns (i: nat)
      requires e.Length == NE
      ensures i <= NE && (i < NE ==> e[i].bn == Some(bn))
      ensures i == NE ==> forall j :: 0 <= j < NE ==> e[j].bn != Some(bn)
    {
      i := 0;
      while i != NE
        invariant 0 <= i <= NE && forall j :: 0 <= j < i ==> e[j].bn != Some(bn)
        decreases NE - i
      {
        if e[i].bn == Some(bn) {
          return;
        }
        i := i + 1;
      }
    }

    /** The first empty slot, or `NE`; unreferenced dirty slots met on the way are written out. */
    method FindEmpty() returns (i: nat)
      requires Valid(State())
      modifies this, e
      ensures Keeps(old(State()), State()) && Cleaned(old(e[..]), e[..])
      ensures i <= NE && (i < NE ==> e[i].bn.None?)
      ensures forall j :: 0 <= j < i ==> e[j].bn.Some? && !(e[j].dirty && e[j].ref == 0)
    {
      ghost var c0 := State();
      i := 0;
      while i != NE && e[i].bn.Some?
        invariant 0 <= i <= NE && Keeps(c0, State()) && Cleaned(c0.es, e[..])
        invariant forall j :: 0 <= j < i ==> e[j].bn.Some? && !(e[j].dirty && e[j].ref == 0)
        decreases if dirtyList == [] then 0 else 1, NE - i
      {
        if e[i].dirty && e[i].ref == 0 {
          ghost var c := State();
          assert i in dirtyList;
          Sync(false);
          KeepsTransitive(c0, c, State());
          assert forall j :: 0 <= j < NE ==> j !in dirtyList;
          i := 0;
        }
        i := i + 1;
      }
    }

    /** The least recently used slot that is neither referenced nor dirty, evicted; or `NE`. */
    method EvictUsed() returns (i: nat)
      requires Valid(State())
      modifies this`eList, this`prefList, e
      ensures Keeps(old(State()), State())
      ensures i == NE ==> State() == old(State()) && forall j :: j in eList ==> !Evictable(State(), j)
      ensures i != NE ==> i < NE && LeastRecent(old(State()), i) && State() == Evict(old(State()), i)
    {
      var k := 0;
      while k != |eList|
        invariant 0 <= k <= |eList| && State() == old(State())
        invariant forall x :: 0 <= x < k ==> !Evictable(State(), eList[x])
        decreases |eList| - k
      {
        i := eList[k];
        assert i in eList;
        if e[i].ref == 0 && !e[i].dirty {
          assert LeastRecent(State(), i);
          EvictSlot(i);
          return;
        }
        k := k + 1;
      }
      i := NE;
    }

    /** The first block on the prefetch list that has been delivered and is not dirty, evicted; or `NE`. */
    method EvictPrefetched() returns (i: nat)
      requires Valid(State())
      modifies this`eList, this`prefList, e
      ensures Keeps(old(State()), State())
      ensures i == NE ==> State() == old(State()) && forall j :: j in prefList ==> !Droppable(State(), j)
      ensures i != NE ==> i < NE && FirstDelivered(old(State()), i) && State() == Evict(old(State()), i)
      ensures i != NE ==> old(e[i].ref) == 0
    {
      var k := 0;
      while k != |prefList|
        invariant 0 <= k <= |prefList| && State() == old(State())
        invariant forall x :: 0 <= x < k ==> !Droppable(State(), prefList[x])
        decreases |prefList| - k
      {
        i := prefList[k];
        assert i in prefList;
        if e[i].prefetched && !e[i].pending && !e[i].dirty {
          assert FirstDelivered(State(), i);
          EvictSlot(i);
          return;
        }
        k := k + 1;
      }
      i := NE;
    }

    /** Make a slot empty, if one is empty or can be evicted. */
    method MakeRoom() returns (i: nat)
      requires Valid(State())
      modifies this, e
      ensures Keeps(old(State()), State())
      ensures forall j :: 0 <= j < NE ==> e[j].bn == old(e[j].bn) || e[j].bn == None
      ensures i < NE ==> e[i].bn.None?
      ensures i >= NE ==> i == NE && Full(State())
    {
      ghost var c0 := State();
      i := FindEmpty();
      ghost var c1 := State();
      if i == NE {
        i := EvictUsed();
        KeepsTransitive(c0, c1, State());
        if i == NE {
          i := EvictPrefetched();
          KeepsTransitive(c0, c1, State());
        }
      }
    }

    /** `get_bufentry_slot`: the slot of block `bn`, found or made; -1 if there is no room. */
    method GetSlot(bn: nat) returns (r: int)
      requires Valid(State())
      modifies this, e
      ensures Keeps(old(State()), State())
      ensures r == -1 || (0 <= r < NE && e[r].bn == Some(bn) && r !in prefList && r == eList[|eList| - 1])
      ensures r == -1 ==> Full(State()) && forall j :: 0 <= j < NE ==> old(e[j].bn) != Some(bn)
      ensures r >= 0 && old(e[r].bn) == Some(bn) ==> e[..] == old(e[..])
      ensures r >= 0 && old(e[r].bn) != Some(bn) ==>
                e[r] == EMPTY.(bn := Some(bn), buf := e[r].buf) && forall j :: 0 <= j < NE ==> old(e[j].bn) != Some(bn)
    {
      ghost var c0 := State();
      var i := FindBlock(bn);
      if i < NE {
        TouchKeeps(c0, i);
        eList, prefList := Without(eList, i) + [i], Without(prefList, i);
        return i;
      }
      i := MakeRoom();
      if i == NE {
        return -1;
      }
      ghost var c := State();
      AssignKeeps(c, i, bn);
      assert EntryOk(c.es[i], c.disk);
      e[i] := e[i].(bn := Some(bn));
      eList, prefList := Without(eList, i) + [i], Without(prefList, i);
      assert State() == Assign(c, i, bn);
      KeepsTransitive(c0, c, State());
      return i;
    }

    /** Prefetch block `bn`; false if there is no room. */
    method PrefetchOne(bn: nat) returns (ok: bool)
      requires Valid(State())
      modifies this, e
      ensures Keeps(old(State()), State())
      ensures ok ==> exists i :: 0 <= i < NE && e[i].bn == Some(bn) && (e[i].loaded || e[i].loading)
      ensures !ok ==> Full(State())
    {
      ghost var c0 := State();
      var i := GetSlot(bn);
      if i == -1 {
        return false;
      }
      ghost var c1 := State();
      if e[i].ref == 0 {
        ToPrefetchKeeps(c1, i);
        eList, prefList := Without(eList, i), [i as nat] + Without(prefList, i);
        e[i] := e[i].(prefetched := true);
        assert State() == ToPrefetch(c1, i);
      }
      ghost var c2 := State();
      assert EntryOk(c2.es[i], c2.disk);
      StartLoadKeeps(c2, i);
      e[i] := StartLoad(e[i], disk);
      assert State() == c2.(es := c2.es[i := StartLoad(c2.es[i], c2.disk)]);
      KeepsTransitive(c0, c1, c2);
      KeepsTransitive(c0, c2, State());
      return true;
    }

    /** Prefetch the blocks after `bn`. */
    method Prefetch(bn: nat)
      requires Valid(State())
      modifies this, e
      ensures Keeps(old(State()), State())
    {
      ghost var c0 := State();
      var n := 1;
      while n <= N_PREFETCH
        invariant Keeps(c0, State())
        decreases N_PREFETCH - n
      {
        ghost var c := State();
        var ok := PrefetchOne(bn + n);
        KeepsTransitive(c0, c, State());
        if !ok {
          return;
        }
        n := n + 1;
      }
    }

    /** Take a reference to slot `i`, except for the superblock, and start its load if need be. */
    method Reference(i: nat, bn: nat) returns (started: bool)
      requires Valid(State()) && i < NE && e[i].bn == Some(bn) && i !in prefList
      modifies e
      ensures Valid(State()) && SameContents(old(State()), State())
      ensures started == !old(e[i].loaded || e[i].loading)
      ensures e[i] == StartLoad(old(e[i]), disk).(ref := old(e[i].ref) + if bn == SUPERBLOCK_BN then 0 else 1)
      ensures forall j :: 0 <= j < NE && j != i ==> e[j] == old(e[j])
    {
      ghost var c := State();
      started := !(e[i].loaded || e[i].loading);
      var counted := if bn != SUPERBLOCK_BN then e[i].ref + 1 else e[i].ref;
      assert EntryOk(c.es[i], c.disk);
      StartLoadKeeps(c, i);
      e[i] := StartLoad(e[i], disk);
      ghost var c1 := State();
      assert c1 == c.(es := c.es[i := StartLoad(c.es[i], c.disk)]);
      SetCounts(c1, i, c1.es[i].(ref := counted));
      e[i] := e[i].(ref := counted);
      assert State() == c1.(es := c1.es[i := c1.es[i].(ref := counted)]);
    }

    /** Wait for the load of slot `i`, clean the block if asked to, and take it off the prefetch list. */
    method Finish(i: nat, bn: nat, clean: bool)
      requires Valid(State()) && i < NE && e[i].bn == Some(bn) && (e[i].loaded || e[i].loading) && i !in prefList
      modifies this`eList, this`prefList, e
      ensures Valid(State()) && SameContents(old(State()), State())
      ensures LoadedAt(State(), i, bn) && e[i].ref == old(e[i].ref)
      ensures old(e[i].loaded) ==> e[i] == old(e[i])
      ensures old(e[i].loading) ==> e[i].buf == (if clean then Clean(old(e[i].buf)) else old(e[i].buf))
      ensures forall j :: 0 <= j < NE && j != i ==> e[j] == old(e[j])
    {
      if e[i].loading {
        ghost var c := State();
        DeliverKeeps(c, i, bn, clean);
        e[i] := Delivered(e[i], clean);
        assert State() == c.(es := c.es[i := Delivered(c.es[i], clean)]);
        if e[i].prefetched {
          ghost var c1 := State();
          TouchKeeps(c1, i);
          eList, prefList := Without(eList, i) + [i], Without(prefList, i);
          ghost var c2 := State();
          assert c2 == Touch(c1, i) && EntryOk(c2.es[i], c2.disk);
          SetCounts(c2, i, c2.es[i].(prefetched := false));
          e[i] := e[i].(prefetched := false);
          assert State() == c2.(es := c2.es[i := c2.es[i].(prefetched := false)]);
        }
      }
    }

    /** Slots other than `i` keep their reference counts and, if referenced, what they hold. */
    twostate predicate OthersSteady(i: nat)
      requires e.Length == NE
      reads this, e
    {
      forall j :: 0 <= j < NE && j != i ==>
        e[j].ref == old(e[j].ref) && (old(e[j].ref) > 0 ==> e[j] == old(e[j]).(dirty := e[j].dirty))
    }

    /**
     * `get_disk_entry`: a reference to the slot of block `bn`, holding its latest contents; none
     * if there is no room.
     */
    method GetDiskEntry(bn: nat, clean: bool) returns (r: Option<nat>)
      requires Valid(State())
      modifies this, e
      ensures Valid(State()) && SameContents(old(State()), State())
      ensures r.None? ==>
                && Keeps(old(State()), State()) && Full(State())
                && forall j :: 0 <= j < NE ==> old(e[j].bn) != Some(bn)
      ensures r.Some? ==>
                && r.value < NE && LoadedAt(State(), r.value, bn)
                && Clean(e[r.value].buf) == Clean(Latest(old(State()), bn))
                && (old(LoadedAt(State(), r.value, bn)) ==> e[r.value].buf == old(e[r.value].buf))
                && (!old(LoadedAt(State(), r.value, bn)) && clean ==> e[r.value].buf == Clean(e[r.value].buf))
                && e[r.value].ref == old(e[r.value].ref) + (if bn == SUPERBLOCK_BN then 0 else 1)
                && OthersSteady(r.value)
    {
      ghost var c0 := State();
      var i := GetSlot(bn);
      if i == -1 {
        return None;
      }
      var started := Reference(i, bn);
      if started && bn != SUPERBLOCK_BN {
        Prefetch(bn);
        assert i !in prefList by {
          assert e[i].ref > 0;
        }
      }
      Finish(i, bn, clean);
      LatestIs(State(), i, bn);
      return Some(i);
    }

    /** `put_entry`. */
    method PutEntry(i: nat)
      requires Valid(State()) && i < NE && e[i].bn.Some? && e[i].ref > 0
      modifies e
      ensures Valid(State()) && SameContents(old(State()), State())
      ensures var ref := old(e[i].ref) - if e[i].bn == Some(SUPERBLOCK_BN) then 0 else 1;
              e[..] == old(e[..])[i := old(e[i]).(ref := ref)]
    {
      if e[i].bn != Some(SUPERBLOCK_BN) {
        ghost var c := State();
        assert EntryOk(c.es[i], c.disk);
        SetCounts(c, i, c.es[i].(ref := c.es[i].ref - 1));
        e[i] := e[i].(ref := e[i].ref - 1);
        assert e[..] == c.es[i := c.es[i].(ref := c.es[i].ref - 1)];
      }
    }

    /** `get_write`, a store to the block, and `put_write`. */
    method WriteEntry(i: nat, d: Data)
      requires Valid(State()) && i < NE && e[i].bn.Some? && e[i].loaded && e[i].ref > 0
      modifies this`dirtyList, e
      ensures Valid(State()) && Steady(old(State()).(es := old(e[..])[i := old(e[i]).(buf := d)]), State())
      ensures forall b: nat :: Latest(State(), b) == if e[i].bn == Some(b) then d else Latest(old(State()), b)
    {
      ghost var c := State();
      WriteKeeps(c, i, e[i].bn.value, d);
      if !e[i].dirty {
        dirtyList := [i] + dirtyList;
      }
      e[i] := e[i].(dirty := true);
      e[i] := e[i].(buf := d);
      assert State() == Written(c, i, d);
    }

    /** The disk delivers a block. */
    method Deliver(i: nat)
      requires Valid(State()) && i < NE && e[i].loading
      modifies e
      ensures Valid(State()) && SameContents(old(State()), State())
      ensures e[..] == old(e[..])[i := old(e[i]).(pending := false)]
    {
      ghost var c := State();
      assert EntryOk(c.es[i], c.disk);
      SetCounts(c, i, c.es[i].(pending := false));
      e[i] := e[i].(pending := false);
      assert e[..] == c.es[i := c.es[i].(pending := false)];
    }

    /** Serve one request; a write or release is ignored unless the slot is referenced. */
    method Serve(request: Request, ghost disk0: nat -> Data, ghost events: seq<Event>) returns (event: Event)
      requires Valid(State()) && Shows(State(), disk0, events) && Coherent(disk0, events)
      modifies this, e
      ensures Valid(State()) && Shows(State(), disk0, events + [event]) && Coherent(disk0, events + [event])
      ensures Answers(old(State()), request, event, State())
    {
      event := Nothing;
      match request {
        case Get(bn, clean) =>
          var r := GetDiskEntry(bn, clean);
          event := NoRoom;
          if r.Some? {
            event := Got(bn, e[r.value].buf);
            assert LoadedAt(State(), r.value, bn);
          }
        case Write(i, d) =>
          if i < NE && e[i].bn.Some? && e[i].loaded && e[i].ref > 0 {
            event := Wrote(e[i].bn.value, d);
            WriteEntry(i, d);
          }
        case Put(i) =>
          if i < NE && e[i].bn.Some? && e[i].ref > 0 {
            PutEntry(i);
          }
        case Sync(drop) =>
          this.Sync(drop);
          event := Synced(disk);
        case Arrive(i) =>
          if i < NE && e[i].loading {
            Deliver(i);
          }
      }
      CoherentStep(disk0, events, event);
    }
  }

  /**
   * Sequential coherence: over any sequence of requests from start-up, every block handed out
   * holds what was written to it last, and every sync leaves the disk holding the same, apart
   * from inode fields that only matter in memory. `states[k]` is the cache before request `k`: a
   * block is refused only if it is not cached and no slot can be made free, and every write to a
   * loaded, referenced slot takes effect.
   */
  method RunRequests(disk0: nat -> Data, requests: seq<Request>) returns (states: seq<Cache>, events: seq<Event>)
    ensures |events| == |requests| && |states| == |requests| + 1 && Coherent(disk0, events)
    ensures forall k :: 0 <= k <= |requests| ==> Valid(states[k])
    ensures forall k :: 0 <= k < |requests| ==> Answers(states[k], requests[k], events[k], states[k + 1])
  {
    var cache := new BufCache(disk0);
    states, events := [cache.State()], [];
    for k := 0 to |requests|
      invariant fresh(cache) && fresh(cache.e) && |events| == k && |states| == k + 1 && states[k] == cache.State()
      invariant Valid(cache.State()) && Shows(cache.State(), disk0, events) && Coherent(disk0, events)
      invariant forall j :: 0 <= j <= k ==> Valid(states[j])
      invariant forall j :: 0 <= j < k ==> Answers(states[j], requests[j], events[j], states[j + 1])
    {
      var event := cache.Serve(requests[k], disk0, events);
      states, events := states + [cache.State()], events + [event];
    }
  }
}
