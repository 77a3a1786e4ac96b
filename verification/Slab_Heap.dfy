/** The zones of the slab heap: class lists, parked zones, and the pages they occupy, as values. */
module SlabState {
  import opened Queues
  import opened SizeClass
  import opened SlabZone
  import opened PageOwners
  import PageRuns

  /** A memusage entry: page type and size field. */
  datatype Usage = FreePage | Small(offset: nat) | Large(count: nat)

  type ZoneTable = map<nat, Zone>
  type UsageTable = map<nat, Usage>

  /** zone_array, zone_free and the zone headers, keyed by the page a zone starts in. */
  datatype Zones = Zones(lists: seq<Queue>, parked: Queue, table: ZoneTable)

  predicate Live(zs: Zones, z: nat) { z in zs.table && z !in zs.parked }

  /** Chunk `c` of zone `z` is handed out. */
  predicate Allocated(zs: Zones, z: nat, c: nat) { Live(zs, z) && InUse(zs.table[z], c) }

  /** A zone is on the list of its class exactly when it is not parked and has a free chunk; on no other list. */
  predicate ListedAt(zs: Zones, z: nat)
    requires z in zs.table
  {
    forall i :: 0 <= i < |zs.lists| ==> (z in zs.lists[i] <==> z !in zs.parked && zs.table[z].index == i && zs.table[z].nfree > 0)
  }

  predicate ListOk(q: Queue, table: ZoneTable) {
    NoDup(q) && forall z :: z in q ==> z in table
  }

  predicate Listed(zs: Zones) {
    && |zs.lists| == NZONES && ListOk(zs.parked, zs.table)
    && (forall i :: 0 <= i < |zs.lists| ==> ListOk(zs.lists[i], zs.table))
    && (forall z :: z in zs.table ==> ListedAt(zs, z))
  }

  predicate ZonesOk(zs: Zones, zoneSize: nat) {
    forall z :: z in zs.table && z !in zs.parked ==> ZoneOk(zs.table[z], zoneSize)
  }

  /** The pages of zone `z` are its own, and each memusage entry says how far into the zone the page is. */
  ghost predicate Held(z: nat, owned: Owned, usage: UsageTable, zonePages: nat) {
    && z in owned && owned[z] == zonePages
    && forall k :: z <= k < z + zonePages ==> k in usage && usage[k] == Small(k - z)
  }

  ghost predicate AllHeld(table: ZoneTable, owned: Owned, usage: UsageTable, zonePages: nat) {
    forall z :: z in table ==> Held(z, owned, usage, zonePages)
  }

  // ----- the list operations -----

  /** The record of a listed zone changes without its free count reaching zero. */
  lemma RecordKeeps(zs: Zones, z: nat, r: Zone)
    requires Listed(zs) && z in zs.table && r.index == zs.table[z].index
    requires (r.nfree > 0 <==> zs.table[z].nfree > 0)
    ensures Listed(zs.(table := zs.table[z := r]))
  {
    var ys := zs.(table := zs.table[z := r]);
    forall i | 0 <= i < |ys.lists|
      ensures ListOk(ys.lists[i], ys.table)
    {
      assert ListOk(zs.lists[i], zs.table);
    }
    forall y | y in ys.table
      ensures ListedAt(ys, y)
    {
      assert ListedAt(zs, y);
    }
  }

  /** The first zone of a list runs out of chunks and leaves it. */
  lemma ExhaustKeeps(zs: Zones, i: nat, r: Zone)
    requires Listed(zs) && i < NZONES && zs.lists[i] != [] && r.nfree == 0
    requires zs.lists[i][0] in zs.table && r.index == zs.table[zs.lists[i][0]].index
    ensures var z := zs.lists[i][0];
            Listed(Zones(zs.lists[i := zs.lists[i][1..]], zs.parked, zs.table[z := r]))
  {
    var z, q := zs.lists[i][0], zs.lists[i];
    var ys := Zones(zs.lists[i := q[1..]], zs.parked, zs.table[z := r]);
    assert q == [z] + q[1..] && ListOk(q, zs.table);
    assert z !in q[1..] && forall y :: y in q <==> y == z || y in q[1..];
    assert ListedAt(zs, z);
    forall j | 0 <= j < |ys.lists|
      ensures ListOk(ys.lists[j], ys.table)
    {
      assert ListOk(zs.lists[j], zs.table);
    }
    forall y | y in ys.table
      ensures ListedAt(ys, y)
    {
      if y != z { assert ListedAt(zs, y); }
    }
  }

  /** A zone that is on no list, or is new, goes to the front of the list of its class. */
  lemma FrontKeeps(zs: Zones, z: nat, r: Zone)
    requires Listed(zs) && r.index < NZONES && r.nfree > 0 && z !in zs.parked
    requires z in zs.table ==> zs.table[z].nfree == 0
    ensures Listed(Zones(zs.lists[r.index := [z] + zs.lists[r.index]], zs.parked, zs.table[z := r]))
  {
    var i := r.index;
    var ys := Zones(zs.lists[i := [z] + zs.lists[i]], zs.parked, zs.table[z := r]);
    forall j | 0 <= j < |zs.lists|
      ensures z !in zs.lists[j]
    {
      assert ListOk(zs.lists[j], zs.table);
      if z in zs.table { assert ListedAt(zs, z); }
    }
    forall j | 0 <= j < |ys.lists|
      ensures ListOk(ys.lists[j], ys.table)
    {
      assert ListOk(zs.lists[j], zs.table);
    }
    forall y | y in ys.table
      ensures ListedAt(ys, y)
    {
      if y != z { assert ListedAt(zs, y); }
    }
  }

  /** A zone leaves its list for the parked ones. */
  lemma ParkKeeps(zs: Zones, z: nat)
    requires Listed(zs) && Live(zs, z) && zs.table[z].index < NZONES
    ensures var i := zs.table[z].index;
            Listed(Zones(zs.lists[i := Queues.Remove(zs.lists[i], z)], [z] + zs.parked, zs.table))
  {
    var i := zs.table[z].index;
    var ys := Zones(zs.lists[i := Queues.Remove(zs.lists[i], z)], [z] + zs.parked, zs.table);
    assert ListOk(zs.lists[i], zs.table);
    RemoveMembers(zs.lists[i], z);
    forall j | 0 <= j < |ys.lists|
      ensures ListOk(ys.lists[j], ys.table)
    {
      assert ListOk(zs.lists[j], zs.table);
    }
    forall y | y in ys.table
      ensures ListedAt(ys, y)
    {
      assert ListedAt(zs, y);
    }
  }

  /** The first parked zone stops being one: its pages are given back, or it is set up again. */
  lemma UnparkKeeps(zs: Zones)
    requires Listed(zs) && zs.parked != []
    ensures var z := zs.parked[0];
            && Listed(Zones(zs.lists, zs.parked[1..], zs.table - {z})) && z in zs.table && z !in zs.parked[1..]
            && forall y, c :: Allocated(Zones(zs.lists, zs.parked[1..], zs.table - {z}), y, c) <==> Allocated(zs, y, c)
  {
    var z := zs.parked[0];
    var ys := Zones(zs.lists, zs.parked[1..], zs.table - {z});
    assert zs.parked == [z] + zs.parked[1..];
    assert z !in zs.parked[1..] && forall y :: y in zs.parked <==> y == z || y in zs.parked[1..];
    assert ListedAt(zs, z);
    forall j | 0 <= j < |ys.lists|
      ensures ListOk(ys.lists[j], ys.table)
    {
      assert ListOk(zs.lists[j], zs.table);
    }
    forall y | y in ys.table
      ensures ListedAt(ys, y)
    {
      assert ListedAt(zs, y);
    }
  }

  /** A zone with all chunks free has none in use. */
  lemma AllFreeNoneUsed(z: Zone, zoneSize: nat, c: nat)
    requires ZoneOk(z, zoneSize) && z.nfree == z.nmax
    ensures !InUse(z, c)
  {
    if InUse(z, c) {
      InsertMembers(z.chain, 0, c);
      ChainBound(InsertAt(z.chain, 0, c), z.uindex + 1);
    }
  }

  /** A large allocation has its page count in the memusage entry of its first page. */
  ghost predicate LargesOk(larges: set<nat>, table: ZoneTable, owned: Owned, usage: UsageTable) {
    forall a :: a in larges ==> a in owned && a !in table && a in usage && usage[a] == Large(owned[a])
  }

  // ----- what the allocator does to the zones -----

  /** Exactly chunk `c` of zone `z` was handed out, and it was free. */
  ghost predicate OneMore(zs: Zones, ys: Zones, z: nat, c: nat) {
    !Allocated(zs, z, c) && forall y, d :: Allocated(ys, y, d) <==> Allocated(zs, y, d) || (y == z && d == c)
  }

  /** Exactly chunk `c` of zone `z` came back. */
  ghost predicate OneLess(zs: Zones, ys: Zones, z: nat, c: nat) {
    Allocated(zs, z, c) && forall y, d :: Allocated(ys, y, d) <==> Allocated(zs, y, d) && !(y == z && d == c)
  }

  ghost predicate SlabOk(zs: Zones, zoneSize: nat) { Listed(zs) && ZonesOk(zs, zoneSize) }

  lemma HeadFacts(zs: Zones, zi: nat, zoneSize: nat)
    requires SlabOk(zs, zoneSize) && zi < NZONES
    ensures zi < |zs.lists|
    ensures zs.lists[zi] != [] ==>
      var z := zs.lists[zi][0];
      && Live(zs, z) && zs.table[z].index == zi && zs.table[z].nfree > 0 && ZoneOk(zs.table[z], zoneSize)
      && (zs.table[z].uindex + 1 == zs.table[z].nmax ==> zs.table[z].chain != [])
  {
    if zs.lists[zi] != [] {
      var z := zs.lists[zi][0];
      assert z in zs.lists[zi] && ListOk(zs.lists[zi], zs.table);
      assert ListedAt(zs, z);
      TakeChunkFresh(zs.table[z], zoneSize);
    }
  }

  /** A chunk from the first zone of a class; the zone leaves the list with its last chunk. */
  function TakeZones(zs: Zones, zi: nat): Zones
    requires zi < |zs.lists| && zs.lists[zi] != [] && zs.lists[zi][0] in zs.table && zs.table[zs.lists[zi][0]].nfree > 0
    requires zs.table[zs.lists[zi][0]].uindex + 1 == zs.table[zs.lists[zi][0]].nmax ==> zs.table[zs.lists[zi][0]].chain != []
  {
    var z := zs.lists[zi][0];
    var r := TakeChunk(zs.table[z]).1;
    Zones(if r.nfree == 0 then zs.lists[zi := zs.lists[zi][1..]] else zs.lists, zs.parked, zs.table[z := r])
  }

  lemma TakeZonesOk(zs: Zones, zi: nat, zoneSize: nat)
    requires SlabOk(zs, zoneSize) && zi < NZONES && zi < |zs.lists| && zs.lists[zi] != []
    ensures var z := zs.lists[zi][0];
            && z in zs.table && zs.table[z].nfree > 0 && (zs.table[z].uindex + 1 == zs.table[z].nmax ==> zs.table[z].chain != [])
            && SlabOk(TakeZones(zs, zi), zoneSize) && OneMore(zs, TakeZones(zs, zi), z, TakeChunk(zs.table[z]).0)
  {
    HeadFacts(zs, zi, zoneSize);
    var z := zs.lists[zi][0];
    var (c, r) := TakeChunk(zs.table[z]);
    TakeChunkFresh(zs.table[z], zoneSize);
    if r.nfree == 0 {
      ExhaustKeeps(zs, zi, r);
    } else {
      RecordKeeps(zs, z, r);
    }
    hide Listed, ZoneOk, InUse;
  }

  /** A new zone in front of its class, its first chunk handed out. */
  function SetUp(zs: Zones, z: nat, r: Zone): Zones
    requires r.index < |zs.lists|
  {
    Zones(zs.lists[r.index := [z] + zs.lists[r.index]], zs.parked, zs.table[z := r])
  }

  lemma SetUpOk(zs: Zones, z: nat, r: Zone, zoneSize: nat)
    requires SlabOk(zs, zoneSize) && z !in zs.table && ZoneOk(r, zoneSize) && r.nfree > 0 && forall d :: InUse(r, d) <==> d == 0
    ensures r.index < |zs.lists| && SlabOk(SetUp(zs, z, r), zoneSize) && OneMore(zs, SetUp(zs, z, r), z, 0)
  {
    assert z !in zs.parked by { assert ListOk(zs.parked, zs.table); }
    FrontKeeps(zs, z, r);
    assert |zs.lists| == NZONES && r.index < NZONES;
    hide Listed, ZoneOk, InUse;
  }

  /** A chunk comes back; a zone that had none goes to the front of its class. */
  function GiveZones(zs: Zones, z: nat, c: nat): Zones
    requires z in zs.table && zs.table[z].index < |zs.lists|
  {
    var r := GiveBack(zs.table[z], c);
    Zones(if zs.table[z].nfree == 0 then zs.lists[r.index := [z] + zs.lists[r.index]] else zs.lists, zs.parked, zs.table[z := r])
  }

  lemma GiveZonesOk(zs: Zones, z: nat, c: nat, zoneSize: nat)
    requires SlabOk(zs, zoneSize) && Allocated(zs, z, c)
    ensures zs.table[z].index < |zs.lists| && SlabOk(GiveZones(zs, z, c), zoneSize) && OneLess(zs, GiveZones(zs, z, c), z, c)
  {
    var r := GiveBack(zs.table[z], c);
    GiveBackFrees(zs.table[z], c, zoneSize);
    assert |zs.lists| == NZONES;
    if zs.table[z].nfree == 0 {
      FrontKeeps(zs, z, r);
    } else {
      RecordKeeps(zs, z, r);
    }
    hide Listed, ZoneOk, InUse;
  }

  /** A zone with all its chunks free moves to the parked ones. */
  function ParkZone(zs: Zones, z: nat): Zones
    requires z in zs.table && zs.table[z].index < |zs.lists|
  {
    var i := zs.table[z].index;
    Zones(zs.lists[i := Queues.Remove(zs.lists[i], z)], [z] + zs.parked, zs.table)
  }

  lemma ParkZoneOk(zs: Zones, z: nat, zoneSize: nat)
    requires SlabOk(zs, zoneSize) && Live(zs, z) && zs.table[z].nfree == zs.table[z].nmax
    ensures zs.table[z].index < |zs.lists| && SlabOk(ParkZone(zs, z), zoneSize)
    ensures forall y, d :: Allocated(ParkZone(zs, z), y, d) <==> Allocated(zs, y, d)
  {
    assert |zs.lists| == NZONES && ZoneOk(zs.table[z], zoneSize);
    ParkKeeps(zs, z);
    forall d
      ensures !InUse(zs.table[z], d)
    {
      if d >= 0 { AllFreeNoneUsed(zs.table[z], zoneSize, d); }
    }
    hide Listed, ZoneOk, InUse;
  }

  /** The first parked zone is parked no longer. */
  function Unpark(zs: Zones): Zones
    requires zs.parked != []
  {
    Zones(zs.lists, zs.parked[1..], zs.table - {zs.parked[0]})
  }

  lemma UnparkOk(zs: Zones, zoneSize: nat)
    requires SlabOk(zs, zoneSize) && zs.parked != []
    ensures SlabOk(Unpark(zs), zoneSize) && zs.parked[0] in zs.table
    ensures forall y, d :: Allocated(Unpark(zs), y, d) <==> Allocated(zs, y, d)
  {
    UnparkKeeps(zs);
    hide Listed, ZoneOk, InUse;
  }

  // ----- memusage -----

  /** Entries written for one range leave the zones in other ranges as they were. */
  lemma UsageElsewhere(table: ZoneTable, owned: Owned, usage: UsageTable, usage': UsageTable, runs: seq<PageRuns.Run>,
      zonePages: nat, s: nat)
    requires AllHeld(table, owned, usage, zonePages) && AllApart(owned, runs) && s in owned && s !in table
    requires forall k :: (k < s || s + owned[s] <= k) && k in usage ==> k in usage' && usage'[k] == usage[k]
    ensures AllHeld(table, owned, usage', zonePages)
  {
    forall z | z in table
      ensures Held(z, owned, usage', zonePages)
    {
      assert Held(z, owned, usage, zonePages) && RangeApart(owned, runs, s);
    }
  }

}

/** The slab heap. */
module SlabHeap {
  import Binary
  import opened Wrappers
  import opened Queues
  import opened PageRuns
  import opened PageAllocator
  import opened PageOwners
  import opened SizeClass
  import opened SlabZone
  import opened SlabState

  /** RT_ALIGN to a page on a 32-bit size: the addition wraps. */
  function AlignPage(size: nat): nat { (size + PAGE_SIZE - 1) % 0x1_0000_0000 / PAGE_SIZE * PAGE_SIZE }

  /**
   * Whole pages that hold the size, less than a page more. The addition wraps for the last 4095 sizes, and then there are
   * no pages at all.
   */
  lemma AlignPageFits(size: nat)
    requires size < 0x1_0000_0000
    ensures AlignPage(size) % PAGE_SIZE == 0
    ensures AlignPage(size) >= size <==> size <= 0xFFFF_F000
    ensures size <= 0xFFFF_F000 ==> AlignPage(size) < size + PAGE_SIZE
    ensures size > 0xFFFF_F000 ==> AlignPage(size) == 0
  {
  }

  /** As many pages as the size takes and no page more. */
  predicate HoldsSize(pages: nat, size: nat) { size <= pages * PAGE_SIZE < size + PAGE_SIZE }

  lemma PagesHold(size: nat)
    requires size < 0x1_0000_0000
    ensures var n := AlignPage(size) / PAGE_SIZE; if size <= 0xFFFF_F000 then HoldsSize(n, size) else n == 0
  {
    AlignPageFits(size);
  }

  datatype Pointee = Pages(page: nat) | Chunk(zone: nat, chunk: nat)

  /** The free pages once the page usage table has been allocated. */
  function FirstRuns(begin: nat, npages: nat): seq<Run> {
    var all, need := [Run(begin, npages)], AlignPage(4 * npages) / PAGE_SIZE;
    if need == 0 then all else AllocRuns(all, need).1
  }

  /** The largest of the three zone sizes that stays below the heap size in KiB, or the smallest. */
  predicate ZoneSizeIs(size: nat, limit: nat) {
    && size in {0x8000, 0x1_0000, 0x2_0000}
    && (size > 0x8000 ==> size < limit / 1024)
    && (size < 0x2_0000 ==> 2 * size >= limit / 1024)
  }

  /** `z` is the record of a zone just set up for class `c`. */
  predicate IsFresh(z: Zone, c: Class, zoneSize: nat) {
    c.size > 0 && c.index >= 0 && zoneSize >= FirstOffset(c.size) && z == FreshZone(c, zoneSize)
  }

  /** The first zone of class `i` gave its next chunk, and left the list of the class with its last one. */
  predicate TookFirst(zs: Zones, ys: Zones, i: nat, c: nat) {
    && i < |zs.lists| && zs.lists[i] != [] && zs.lists[i][0] in zs.table
    && var z, was := zs.lists[i][0], zs.table[zs.lists[i][0]];
       && was.nfree > 0 && (was.uindex + 1 == was.nmax ==> was.chain != [])
       && c == TakeChunk(was).0
       && ys.table == zs.table[z := TakeChunk(was).1] && ys.parked == zs.parked
       && ys.lists == if was.nfree == 1 then zs.lists[i := zs.lists[i][1..]] else zs.lists
  }

  /** Zone `z` with the record `r` heads the list of its class; it was the first parked one if there were any. */
  predicate SetUpFirst(zs: Zones, ys: Zones, z: nat, r: Zone) {
    && r.index < |zs.lists|
    && ys.lists == zs.lists[r.index := [z] + zs.lists[r.index]]
    && ys.parked == (if zs.parked != [] then zs.parked[1..] else [])
    && ys.table == zs.table[z := r]
  }

  lemma TakesFirst(zs: Zones, i: nat)
    requires i < |zs.lists| && zs.lists[i] != [] && zs.lists[i][0] in zs.table && zs.table[zs.lists[i][0]].nfree > 0
    requires zs.table[zs.lists[i][0]].uindex + 1 == zs.table[zs.lists[i][0]].nmax ==> zs.table[zs.lists[i][0]].chain != []
    ensures TookFirst(zs, TakeZones(zs, i), i, TakeChunk(zs.table[zs.lists[i][0]]).0)
  {
  }

  lemma SetsUpFirst(zs: Zones, us: Zones, z: nat, r: Zone)
    requires r.index < |zs.lists| && us == if zs.parked != [] then Unpark(zs) else zs
    requires zs.parked != [] ==> z == zs.parked[0]
    ensures r.index < |us.lists| && SetUpFirst(zs, SetUp(us, z, r), z, r)
  {
    assert zs.parked != [] ==> (zs.table - {z})[z := r] == zs.table[z := r];
  }

  /** Chunk `c` heads the free chain of zone `z`; the zone heads the list of its class if it had no free chunk. */
  predicate Gave(zs: Zones, ys: Zones, z: nat, c: nat) {
    && z in zs.table && zs.table[z].index < |zs.lists|
    && var was := zs.table[z];
       && ys.table == zs.table[z := was.(chain := [c] + was.chain, nfree := was.nfree + 1)] && ys.parked == zs.parked
       && ys.lists == if was.nfree == 0 then zs.lists[was.index := [z] + zs.lists[was.index]] else zs.lists
  }

  /** Zone `z` left the list of its class, to be the first parked zone, or for good if there were two. */
  predicate Retired(zs: Zones, ys: Zones, z: nat) {
    && z in zs.table && zs.table[z].index < |zs.lists|
    && var i := zs.table[z].index;
       && ys.lists == zs.lists[i := Queues.Remove(zs.lists[i], z)]
       && if |zs.parked| < 2 then ys.parked == [z] + zs.parked && ys.table == zs.table
          else ys.parked == zs.parked && ys.table == zs.table - {z}
  }

  /** With chunk `c` back, zone `z` is entirely free and not the only zone of its class with free chunks. */
  predicate Spare(zs: Zones, z: nat, c: nat) {
    && z in zs.table && zs.table[z].index < |zs.lists|
    && var gs := GiveZones(zs, z, c);
       gs.table[z].nfree == gs.table[z].nmax && |gs.lists[gs.table[z].index]| > 1
  }

  /** What the release of chunk `c` of zone `z` comes to. */
  predicate Freed(zs: Zones, ys: Zones, z: nat, c: nat) {
    && z in zs.table && zs.table[z].index < |zs.lists|
    && var gs := GiveZones(zs, z, c);
       if Spare(zs, z, c) then Retired(gs, ys, z) else ys == gs
  }

  /** At most two zones stay parked, the class of the zone has a free chunk, and no other class loses a zone. */
  lemma FreedKeepsClasses(zs: Zones, ys: Zones, z: nat, c: nat, zoneSize: nat)
    requires SlabOk(zs, zoneSize) && Allocated(zs, z, c) && |zs.parked| <= 2 && Freed(zs, ys, z, c)
    ensures |ys.parked| <= 2 && |ys.lists| == |zs.lists|
    ensures zs.table[z].index < |ys.lists| && ys.lists[zs.table[z].index] != []
    ensures forall i :: 0 <= i < |zs.lists| && i != zs.table[z].index ==> ys.lists[i] == zs.lists[i]
  {
    var gs, i := GiveZones(zs, z, c), zs.table[z].index;
    assert z in zs.lists[i] || zs.table[z].nfree == 0 by { assert ListedAt(zs, z); }
    if Spare(zs, z, c) {
      RemoveShorter(gs.lists[i], z);
    }
    hide SlabOk, Allocated;
  }

  /** The alignment of a chunk of `size` bytes: to eight, and to its size if that is a power of two up to a page. */
  predicate AlignedFor(address: nat, size: nat) {
    address % 8 == 0 && (PowerTest(size) && size <= PAGE_SIZE ==> size > 0 && address % size == 0)
  }

  class SlabHeap {
    const zonePages: nat
    const zoneLimit: nat
    const pages: PageAllocator
    var lists: seq<Queue>
    var parked: Queue
    var parkedCount: nat
    var table: ZoneTable
    var usage: UsageTable
    /** The page ranges in use: zones, large allocations and the memusage table itself. */
    ghost var owned: Owned
    ghost var larges: set<nat>

    function ZoneSize(): nat { zonePages * PAGE_SIZE }

    ghost function View(): Zones
      reads this
    {
      Zones(lists, parked, table)
    }

    ghost predicate SizesOk() {
      ZoneSize() >= 0x8000 && 4 * zoneLimit <= ZoneSize() && (zoneLimit == 0x2000 || zoneLimit == 0x4000)
    }

    ghost predicate PagesOk()
      reads this, pages
    {
      pages.Valid() && AllApart(owned, pages.runs) && AllHeld(table, owned, usage, zonePages)
      && LargesOk(larges, table, owned, usage)
    }

    ghost predicate Valid()
      reads this, pages
    {
      && SizesOk() && PagesOk()
      && SlabOk(View(), ZoneSize())
      && parkedCount == |parked| <= 2
    }

    /** rt_system_heap_init on whole pages: all pages free, zone sizes computed, memusage allocated. */
    constructor (begin: nat, npages: nat)
      requires npages > 0
      ensures Valid() && larges == {} && parked == [] && forall z, c :: !Allocated(View(), z, c)
      ensures fresh(pages) && lists == seq(NZONES, _ => []) && pages.runs == FirstRuns(begin, npages)
      ensures ZoneSizeIs(ZoneSize(), npages * PAGE_SIZE) && zoneLimit == (if ZoneSize() == 0x8000 then 0x2000 else 0x4000)
      ensures 4 * npages <= 0xFFFF_F000 ==> begin in owned && HoldsSize(owned[begin], 4 * npages)
    {
      var size := ZoneSizeFor(npages * PAGE_SIZE);
      zonePages := size / PAGE_SIZE;
      zoneLimit := if size / 4 > 0x4000 then 0x4000 else size / 4;
      lists := seq(NZONES, _ => []);
      parked, parkedCount, table, usage, owned, larges := [], 0, map[], map[], map[], {};
      pages := new PageAllocator(begin, npages);
      new;
      var need := AlignPage(4 * npages) / PAGE_SIZE;
      ghost var was := pages.runs;
      var memusage := pages.PageAlloc(need);
      if memusage.Some? {
        AllocApart(map[], was, need);
        owned := map[memusage.value := need];
      }
      if 4 * npages <= 0xFFFF_F000 {
        TableFits(begin, npages);
      }
    }

    /** The part of rt_malloc that serves a class from its first zone. */
    method TakeFromZone(zi: nat) returns (z: nat, c: nat)
      requires Valid() && zi < NZONES && lists[zi] != []
      modifies `lists, `table
      ensures Valid() && z == old(lists)[zi][0] && z in table && OneMore(old(View()), View(), z, c)
      ensures table[z].index == zi && Served(table[z], old(table)[z]) && c < table[z].nmax && table[z].chunkSize == ChunkSize(zi)
      ensures TookFirst(old(View()), View(), zi, c)
    {
      ghost var zs := View();
      HeadFacts(zs, zi, ZoneSize());
      TakeZonesOk(zs, zi, ZoneSize());
      z := lists[zi][0];
      TakeChunkFresh(table[z], ZoneSize());
      TakesFirst(zs, zi);
      SameKeysHeld(table, TakeChunk(table[z]).1, z, larges, owned, usage, zonePages);
      hide SlabOk, ZonesOk, AllHeld, AllApart, ZoneOk, InUse, OneMore, LargesOk, TakeChunk, TookFirst;
      var r;
      c, r := NextChunk(table[z]);
      if r.nfree == 0 {
        lists := lists[zi := lists[zi][1..]];
      }
      table := table[z := r];
      assert View() == TakeZones(zs, zi);
    }

    /** A zone for a class that has none: a parked one, or new pages. */
    method AcquireZone() returns (z: Option<nat>)
      requires Valid()
      modifies this, pages
      ensures Valid() && larges == old(larges) && lists == old(lists)
      ensures forall y, d :: Allocated(View(), y, d) <==> Allocated(old(View()), y, d)
      ensures z.Some? ==> z.value !in table && z.value !in larges && Held(z.value, owned, usage, zonePages)
      ensures z.None? <==> old(parked) == [] && NoRange(old(pages.runs), zonePages)
      ensures z == if old(parked) != [] then Some(old(parked)[0]) else AllocRuns(old(pages.runs), zonePages).0
      ensures z.None? ==> View() == old(View())
      ensures View() == if old(parked) != [] then Unpark(old(View())) else old(View())
      ensures pages.runs == if old(parked) != [] then old(pages.runs) else AllocRuns(old(pages.runs), zonePages).1
    {
      ghost var zs := View();
      if parked != [] {
        UnparkOk(zs, ZoneSize());
        DropHeld(table, parked[0], larges, owned, usage, zonePages);
        hide SlabOk, AllHeld, AllApart, LargesOk, Held;
        z := Some(parked[0]);
        parked := parked[1..];
        parkedCount := parkedCount - 1;
        table := table - {z.value};
        assert View() == Unpark(zs);
      } else {
        ghost var runs := pages.runs;
        AllocFailsIff(runs, zonePages);
        z := pages.PageAlloc(zonePages);
        if z != None {
          AllocApart(owned, runs, zonePages);
          GrowOwned(table, larges, owned, usage, zonePages, z.value, zonePages);
          hide SlabOk, AllHeld, AllApart, LargesOk, Held;
          owned := owned[z.value := zonePages];
          MarkZone(z.value);
        }
      }
    }

    /** The loop that sets the memusage entries of a new zone. */
    method MarkZone(z: nat)
      requires z in owned && owned[z] == zonePages && z !in table && z !in larges && AllApart(owned, pages.runs)
      requires AllHeld(table, owned, usage, zonePages) && LargesOk(larges, table, owned, usage)
      modifies `usage
      ensures AllHeld(table, owned, usage, zonePages) && LargesOk(larges, table, owned, usage) && Held(z, owned, usage, zonePages)
    {
      ghost var was := usage;
      var off := 0;
      while off < zonePages
        invariant 0 <= off <= zonePages
        invariant forall k :: z <= k < z + off ==> k in usage && usage[k] == Small(k - z)
        invariant forall k :: (k < z || z + zonePages <= k) && k in was ==> k in usage && usage[k] == was[k]
      {
        usage := usage[z + off := Small(off)];
        off := off + 1;
      }
      UsageElsewhere(table, owned, was, usage, pages.runs, zonePages, z);
      LargesElsewhere(larges, table, owned, was, usage, pages.runs, z);
    }

    /** rt_malloc for a class without zones: a zone is set up and its first chunk handed out. */
    method NewZone(cl: Class) returns (r: Option<(nat, nat)>)
      requires Valid() && 0 <= cl.index < NZONES && 0 < cl.size == ChunkSize(cl.index) < 0x1000_0000 && 4 * cl.size <= ZoneSize()
      modifies this, pages
      ensures Valid() && larges == old(larges)
      ensures r.None? <==> old(parked) == [] && NoRange(old(pages.runs), zonePages)
      ensures r.None? ==> forall y, d :: Allocated(View(), y, d) <==> Allocated(old(View()), y, d)
      ensures r.Some? ==> var (z, c) := r.value;
        && Some(z) == (if old(parked) != [] then Some(old(parked)[0]) else AllocRuns(old(pages.runs), zonePages).0)
        && z in table && IsFresh(table[z], cl, ZoneSize()) && c == 0
      ensures r.Some? ==> var (z, c) := r.value;
        && z in table && OneMore(old(View()), View(), z, c) && c < table[z].nmax
        && table[z].index == cl.index && table[z].chunkSize == cl.size
        && SetUpFirst(old(View()), View(), z, table[z])
      ensures pages.runs == if old(parked) != [] then old(pages.runs) else AllocRuns(old(pages.runs), zonePages).1
    {
      ghost var before := View();
      var got := AcquireZone();
      if got == None {
        return None;
      }
      var z := got.value;
      FreshZoneOk(cl, ZoneSize());
      SetUpOk(View(), z, FreshZone(cl, ZoneSize()), ZoneSize());
      SetUpHeld(table, FreshZone(cl, ZoneSize()), z, larges, owned, usage, zonePages);
      ghost var zs := View();
      OneMoreAfter(before, zs, SetUp(zs, z, FreshZone(cl, ZoneSize())), z, 0);
      SetsUpFirst(before, zs, z, FreshZone(cl, ZoneSize()));
      hide SlabOk, AllHeld, AllApart, LargesOk, Held, OneMore, SetUpFirst, Unpark, AllocRuns, Allocated, ZoneOk;
      var zone := FreshZone(cl, ZoneSize());
      lists := lists[zone.index := [z] + lists[zone.index]];
      table := table[z := zone];
      assert View() == SetUp(zs, z, zone);
      r := Some((z, 0));
    }

    /** rt_malloc of at least `zoneLimit` bytes: whole pages. */
    method MallocLarge(size: nat) returns (r: Option<nat>)
      requires Valid() && size < 0x1_0000_0000
      modifies pages`runs, `usage, `owned, `larges
      ensures Valid() && View() == old(View())
      ensures var n := AlignPage(size) / PAGE_SIZE; r.None? <==> n == 0 || NoRange(old(pages.runs), n)
      ensures r.None? ==> larges == old(larges)
      ensures r.Some? ==>
        && r.value % PAGE_SIZE == 0 && r.value / PAGE_SIZE !in old(larges)
        && larges == old(larges) + {r.value / PAGE_SIZE}
        && r.value / PAGE_SIZE in owned && HoldsSize(owned[r.value / PAGE_SIZE], size)
        && (Some(r.value / PAGE_SIZE), pages.runs) == AllocRuns(old(pages.runs), owned[r.value / PAGE_SIZE])
    {
      PagesHold(size);
      var n := AlignPage(size) / PAGE_SIZE;
      ghost var runs := pages.runs;
      if n > 0 {
        AllocFailsIff(runs, n);
      }
      var page := pages.PageAlloc(n);
      if page == None {
        return None;
      }
      AllocApart(owned, runs, n);
      GrowOwned(table, larges, owned, usage, zonePages, page.value, n);
      MarkLarge(table, larges, owned[page.value := n], usage, pages.runs, zonePages, page.value, n);
      hide SlabOk, AllHeld, AllApart, LargesOk;
      owned := owned[page.value := n];
      usage := usage[page.value := Large(n)];
      larges := larges + {page.value};
      r := Some(page.value * PAGE_SIZE);
    }

    /** The zones with free chunks of the class that serves `size`. */
    ghost function ClassList(size: nat): Queue
      reads this
    {
      var i := ZoneIndex(size).index;
      if 0 <= i < |lists| then lists[i] else []
    }

    /**
     * rt_malloc. On success of a small request chunk `c` of zone `z` is handed out, it was free, and its size is
     * the one of the request's class.
     */
    method Malloc(size: nat) returns (r: Option<nat>, ghost z: nat, ghost c: nat)
      requires Valid() && size < 0x1_0000_0000
      modifies this, pages
      ensures Valid()
      ensures size == 0 ==> r == None && View() == old(View()) && larges == old(larges)
      ensures 0 < size < zoneLimit && r.Some? ==>
        && larges == old(larges) && OneMore(old(View()), View(), z, c)
        && z in table && r.value == ChunkAddress(z, table[z], c) && size <= table[z].chunkSize == ZoneIndex(size).size
      ensures 0 < size < zoneLimit && r.Some? ==> AlignedFor(r.value, ZoneIndex(size).size)
      ensures 0 < size < zoneLimit && r.None? ==>
        larges == old(larges) && forall y, d :: Allocated(View(), y, d) <==> Allocated(old(View()), y, d)
      ensures 0 < size < zoneLimit ==>
        (r.None? <==> old(ClassList(size)) == [] && old(parked) == [] && NoRange(old(pages.runs), zonePages))
      ensures 0 < size < zoneLimit && r.Some? && old(ClassList(size)) == [] ==>
        && Some(z) == (if old(parked) != [] then Some(old(parked)[0]) else AllocRuns(old(pages.runs), zonePages).0)
        && IsFresh(table[z], ZoneIndex(size), ZoneSize()) && c == 0
      ensures size >= zoneLimit ==>
        var n := AlignPage(size) / PAGE_SIZE;
        r.None? <==> n == 0 || NoRange(old(pages.runs), n)
      ensures size >= zoneLimit && r.None? ==> larges == old(larges)
      ensures size >= zoneLimit ==> View() == old(View())
      ensures size >= zoneLimit && r.Some? ==>
        && r.value % PAGE_SIZE == 0 && r.value / PAGE_SIZE !in old(larges) && larges == old(larges) + {r.value / PAGE_SIZE}
        && r.value / PAGE_SIZE in owned && HoldsSize(owned[r.value / PAGE_SIZE], size)
        && (Some(r.value / PAGE_SIZE), pages.runs) == AllocRuns(old(pages.runs), owned[r.value / PAGE_SIZE])
      ensures 0 < size < zoneLimit && r.Some? && old(ClassList(size)) != [] ==>
        && 0 <= ZoneIndex(size).index && TookFirst(old(View()), View(), ZoneIndex(size).index, c)
        && z == old(ClassList(size))[0] && pages.runs == old(pages.runs)
      ensures 0 < size < zoneLimit && r.Some? && old(ClassList(size)) == [] ==>
        && SetUpFirst(old(View()), View(), z, table[z])
        && pages.runs == if old(parked) != [] then old(pages.runs) else AllocRuns(old(pages.runs), zonePages).1
    {
      z, c := 0, 0;
      ghost var was := View();
      if size == 0 {
        return None, z, c;
      }
      if size >= zoneLimit {
        r := MallocLarge(size);
        return;
      }
      ClassBelowLimit(size, zoneLimit);
      var cl := ZoneIndex(size);
      HeadFacts(View(), cl.index, ZoneSize());
      hide SlabOk, AllHeld, AllApart, LargesOk, OneMore, ZoneIndex, Allocated, AlignedFor;
      if lists[cl.index] != [] {
        var y, d := TakeFromZone(cl.index);
        z, c := y, d;
        r := Some(ChunkAddress(y, table[y], d));
      } else {
        var got := NewZone(cl);
        if got == None {
          return None, z, c;
        }
        z, c := got.value.0, got.value.1;
        r := Some(ChunkAddress(got.value.0, table[got.value.0], got.value.1));
      }
      HandedAligned(was, View(), z, c, ZoneSize());
    }

    /** What a pointer was handed out for. */
    ghost predicate Points(p: nat, at: Pointee)
      reads this
    {
      match at
      case Pages(a) => a in larges && p == a * PAGE_SIZE
      case Chunk(z, c) => Allocated(View(), z, c) && p == ChunkAddress(z, table[z], c)
    }

    /** rt_free of a pointer that rt_malloc handed out, or of null. The zone is found through memusage. */
    method Free(p: Option<nat>, ghost at: Pointee)
      requires Valid() && (p.Some? ==> Points(p.value, at))
      modifies this, pages
      ensures Valid()
      ensures p.None? ==> View() == old(View()) && larges == old(larges) && pages.runs == old(pages.runs)
      ensures p.Some? && at.Pages? ==>
        && View() == old(View()) && larges == old(larges) - {at.page}
        && at.page in old(owned) && pages.runs == FreeRuns(old(pages.runs), at.page, old(owned)[at.page])
      ensures p.Some? && at.Chunk? ==>
        && larges == old(larges) && OneLess(old(View()), View(), at.zone, at.chunk)
        && Freed(old(View()), View(), at.zone, at.chunk)
        && pages.runs == if Spare(old(View()), at.zone, at.chunk) && |old(parked)| == 2
                         then FreeRuns(old(pages.runs), at.zone, zonePages) else old(pages.runs)
    {
      if p == None {
        return;
      }
      var page := p.value / PAGE_SIZE;
      if at.Pages? {
        assert page == at.page;
      } else {
        ChunkFacts(View(), at.zone, at.chunk, owned, usage, zonePages);
      }
      var kup := usage[page];
      if kup.Large? {
        FreeLarge(page, kup.count);
      } else {
        var z := page - kup.offset;
        var c := (p.value - z * PAGE_SIZE - table[z].off) / table[z].chunkSize;
        FreeChunk(z, c);
      }
    }

    method FreeLarge(page: nat, count: nat)
      requires Valid() && page in larges && owned[page] == count
      modifies pages`runs, `usage, `owned, `larges
      ensures Valid() && View() == old(View()) && larges == old(larges) - {page}
      ensures pages.runs == FreeRuns(old(pages.runs), page, count)
    {
      FreeApart(owned, pages.runs, page);
      UsageElsewhere(table, owned, usage, usage[page := Large(0)], pages.runs, zonePages, page);
      DropLarge(larges, table, owned, usage, page, zonePages);
      hide SlabOk, AllHeld, AllApart, LargesOk, FreeRuns, Canonical, NoneFree;
      usage := usage[page := Large(0)];
      larges := larges - {page};
      owned := owned - {page};
      pages.PageFree(page, count);
    }

    /** The zone case of rt_free. */
    method FreeChunk(z: nat, c: nat)
      requires Valid() && Allocated(View(), z, c)
      modifies this, pages
      ensures Valid() && larges == old(larges) && OneLess(old(View()), View(), z, c) && Freed(old(View()), View(), z, c)
      ensures pages.runs == if Spare(old(View()), z, c) && |old(parked)| == 2 then FreeRuns(old(pages.runs), z, zonePages)
                            else old(pages.runs)
    {
      ghost var zs := View();
      hide SlabOk, AllHeld, AllApart, LargesOk, OneLess, Allocated, FreeRuns, Canonical, Gave, Retired;
      GiveChunk(z, c);
      if table[z].nfree == table[z].nmax && |lists[table[z].index]| > 1 {
        ghost var ys := View();
        Retire(z);
        OneLessAfter(zs, ys, View(), z, c);
      }
    }

    /** Put the chunk on the free chain; a zone that had no free chunk is listed again. */
    method GiveChunk(z: nat, c: nat)
      requires Valid() && Allocated(View(), z, c)
      modifies `lists, `table
      ensures Valid() && OneLess(old(View()), View(), z, c) && Live(View(), z) && table[z].index < |lists|
      ensures z in old(table) && old(table)[z].index < |old(lists)| && View() == GiveZones(old(View()), z, c)
      ensures Gave(old(View()), View(), z, c)
    {
      ghost var zs := View();
      GivenFacts(zs, z, c, ZoneSize());
      hide SlabOk, AllHeld, AllApart, LargesOk, OneLess, Allocated, Canonical, ZoneOk, InUse, Held, GiveZones, Gave;
      GiveZonesOk(zs, z, c, ZoneSize());
      SameKeysHeld(table, GiveBack(table[z], c), z, larges, owned, usage, zonePages);
      GivenShape(zs, z, c);
      var i, r := table[z].index, table[z].(chain := [c] + table[z].chain);
      if r.nfree == 0 {
        lists := lists[i := [z] + lists[i]];
      }
      r := r.(nfree := r.nfree + 1);
      table := table[z := r];
      assert View() == GiveZones(zs, z, c);
    }

    /** Park a free zone, and give back a zone if more than two are parked. */
    method Retire(z: nat)
      requires Valid() && Live(View(), z) && table[z].nfree == table[z].nmax && table[z].index < |lists|
      modifies this, pages
      ensures Valid() && larges == old(larges)
      ensures forall y, d :: Allocated(View(), y, d) <==> Allocated(old(View()), y, d)
      ensures Retired(old(View()), View(), z)
      ensures pages.runs == if |old(parked)| < 2 then old(pages.runs) else FreeRuns(old(pages.runs), z, zonePages)
    {
      hide SlabOk, AllHeld, AllApart, LargesOk, Allocated, Canonical, FreeRuns;
      Park(z);
      if parkedCount > 2 {
        ReleaseZone();
      }
    }

    /** Everything but the bound on parked zones, which rt_free exceeds by one for a moment. */
    ghost predicate AlmostValid()
      reads this, pages
    {
      SizesOk() && PagesOk() && SlabOk(View(), ZoneSize()) && parkedCount == |parked| <= 3
    }

    /** Move a zone that is entirely free to the parked ones. */
    method Park(z: nat)
      requires Valid() && Live(View(), z) && table[z].nfree == table[z].nmax && table[z].index < |lists|
      modifies `lists, `parked, `parkedCount
      ensures AlmostValid() && View() == ParkZone(old(View()), z)
      ensures forall y, d :: Allocated(View(), y, d) <==> Allocated(old(View()), y, d)
    {
      ParkZoneOk(View(), z, ZoneSize());
      hide SlabOk, AllHeld, AllApart, LargesOk, Allocated;
      lists := lists[table[z].index := Queues.Remove(lists[table[z].index], z)];
      parked := [z] + parked;
      parkedCount := parkedCount + 1;
    }

    /** Give the pages of the first parked zone back. */
    method ReleaseZone()
      requires AlmostValid() && parked != []
      modifies this, pages
      ensures Valid() && larges == old(larges) && View() == Unpark(old(View()))
      ensures forall y, d :: Allocated(View(), y, d) <==> Allocated(old(View()), y, d)
      ensures pages.runs == FreeRuns(old(pages.runs), old(parked)[0], zonePages)
    {
      ghost var zs := View();
      UnparkOk(zs, ZoneSize());
      DropHeld(table, parked[0], larges, owned, usage, zonePages);
      OwnedFacts(parked[0], owned, usage, zonePages);
      hide SlabOk, AllHeld, AllApart, LargesOk, Allocated, Canonical, Held, FreeRuns;
      var z := parked[0];
      parked := parked[1..];
      parkedCount := parkedCount - 1;
      table := table - {z};
      assert View() == Unpark(zs);
      ReturnPages(z);
    }

    method ReturnPages(z: nat)
      requires z in owned && owned[z] == zonePages && z !in table && z !in larges && PagesOk()
      modifies pages`runs, `usage, `owned
      ensures PagesOk() && pages.runs == FreeRuns(old(pages.runs), z, zonePages)
    {
      hide AllHeld, AllApart, LargesOk, FreeRuns, Canonical, NoneFree;
      ClearZone(z);
      FreeApart(owned, pages.runs, z);
      ShrinkOwned(table, larges, owned, usage, zonePages, z);
      owned := owned - {z};
      pages.PageFree(z, zonePages);
    }

    /** The loop that clears the memusage entries of a zone. */
    method ClearZone(z: nat)
      requires z in owned && owned[z] == zonePages && z !in table && z !in larges && AllApart(owned, pages.runs)
      requires AllHeld(table, owned, usage, zonePages) && LargesOk(larges, table, owned, usage)
      modifies `usage
      ensures AllHeld(table, owned, usage, zonePages) && LargesOk(larges, table, owned, usage)
    {
      ghost var was := usage;
      var i := 0;
      while i < zonePages
        invariant 0 <= i <= zonePages
        invariant forall k :: (k < z || z + zonePages <= k) && k in was ==> k in usage && usage[k] == was[k]
      {
        usage := usage[z + i := FreePage];
        i := i + 1;
      }
      UsageElsewhere(table, owned, was, usage, pages.runs, zonePages, z);
      LargesElsewhere(larges, table, owned, was, usage, pages.runs, z);
    }
  }

  /** The choice of a chunk: never-used space first, then the free chain. */
  method NextChunk(z: Zone) returns (c: nat, r: Zone)
    requires z.nfree > 0 && (z.uindex + 1 == z.nmax ==> z.chain != [])
    ensures (c, r) == TakeChunk(z)
  {
    r := z.(nfree := z.nfree - 1);
    if r.uindex + 1 != r.nmax {
      r := r.(uindex := r.uindex + 1);
      c := r.uindex;
    } else {
      c := r.chain[0];
      r := r.(chain := r.chain[1..]);
    }
  }

  /** The same zone with another chunk handed out. */
  predicate Served(z: Zone, was: Zone) {
    z.index == was.index && z.chunkSize == was.chunkSize && z.off == was.off && z.nmax == was.nmax
  }

  /** The page usage table, four bytes a page, takes the first pages of the heap. */
  lemma TableFits(begin: nat, npages: nat)
    requires npages > 0 && 4 * npages <= 0xFFFF_F000
    ensures var need := AlignPage(4 * npages) / PAGE_SIZE;
            && 0 < need <= npages && HoldsSize(need, 4 * npages)
            && AllocRuns([Run(begin, npages)], need).0 == Some(begin)
            && FirstRuns(begin, npages) == if need == npages then [] else [Run(begin + need, npages - need)]
  {
    PagesHold(4 * npages);
  }

  /** The zone size: doubled from 32 KiB while the heap is large enough, up to 128 KiB. */
  method ZoneSizeFor(limit: nat) returns (size: nat)
    ensures ZoneSizeIs(size, limit)
  {
    size := 0x8000;
    while size < 0x2_0000 && 2 * size < limit / 1024
      invariant size in {0x8000, 0x1_0000, 0x2_0000} && (size > 0x8000 ==> size < limit / 1024)
      decreases 0x2_0000 - size
    {
      size := 2 * size;
    }
  }

  lemma SameKeysHeld(table: ZoneTable, r: Zone, z: nat, larges: set<nat>, owned: Owned, usage: UsageTable, zonePages: nat)
    requires AllHeld(table, owned, usage, zonePages) && LargesOk(larges, table, owned, usage) && z in table
    ensures AllHeld(table[z := r], owned, usage, zonePages) && LargesOk(larges, table[z := r], owned, usage)
  {
  }

  lemma DropHeld(table: ZoneTable, z: nat, larges: set<nat>, owned: Owned, usage: UsageTable, zonePages: nat)
    requires AllHeld(table, owned, usage, zonePages) && LargesOk(larges, table, owned, usage) && z in table
    ensures AllHeld(table - {z}, owned, usage, zonePages) && LargesOk(larges, table - {z}, owned, usage)
    ensures Held(z, owned, usage, zonePages) && z !in larges
  {
    assert Held(z, owned, usage, zonePages);
    hide Held;
  }

  lemma SetUpHeld(table: ZoneTable, r: Zone, z: nat, larges: set<nat>, owned: Owned, usage: UsageTable, zonePages: nat)
    requires AllHeld(table, owned, usage, zonePages) && LargesOk(larges, table, owned, usage)
    requires Held(z, owned, usage, zonePages) && z !in larges
    ensures AllHeld(table[z := r], owned, usage, zonePages) && LargesOk(larges, table[z := r], owned, usage)
  {
    hide Held;
  }

  /** A new range concerns neither zones nor large allocations. */
  lemma GrowOwned(table: ZoneTable, larges: set<nat>, owned: Owned, usage: UsageTable, zonePages: nat, s: nat, n: nat)
    requires AllHeld(table, owned, usage, zonePages) && LargesOk(larges, table, owned, usage) && s !in owned
    ensures AllHeld(table, owned[s := n], usage, zonePages) && LargesOk(larges, table, owned[s := n], usage)
    ensures s !in table && s !in larges
  {
    forall z | z in table
      ensures Held(z, owned[s := n], usage, zonePages) && z != s
    {
      assert Held(z, owned, usage, zonePages);
    }
  }

  lemma LargesElsewhere(larges: set<nat>, table: ZoneTable, owned: Owned, usage: UsageTable, usage': UsageTable,
      runs: seq<Run>, s: nat)
    requires LargesOk(larges, table, owned, usage) && AllApart(owned, runs) && s in owned && s !in larges
    requires forall k :: (k < s || s + owned[s] <= k) && k in usage ==> k in usage' && usage'[k] == usage[k]
    ensures LargesOk(larges, table, owned, usage')
  {
    forall a | a in larges
      ensures a in usage' && usage'[a] == Large(owned[a])
    {
      assert RangeApart(owned, runs, s) && RangeApart(owned, runs, a);
    }
  }

  lemma OneMoreAfter(before: Zones, zs: Zones, ys: Zones, z: nat, c: nat)
    requires OneMore(zs, ys, z, c) && forall y, d :: Allocated(zs, y, d) <==> Allocated(before, y, d)
    ensures OneMore(before, ys, z, c)
  {
    hide Allocated;
  }

  lemma MarkLarge(table: ZoneTable, larges: set<nat>, owned: Owned, usage: UsageTable, runs: seq<Run>, zonePages: nat,
      s: nat, n: nat)
    requires AllHeld(table, owned, usage, zonePages) && LargesOk(larges, table, owned, usage) && AllApart(owned, runs)
    requires s in owned && owned[s] == n && s !in table && s !in larges
    ensures AllHeld(table, owned, usage[s := Large(n)], zonePages) && LargesOk(larges + {s}, table, owned, usage[s := Large(n)])
  {
    assert RangeApart(owned, runs, s);
    UsageElsewhere(table, owned, usage, usage[s := Large(n)], runs, zonePages, s);
    LargesElsewhere(larges, table, owned, usage, usage[s := Large(n)], runs, s);
  }

  lemma ClassBelowLimit(n: nat, limit: nat)
    requires 0 < n < limit && (limit == 0x2000 || limit == 0x4000)
    ensures var c := ZoneIndex(n); 0 <= c.index < NZONES && n <= c.size <= limit && c.size == ChunkSize(c.index)
  {
    ZoneIndexFits(n);
    var (unit, bias) := UnitOf(n);
    RoundUpBounds(n, unit);
    assert ZoneIndex(n) == ClassIn(n, unit, bias);
  }

  lemma Power8192(size: nat)
    requires size == 8192
    ensures PowerTest(size)
  {
    Pow2Values();
    PowerTestIff(size);
    hide PowerTest, Binary.Pow2;
    assert size == Binary.Pow2(13);
  }

  /** The first chunk of 8192 bytes lies at 8192 in its zone. */
  lemma FirstOf8192(size: nat)
    requires size == 8192 && PowerTest(size)
    ensures FirstOffset(size) == 8192
  {
    hide PowerTest;
    assert (ZONE_HEADER + 8192 - 1) / 8192 * 8192 == 8192;
  }

  lemma Class8192(size: nat)
    requires size == 8192
    ensures ZoneIndex(size) == Class(8192, 63)
  {
  }

  lemma FreshAddress(p: nat, z: Zone, size: nat)
    requires size == 8192 && FirstOffset(size) == 8192 && IsFresh(z, ZoneIndex(size), 0x1_0000)
    ensures ChunkAddress(p, z, 0) == p * PAGE_SIZE + 8192
  {
    Class8192(size);
    hide FirstOffset, ZoneIndex;
  }

  lemma Rest8192(begin: nat)
    ensures ((begin + 17) * PAGE_SIZE + 8192) % 8192 == if begin % 2 == 0 then PAGE_SIZE else 0
  {
  }

  /** The pages of a heap of 65 MiB: 17 of them hold the page usage table. */
  lemma FirstRuns65(begin: nat)
    ensures FirstRuns(begin, 16640) == [Run(begin + 17, 16623)]
    ensures AllocRuns(FirstRuns(begin, 16640), 16).0 == Some(begin + 17)
    ensures !NoRange(FirstRuns(begin, 16640), 16)
  {
    assert AlignPage(4 * 16640) / PAGE_SIZE == 17;
    AllocFailsIff([Run(begin + 17, 16623)], 16);
  }

  /** A heap of 65 MiB has zones of 64 KiB and serves requests below 16 KiB from them. */
  method Heap65(begin: nat, size: nat) returns (h: SlabHeap)
    ensures fresh(h) && fresh(h.pages) && h.Valid() && h.ZoneSize() == 0x1_0000 && h.zonePages == 16 && h.zoneLimit == 0x4000
    ensures h.parked == [] && h.ClassList(size) == [] && h.pages.runs == FirstRuns(begin, 16640)
  {
    hide FirstRuns, SlabOk, Allocated, ZoneIndex;
    h := new SlabHeap(begin, 16640);
    NoneListed(h.lists, size);
  }

  lemma NoneListed(lists: seq<Queue>, size: nat)
    requires lists == seq(NZONES, _ => [])
    ensures var i := ZoneIndex(size).index; 0 <= i < |lists| ==> lists[i] == []
  {
  }

  /** Its first request for 8192 bytes is served from a new zone behind the page usage table. */
  method First8192(begin: nat, size: nat) returns (h: SlabHeap, r: Option<nat>)
    requires size == 8192
    ensures h.Valid() && size < h.zoneLimit && r == Some((begin + 17) * PAGE_SIZE + 8192)
  {
    hide *;
    h := Heap65(begin, size);
    Power8192(size);
    FirstOf8192(size);
    FirstRuns65(begin);
    ghost var z, c;
    r, z, c := h.Malloc(size);
    assert Some(z) == Some(begin + 17);
    FreshAddress(z, h.table[z], size);
    assert r.value == ChunkAddress(z, h.table[z], 0);
  }

  /**
   * A power of two above the page size is not always aligned to: the address of that chunk is a multiple of 8192 exactly when
   * the heap begins at an odd page.
   */
  method Misaligned8192(begin: nat, size: nat) returns (h: SlabHeap, r: Option<nat>)
    requires size == 8192
    ensures h.Valid() && size < h.zoneLimit && PowerTest(size)
    ensures r.Some? && r.value % 8192 == if begin % 2 == 0 then PAGE_SIZE else 0
  {
    Power8192(size);
    Rest8192(begin);
    hide PowerTest;
    h, r := First8192(begin, size);
  }

  /** What ChunkAligned says of a chunk just handed out. */
  lemma HandedAligned(was: Zones, zs: Zones, z: nat, c: nat, zoneSize: nat)
    requires SlabOk(zs, zoneSize) && OneMore(was, zs, z, c)
    ensures z in zs.table && AlignedFor(ChunkAddress(z, zs.table[z], c), zs.table[z].chunkSize)
  {
    assert Allocated(zs, z, c);
    ChunkAligned(z, zs.table[z], c, zoneSize);
  }

  /** From the address of a chunk in use the memusage entry leads to its zone. */
  lemma ChunkFacts(zs: Zones, z: nat, c: nat, owned: Owned, usage: UsageTable, zonePages: nat)
    requires SlabOk(zs, zonePages * PAGE_SIZE) && AllHeld(zs.table, owned, usage, zonePages) && Allocated(zs, z, c)
    ensures var a := ChunkAddress(z, zs.table[z], c);
            && a / PAGE_SIZE in usage && usage[a / PAGE_SIZE] == Small(a / PAGE_SIZE - z)
            && zs.table[z].chunkSize > 0 && a >= z * PAGE_SIZE + zs.table[z].off
            && (a - z * PAGE_SIZE - zs.table[z].off) / zs.table[z].chunkSize == c
  {
    assert ZoneOk(zs.table[z], zonePages * PAGE_SIZE);
    AddressDecodes(z, zs.table[z], c, zonePages);
    assert Held(z, owned, usage, zonePages);
    hide ZoneOk, InUse, Listed, ChunkAddress;
  }

  lemma DropLarge(larges: set<nat>, table: ZoneTable, owned: Owned, usage: UsageTable, a: nat, zonePages: nat)
    requires LargesOk(larges, table, owned, usage) && a in larges && AllHeld(table, owned, usage[a := Large(0)], zonePages)
    ensures LargesOk(larges - {a}, table, owned - {a}, usage[a := Large(0)])
    ensures AllHeld(table, owned - {a}, usage[a := Large(0)], zonePages)
  {
    forall z | z in table
      ensures Held(z, owned - {a}, usage[a := Large(0)], zonePages)
    {
      assert Held(z, owned, usage[a := Large(0)], zonePages);
    }
  }

  lemma OwnedFacts(z: nat, owned: Owned, usage: UsageTable, zonePages: nat)
    requires Held(z, owned, usage, zonePages)
    ensures z in owned && owned[z] == zonePages
  {
  }

  lemma ShrinkOwned(table: ZoneTable, larges: set<nat>, owned: Owned, usage: UsageTable, zonePages: nat, s: nat)
    requires AllHeld(table, owned, usage, zonePages) && LargesOk(larges, table, owned, usage) && s !in table && s !in larges
    ensures AllHeld(table, owned - {s}, usage, zonePages) && LargesOk(larges, table, owned - {s}, usage)
  {
    forall z | z in table
      ensures Held(z, owned - {s}, usage, zonePages)
    {
      assert Held(z, owned, usage, zonePages);
    }
  }

  lemma GivenShape(zs: Zones, z: nat, c: nat)
    requires z in zs.table && zs.table[z].index < |zs.lists|
    ensures var was := zs.table[z];
            var r, i := was.(chain := [c] + was.chain, nfree := was.nfree + 1), was.index;
            GiveZones(zs, z, c) == Zones(if was.nfree == 0 then zs.lists[i := [z] + zs.lists[i]] else zs.lists,
                zs.parked, zs.table[z := r])
    ensures Gave(zs, GiveZones(zs, z, c), z, c)
  {
  }

  lemma GivenFacts(zs: Zones, z: nat, c: nat, zoneSize: nat)
    requires SlabOk(zs, zoneSize) && Allocated(zs, z, c)
    ensures z in zs.table && zs.table[z].index < |zs.lists| && Live(GiveZones(zs, z, c), z)
  {
  }

  lemma OneLessAfter(zs: Zones, ys: Zones, ws: Zones, z: nat, c: nat)
    requires OneLess(zs, ys, z, c) && forall y, d :: Allocated(ws, y, d) <==> Allocated(ys, y, d)
    ensures OneLess(zs, ws, z, c)
  {
    hide Allocated;
  }
}
