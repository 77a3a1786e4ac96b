/** Size classes of the slab allocator. */
module SizeClass {
  const NZONES: nat := 72

  /** The adjusted size and the zone index. */
  datatype Class = Class(size: nat, index: int)

  /** `(n + unit - 1) & ~(unit - 1)` for the units in use, which are powers of two. */
  function RoundUp(n: nat, unit: nat): nat
    requires unit > 0
  {
    (n + unit - 1) / unit * unit
  }

  lemma MulMono(a: int, b: int, s: nat)
    requires a <= b
    ensures a * s <= b * s
  {
  }

  lemma Spread(c: int, size: nat)
    ensures (c + 1) * size == c * size + size
  {
  }

  lemma DivUnique(x: nat, q: nat, s: nat)
    requires s > 0 && q * s <= x < q * s + s
    ensures x / s == q
  {
    var r := x / s;
    assert r * s <= x < r * s + s;
    if r < q {
      MulMono(r + 1, q, s);
      Spread(r, s);
    } else if q < r {
      MulMono(q + 1, r, s);
      Spread(q, s);
    }
  }

  lemma RoundUpBounds(n: nat, unit: nat)
    requires unit > 0
    ensures n <= RoundUp(n, unit) < n + unit
    ensures RoundUp(n, unit) == RoundUp(n, unit) / unit * unit
  {
    var q := (n + unit - 1) / unit;
    assert q * unit <= n + unit - 1 < q * unit + unit;
    DivUnique(q * unit, q, unit);
  }

  /** A class of its range: chunks of multiples of `unit`. */
  function ClassIn(n: nat, unit: nat, bias: int): Class
    requires unit > 0
  {
    Class(RoundUp(n, unit), RoundUp(n, unit) / unit + bias)
  }

  /** zoneindex; 16384 and above is the case it reports as unexpected. */
  function ZoneIndex(n: nat): Class {
    if n < 128 then ClassIn(n, 8, -1)
    else if n < 256 then ClassIn(n, 16, 7)
    else if n < 8192 then
      if n < 512 then ClassIn(n, 32, 15)
      else if n < 1024 then ClassIn(n, 64, 23)
      else if n < 2048 then ClassIn(n, 128, 31)
      else if n < 4096 then ClassIn(n, 256, 39)
      else ClassIn(n, 512, 47)
    else if n < 16384 then ClassIn(n, 1024, 55)
    else Class(n, 0)
  }

  /** The unit and bias of the range that `n` is in. */
  function UnitOf(n: nat): (nat, int) {
    if n < 128 then (8, -1) else if n < 256 then (16, 7) else if n < 512 then (32, 15) else if n < 1024 then (64, 23)
    else if n < 2048 then (128, 31) else if n < 4096 then (256, 39) else if n < 8192 then (512, 47) else (1024, 55)
  }

  /** The chunk size of each zone index. */
  function ChunkSize(i: nat): nat {
    if i < 16 then 8 * (i + 1)
    else if i < 24 then 16 * (i - 7)
    else if i < 32 then 32 * (i - 15)
    else if i < 40 then 64 * (i - 23)
    else if i < 48 then 128 * (i - 31)
    else if i < 56 then 256 * (i - 39)
    else if i < 64 then 512 * (i - 47)
    else if i < 72 then 1024 * (i - 55)
    else 0
  }

  lemma ChunkSizesGrow(i: nat, j: nat)
    requires i < j < NZONES
    ensures ChunkSize(i) < ChunkSize(j)
  {
  }

  lemma ChunkOrder(i: nat, j: nat)
    requires i < NZONES && j < NZONES
    ensures ChunkSize(i) <= ChunkSize(j) <==> i <= j
  {
    if i < j {
      ChunkSizesGrow(i, j);
    } else if j < i {
      ChunkSizesGrow(j, i);
    }
  }

  /** The index names the least class that holds the request, and the request is rounded up to that class. */
  lemma ZoneIndexFits(n: nat)
    requires 1 <= n < 16384
    ensures var c := ZoneIndex(n);
            && 0 <= c.index < NZONES && c.size == ChunkSize(c.index) && n <= c.size
            && (c.index > 0 ==> ChunkSize(c.index - 1) < n)
  {
    var (unit, bias) := UnitOf(n);
    assert ZoneIndex(n) == ClassIn(n, unit, bias);
    RoundUpBounds(n, unit);
    hide ZoneIndex, RoundUp;
    var q := RoundUp(n, unit) / unit;
    FitsRange(n, unit, bias, q);
  }

  lemma FitsRange(n: nat, unit: nat, bias: int, q: nat)
    requires 1 <= n < 16384 && UnitOf(n) == (unit, bias) && n <= q * unit < n + unit
    ensures 0 <= q + bias < NZONES && ChunkSize(q + bias) == q * unit
    ensures q + bias > 0 ==> ChunkSize(q + bias - 1) < n
  {
  }

  /** Rounding up costs less than eight bytes, or less than an eighth of the request. */
  lemma ZoneIndexWaste(n: nat)
    requires 1 <= n < 16384
    ensures ZoneIndex(n).size - n < 8 || 8 * (ZoneIndex(n).size - n) < n
  {
    var (unit, _) := UnitOf(n);
    RoundUpBounds(n, unit);
    hide RoundUp;
  }

  lemma ZoneIndexMonotone(m: nat, n: nat)
    requires 1 <= m <= n < 16384
    ensures ZoneIndex(m).index <= ZoneIndex(n).index && ZoneIndex(m).size <= ZoneIndex(n).size
  {
    ZoneIndexFits(m);
    ZoneIndexFits(n);
    var i, j := ZoneIndex(m).index, ZoneIndex(n).index;
    hide ZoneIndex, ChunkSize;
    ChunkOrder(i, j);
    if i > 0 {
      ChunkOrder(j, i - 1);
    }
  }

  /** The rounded size belongs to the same class, also where it is the first size of the next range of units. */
  lemma ZoneIndexStable(n: nat)
    requires 1 <= n < 16384 && ZoneIndex(n).size < 16384
    ensures ZoneIndex(ZoneIndex(n).size) == ZoneIndex(n)
  {
    var c := ZoneIndex(n);
    ZoneIndexFits(n);
    ZoneIndexFits(c.size);
    var d := ZoneIndex(c.size);
    hide ZoneIndex, ChunkSize;
    ChunkOrder(c.index, d.index);
    if d.index > 0 {
      ChunkOrder(c.index, d.index - 1);
    }
  }
}

/** One zone: chunks that were never used, in use, or on the free chain. */
module SlabZone {
  import Binary
  import opened Queues
  import opened SizeClass

  const ZONE_HEADER: nat := 36
  const PAGE_SIZE: nat := 4096

  /** The zone header; `chain` is z_freechunk followed through c_next, as chunk numbers. */
  datatype Zone = Zone(index: nat, chunkSize: nat, off: nat, nmax: nat, nfree: nat, uindex: nat, chain: Queue)

  // ----- the test for powers of two -----

  /** Bitwise or. */
  function Or(a: nat, b: nat): nat {
    if a == 0 && b == 0 then 0 else (if a % 2 == 1 || b % 2 == 1 then 1 else 0) + 2 * Or(a / 2, b / 2)
  }

  /** `(size | (size - 1)) + 1 == size << 1`, for sizes far below the width of a word. */
  predicate PowerTest(size: nat) { size > 0 && Or(size, size - 1) + 1 == 2 * size }

  lemma {:induction false} OrSelf(a: nat)
    ensures Or(a, a) == a
  {
    if a > 0 {
      OrSelf(a / 2);
    }
  }

  lemma TestStep(size: nat)
    requires size > 1
    ensures PowerTest(size) <==> size % 2 == 0 && PowerTest(size / 2)
  {
    if size % 2 == 0 {
      assert (size - 1) / 2 == size / 2 - 1;
    } else {
      assert (size - 1) / 2 == size / 2;
      OrSelf(size / 2);
    }
  }

  /** The test recognises exactly the powers of two. */
  lemma {:induction false} PowerTestIff(size: nat)
    ensures PowerTest(size) <==> exists k: nat :: size == Binary.Pow2(k)
  {
    if size == 1 {
      assert Or(1, 0) == 1 by { assert Or(0, 0) == 0; }
      assert Binary.Pow2(0) == 1;
    } else if size > 1 {
      TestStep(size);
      PowerTestIff(size / 2);
      if size % 2 == 0 && PowerTest(size / 2) {
        var k: nat :| size / 2 == Binary.Pow2(k);
        assert size == Binary.Pow2(k + 1);
      }
      if exists k: nat :: size == Binary.Pow2(k) {
        var k: nat :| size == Binary.Pow2(k);
        assert k > 0 && size == 2 * Binary.Pow2(k - 1);
        assert size % 2 == 0 && size / 2 == Binary.Pow2(k - 1);
      }
    }
  }

  /** A power of two up to the page size divides it. */
  lemma PowerDividesPage(size: nat)
    requires PowerTest(size) && size <= PAGE_SIZE
    ensures PAGE_SIZE % size == 0
  {
    PowerTestIff(size);
    var k: nat :| size == Binary.Pow2(k);
    Pow2Values();
    if k > 12 {
      Pow2Divides(13, k);
      AtLeastDivisor(Binary.Pow2(k), Binary.Pow2(13));
    }
    Pow2Divides(k, 12);
  }

  lemma Pow2Values()
    ensures Binary.Pow2(12) == PAGE_SIZE && Binary.Pow2(13) == 2 * PAGE_SIZE
  {
    assert Binary.Pow2(4) == 16 && Binary.Pow2(8) == 16 * Binary.Pow2(4) && Binary.Pow2(12) == 16 * Binary.Pow2(8);
  }

  lemma {:induction false} Pow2Divides(i: nat, k: nat)
    requires i <= k
    ensures Binary.Pow2(i) > 0 && Binary.Pow2(k) % Binary.Pow2(i) == 0
    decreases k
  {
    if i < k {
      Pow2Divides(i, k - 1);
      Multiple(2, Binary.Pow2(k - 1), Binary.Pow2(i));
    }
  }

  lemma AtLeastDivisor(n: nat, d: nat)
    requires n > 0 && d > 0 && n % d == 0
    ensures n >= d
  {
  }

  predicate InUse(z: Zone, c: nat) { c <= z.uindex && c !in z.chain }

  /** The free count is what was never used plus what came back; the chunks lie behind the header and inside the zone. */
  predicate ZoneOk(z: Zone, zoneSize: nat) {
    && z.index < NZONES && z.chunkSize == ChunkSize(z.index) > 0 && z.uindex < z.nmax
    && z.nfree == (z.nmax - 1 - z.uindex) + |z.chain|
    && NoDup(z.chain) && (forall c :: c in z.chain ==> c <= z.uindex)
    && ZONE_HEADER <= z.off && z.off + z.nmax * z.chunkSize <= zoneSize
    && OffsetAligned(z)
  }

  /** The first chunk lies at a multiple of eight, and of the chunk size if that is a power of two. */
  predicate OffsetAligned(z: Zone)
    requires z.chunkSize > 0
  {
    z.off % 8 == 0 && (PowerTest(z.chunkSize) ==> z.off % z.chunkSize == 0)
  }

  /** A chunk out of a zone with a positive free count. */
  function TakeChunk(z: Zone): (nat, Zone)
    requires z.uindex + 1 == z.nmax ==> z.chain != []
    requires z.nfree > 0
  {
    if z.uindex + 1 != z.nmax then (z.uindex + 1, z.(uindex := z.uindex + 1, nfree := z.nfree - 1))
    else (z.chain[0], z.(chain := z.chain[1..], nfree := z.nfree - 1))
  }

  /** The chain is not empty whenever it is popped, and no chunk is handed out twice. */
  lemma TakeChunkFresh(z: Zone, zoneSize: nat)
    requires ZoneOk(z, zoneSize) && z.nfree > 0
    ensures z.uindex + 1 == z.nmax ==> z.chain != []
    ensures var (c, r) := TakeChunk(z);
            && ZoneOk(r, zoneSize) && c < z.nmax && !InUse(z, c)
            && forall d :: InUse(r, d) <==> InUse(z, d) || d == c
  {
    if z.uindex + 1 == z.nmax {
      var c, rest := z.chain[0], z.chain[1..];
      assert z.chain == [c] + rest;
      assert c in z.chain && c !in rest && forall d :: d in rest ==> d in z.chain;
    }
  }

  /** Space that was never used is handed out first, in order; after that the chunk that came back last is. */
  lemma TakeOrder(z: Zone, c: nat)
    ensures z.uindex + 1 < z.nmax && z.nfree > 0 ==> TakeChunk(z) == (z.uindex + 1, z.(uindex := z.uindex + 1, nfree := z.nfree - 1))
    ensures z.uindex + 1 == z.nmax ==> TakeChunk(GiveBack(z, c)) == (c, z)
  {
    var r := GiveBack(z, c);
    assert r.chain[0] == c && r.chain[1..] == z.chain;
  }

  function GiveBack(z: Zone, c: nat): Zone { z.(chain := [c] + z.chain, nfree := z.nfree + 1) }

  lemma GiveBackFrees(z: Zone, c: nat, zoneSize: nat)
    requires ZoneOk(z, zoneSize) && InUse(z, c)
    ensures ZoneOk(GiveBack(z, c), zoneSize) && GiveBack(z, c).nfree <= z.nmax
    ensures forall d :: InUse(GiveBack(z, c), d) <==> InUse(z, d) && d != c
  {
    InsertMembers(z.chain, 0, c);
    assert InsertAt(z.chain, 0, c) == [c] + z.chain;
    var r := GiveBack(z, c);
    ChainBound(r.chain, z.uindex + 1);
  }

  /** Distinct numbers below `n` are at most `n`. */
  lemma {:induction false} ChainBound(q: Queue, n: nat)
    requires NoDup(q) && forall c :: c in q ==> c < n
    ensures |q| <= n
    decreases n
  {
    if q != [] {
      assert q[0] in q;
      hide NoDup, Queues.Remove;
      RemoveMembers(q, n - 1);
      RemoveShorter(q, n - 1);
      ChainBound(Queues.Remove(q, n - 1), n - 1);
    }
  }

  lemma {:induction false} RemoveShorter(q: Queue, t: nat)
    ensures |Queues.Remove(q, t)| >= |q| - 1
  {
    if q != [] {
      RemoveShorter(q[1..], t);
    }
  }

  // ----- a new zone -----

  /** Chunks start behind the header, aligned to their size if that is a power of two, else to eight bytes. */
  function FirstOffset(size: nat): nat
    requires size > 0
  {
    if PowerTest(size) then RoundUp(ZONE_HEADER, size) else RoundUp(ZONE_HEADER, 8)
  }

  /** How many chunks fit. */
  function Chunks(room: nat, size: nat): nat
    requires size > 0
  {
    room / size
  }

  function FreshZone(c: Class, zoneSize: nat): Zone
    requires c.size > 0 && c.index >= 0 && zoneSize >= FirstOffset(c.size)
  {
    var off := FirstOffset(c.size);
    var nmax := Chunks(zoneSize - off, c.size);
    Zone(c.index, c.size, off, nmax, if nmax > 0 then nmax - 1 else 0, 0, [])
  }

  /** Sizes below the zone limit fill a quarter of a zone at most, so a new zone has chunks to spare. */
  lemma FreshZoneOk(c: Class, zoneSize: nat)
    requires 0 < c.size && 4 * c.size <= zoneSize && zoneSize >= 0x8000 && 0 <= c.index < NZONES && c.size == ChunkSize(c.index)
    ensures zoneSize >= FirstOffset(c.size)
    ensures var z := FreshZone(c, zoneSize); ZoneOk(z, zoneSize) && z.nfree > 0 && forall d :: InUse(z, d) <==> d == 0
  {
    RoundUpBounds(ZONE_HEADER, c.size);
    RoundUpBounds(ZONE_HEADER, 8);
    var off := FirstOffset(c.size);
    var nmax := (zoneSize - off) / c.size;
    assert off <= c.size + 43;
    TwoFit(zoneSize - off, c.size);
    FirstAligned(c.index, c.size);
  }

  /** A new zone has as many chunks as fit, and they start within a chunk, or eight bytes, of the header. */
  lemma FreshZoneFull(c: Class, zoneSize: nat)
    requires c.size > 0 && c.index >= 0 && zoneSize >= FirstOffset(c.size)
    ensures var z := FreshZone(c, zoneSize);
            && z.chunkSize == c.size && z.index == c.index
            && z.off + z.nmax * c.size <= zoneSize < z.off + z.nmax * c.size + c.size
            && ZONE_HEADER <= z.off < ZONE_HEADER + if PowerTest(c.size) then c.size else 8
  {
    RoundUpBounds(ZONE_HEADER, c.size);
    RoundUpBounds(ZONE_HEADER, 8);
    var room := zoneSize - FirstOffset(c.size);
    hide PowerTest, RoundUp;
    assert room == room / c.size * c.size + room % c.size;
  }

  lemma SizesOfEight(i: nat)
    requires i < NZONES
    ensures ChunkSize(i) % 8 == 0
  {
  }

  lemma FirstAligned(i: nat, size: nat)
    requires i < NZONES && size == ChunkSize(i) > 0
    ensures FirstOffset(size) % 8 == 0 && (PowerTest(size) ==> FirstOffset(size) % size == 0)
  {
    SizesOfEight(i);
    var q := (ZONE_HEADER + size - 1) / size;
    Multiple(q, size, 8);
    Multiple(q, size, size);
    hide PowerTest, ChunkSize;
  }

  /** A multiple of a multiple of `d` is one of `d`. */
  lemma Multiple(q: nat, n: nat, d: nat)
    requires d > 0 && n % d == 0
    ensures q * n % d == 0
  {
    if q > 0 {
      Multiple(q - 1, n, d);
      Spread(q - 1, n);
      SumMultiple((q - 1) * n, n, d);
    }
  }

  lemma SumMultiple(a: nat, b: nat, d: nat)
    requires d > 0 && b % d == 0
    ensures (a + b) % d == 0 <==> a % d == 0
  {
    var x, y := a / d, b / d;
    assert a == x * d + a % d && b == y * d;
    assert a + b == (x + y) * d + a % d;
    DivUnique(a + b, x + y, d);
  }

  lemma TwoFit(room: nat, size: nat)
    requires size > 0 && room >= 2 * size
    ensures room / size >= 2 && room / size * size <= room
  {
    var q := room / size;
    assert room == q * size + room % size;
    if q <= 1 {
      MulMono(q, 1, size);
    }
  }

  // ----- addresses -----

  /** Where chunk `c` of the zone in page `p` starts. */
  function ChunkAddress(p: nat, z: Zone, c: nat): nat { p * PAGE_SIZE + z.off + c * z.chunkSize }

  /** Chunks do not overlap each other, nor the header, nor the end of the zone. */
  lemma ChunksApart(p: nat, z: Zone, c: nat, d: nat, zoneSize: nat)
    requires ZoneOk(z, zoneSize) && c < d < z.nmax
    ensures p * PAGE_SIZE + ZONE_HEADER <= ChunkAddress(p, z, c)
    ensures ChunkAddress(p, z, c) + z.chunkSize <= ChunkAddress(p, z, d)
    ensures ChunkAddress(p, z, d) + z.chunkSize <= p * PAGE_SIZE + zoneSize
  {
    MulMono(0, c, z.chunkSize);
    MulMono(c + 1, d, z.chunkSize);
    MulMono(d + 1, z.nmax, z.chunkSize);
    Spread(c, z.chunkSize);
    Spread(d, z.chunkSize);
  }

  /**
   * Chunks are aligned to eight bytes. A chunk whose size is a power of two is aligned to its size exactly when the page of
   * its zone is, which holds for every size up to a page.
   */
  lemma ChunkAligned(p: nat, z: Zone, c: nat, zoneSize: nat)
    requires ZoneOk(z, zoneSize)
    ensures ChunkAddress(p, z, c) % 8 == 0
    ensures PowerTest(z.chunkSize) ==> (ChunkAddress(p, z, c) % z.chunkSize == 0 <==> p * PAGE_SIZE % z.chunkSize == 0)
    ensures PowerTest(z.chunkSize) && z.chunkSize <= PAGE_SIZE ==> ChunkAddress(p, z, c) % z.chunkSize == 0
  {
    var size := z.chunkSize;
    SizesOfEight(z.index);
    assert OffsetAligned(z);
    hide PowerTest, ChunkSize, ZoneOk;
    AddressMultiple(p * PAGE_SIZE, z.off, c, size, 8);
    Multiple(p, PAGE_SIZE, 8);
    if PowerTest(size) {
      AddressMultiple(p * PAGE_SIZE, z.off, c, size, size);
      if size <= PAGE_SIZE {
        PowerDividesPage(size);
        Multiple(p, PAGE_SIZE, size);
      }
    }
  }

  lemma AddressMultiple(base: nat, off: nat, c: nat, size: nat, d: nat)
    requires d > 0 && off % d == 0 && size % d == 0
    ensures (base + off + c * size) % d == 0 <==> base % d == 0
  {
    Multiple(c, size, d);
    SumMultiple(base + off, c * size, d);
    SumMultiple(base, off, d);
  }

  /** From the address of a chunk rt_free finds the page inside the zone and the chunk. */
  lemma AddressDecodes(p: nat, z: Zone, c: nat, zonePages: nat)
    requires ZoneOk(z, zonePages * PAGE_SIZE) && c < z.nmax
    ensures var a := ChunkAddress(p, z, c);
            && p <= a / PAGE_SIZE < p + zonePages
            && a >= p * PAGE_SIZE + z.off && (a - p * PAGE_SIZE - z.off) / z.chunkSize == c
  {
    var m := c * z.chunkSize;
    MulMono(0, c, z.chunkSize);
    MulMono(c + 1, z.nmax, z.chunkSize);
    Spread(c, z.chunkSize);
    DivUnique(m, c, z.chunkSize);
    PageOf(p, z.off + m, zonePages);
  }

  lemma PageOf(p: nat, x: nat, zonePages: nat)
    requires x < zonePages * PAGE_SIZE
    ensures p <= (p * PAGE_SIZE + x) / PAGE_SIZE < p + zonePages
  {
  }
}
