/** Single bits of the 32-bit group word. */
module WordBits {
  function Bit(p: nat): bv32
    requires p < 32
  {
    1 as bv32 << p
  }

  function Or(g: bv32, mask: bv32): bv32 { g | mask }

  function AndNot(g: bv32, mask: bv32): bv32 { g & !mask }

  predicate Meets(g: bv32, mask: bv32) { g & mask != 0 }

  predicate Has(g: bv32, p: nat)
    requires p < 32
  {
    Meets(g, Bit(p))
  }

  lemma BitsDistinct(p: nat, q: nat)
    requires p < 32 && q < 32 && p != q
    ensures !Meets(Bit(p), Bit(q))
  {
  }

  lemma BitsNonzero(p: nat)
    requires p < 32
    ensures Meets(Bit(p), Bit(p))
  {
  }

  // ----- bit by bit -----

  function And(g: bv32, mask: bv32): bv32 { g & mask }

  predicate Within(a: bv32, b: bv32) { a & b == a }

  predicate Nonempty(a: bv32) { a != 0 }

  predicate OneBit(x: bv32) { x != 0 && x & (x - 1) == 0 }

  lemma BitIsOne(p: nat)
    requires p < 32
    ensures OneBit(Bit(p))
  {
  }

  /** A mask of one bit is met exactly if it is contained. */
  lemma OneBitWithin(a: bv32, x: bv32)
    requires OneBit(x) && Meets(a, x)
    ensures Within(x, a)
  {
  }

  lemma WithinMeets(a: bv32, x: bv32)
    requires Within(x, a) && OneBit(x)
    ensures Meets(a, x)
  {
  }

  lemma AndMeets(a: bv32, b: bv32, x: bv32)
    requires Meets(And(a, b), x)
    ensures Meets(a, x) && Meets(b, x)
  {
  }

  lemma AndContains(a: bv32, b: bv32, x: bv32)
    requires Within(x, a) && Within(x, b)
    ensures Within(x, And(a, b))
  {
  }

  /** `&`, bit by bit. */
  lemma AndHas(a: bv32, b: bv32, p: nat)
    requires p < 32
    ensures Has(And(a, b), p) <==> Has(a, p) && Has(b, p)
  {
    hide Bit, And, Meets, Within, OneBit;
    var x := Bit(p);
    BitIsOne(p);
    if Meets(And(a, b), x) {
      AndMeets(a, b, x);
    }
    if Meets(a, x) && Meets(b, x) {
      OneBitWithin(a, x);
      OneBitWithin(b, x);
      AndContains(a, b, x);
      WithinMeets(And(a, b), x);
    }
  }

  lemma OrMeets(a: bv32, b: bv32, x: bv32)
    requires Meets(a, x)
    ensures Meets(Or(a, b), x) && Meets(Or(b, a), x)
  {
  }

  lemma OrMisses(a: bv32, b: bv32, x: bv32)
    requires !Meets(a, x) && !Meets(b, x)
    ensures !Meets(Or(a, b), x)
  {
  }

  /** `|`, bit by bit. */
  lemma OrHas(a: bv32, b: bv32, p: nat)
    requires p < 32
    ensures Has(Or(a, b), p) <==> Has(a, p) || Has(b, p)
  {
    hide Bit, Or, Meets;
    var x := Bit(p);
    if Meets(a, x) {
      OrMeets(a, b, x);
    } else if Meets(b, x) {
      OrMeets(b, a, x);
    } else {
      OrMisses(a, b, x);
    }
  }

  lemma AndNotMeets(a: bv32, b: bv32, x: bv32)
    requires Meets(AndNot(a, b), x)
    ensures Meets(a, x)
  {
  }

  lemma AndNotMisses(a: bv32, b: bv32, x: bv32)
    requires Meets(AndNot(a, b), x)
    ensures !Within(x, b)
  {
  }

  lemma AndNotKeeps(a: bv32, b: bv32, x: bv32)
    requires Within(x, a) && !Meets(b, x) && OneBit(x)
    ensures Meets(AndNot(a, b), x)
  {
  }

  /** `& ~`, bit by bit. */
  lemma AndNotHas(a: bv32, b: bv32, p: nat)
    requires p < 32
    ensures Has(AndNot(a, b), p) <==> Has(a, p) && !Has(b, p)
  {
    hide Bit, AndNot, Meets, Within, OneBit;
    var x := Bit(p);
    BitIsOne(p);
    if Meets(AndNot(a, b), x) {
      AndNotMeets(a, b, x);
      AndNotMisses(a, b, x);
      if Meets(b, x) {
        OneBitWithin(b, x);
      }
    } else if Meets(a, x) && !Meets(b, x) {
      OneBitWithin(a, x);
      AndNotKeeps(a, b, x);
    }
  }

  lemma NotWithin(a: bv32, b: bv32)
    ensures Within(a, b) <==> !Nonempty(AndNot(a, b))
  {
  }

  lemma MeetsAnd(a: bv32, b: bv32)
    ensures Meets(a, b) <==> Nonempty(And(a, b))
  {
  }

  lemma SetHas(g: bv32, p: nat, q: nat)
    requires p < 32 && q < 32
    ensures Has(Or(g, Bit(p)), q) <==> p == q || Has(g, q)
    ensures Has(AndNot(g, Bit(p)), q) <==> p != q && Has(g, q)
  {
    hide Bit, Or, AndNot, Meets;
    OrHas(g, Bit(p), q);
    AndNotHas(g, Bit(p), q);
    if p == q {
      BitsNonzero(p);
    } else {
      BitsDistinct(p, q);
    }
  }
}

/** Single bits of a byte of the ready table. */
module ByteBits {
  function Bit8(p: nat): bv8
    requires p < 8
  {
    1 as bv8 << p
  }

  function Or8(g: bv8, mask: bv8): bv8 { g | mask }

  function AndNot8(g: bv8, mask: bv8): bv8 { g & !mask }

  predicate Zero8(g: bv8) { g == 0 }

  function Widen(g: bv8): bv32 { g as bv32 }

  predicate Has8(g: bv8, p: nat)
    requires p < 8
  {
    g & Bit8(p) != 0
  }

  lemma SetHas8(g: bv8, p: nat, q: nat)
    requires p < 8 && q < 8
    ensures Has8(Or8(g, Bit8(p)), q) <==> p == q || Has8(g, q)
  {
  }

  lemma ClearHas8(g: bv8, p: nat, q: nat)
    requires p < 8 && q < 8
    ensures Has8(AndNot8(g, Bit8(p)), q) <==> p != q && Has8(g, q)
  {
  }
}

/** The ready bitmap: one word for 32 priorities, or a group word over 32 bytes for 256. */
module ReadyBits {
  import opened WordBits
  import opened ByteBits

  // ----- find first set -----

  /** __lowest_bit_bitmap, sixteen entries a row; the rows differ in their first entry only. */
  function LowestBitRow(row: nat): seq<nat>
    requires row < 16
  {
    [[0, 4, 5, 4, 6, 4, 5, 4, 7, 4, 5, 4, 6, 4, 5, 4][row], 0, 1, 0, 2, 0, 1, 0, 3, 0, 1, 0, 2, 0, 1, 0]
  }

  function LowestBit(v: bv8): nat { LowestBitRow((v >> 4) as nat)[(v & 15) as nat] }

  /** __rt_ffs */
  function Ffs(value: bv32): nat {
    if value == 0 then 0
    else if value & 0xff != 0 then LowestBit((value & 0xff) as bv8) + 1
    else if value & 0xff00 != 0 then LowestBit(((value & 0xff00) >> 8) as bv8) + 9
    else if value & 0xff0000 != 0 then LowestBit(((value & 0xff0000) >> 16) as bv8) + 17
    else LowestBit(((value & 0xff000000) >> 24) as bv8) + 25
  }

  /** The table holds the least set bit of its index. */
  lemma LowestBitLeast(v: bv8)
    requires v != 0
    ensures LowestBit(v) < 8 && Has8(v, LowestBit(v))
    ensures forall q :: 0 <= q < LowestBit(v) ==> !Has8(v, q)
  {
  }

  /** Byte `k` of a word. */
  function Byte(value: bv32, k: nat): bv8
    requires k < 4
  {
    if k == 0 then (value & 0xff) as bv8
    else if k == 1 then ((value & 0xff00) >> 8) as bv8
    else if k == 2 then ((value & 0xff0000) >> 16) as bv8
    else ((value & 0xff000000) >> 24) as bv8
  }

  lemma BitOfByte(value: bv32, k: nat, r: nat)
    requires k < 4 && r < 8
    ensures Has(value, 8 * k + r) <==> Has8(Byte(value, k), r)
  {
    if k == 0 { BitOfByte0(value, r); }
    else if k == 1 { BitOfByte1(value, r); }
    else if k == 2 { BitOfByte2(value, r); }
    else { BitOfByte3(value, r); }
    hide Has, Has8, Byte;
  }

  lemma BitOfByte0(value: bv32, r: nat)
    requires r < 8
    ensures Has(value, r) <==> Has8(Byte(value, 0), r)
  {
  }

  lemma BitOfByte1(value: bv32, r: nat)
    requires r < 8
    ensures Has(value, 8 + r) <==> Has8(Byte(value, 1), r)
  {
  }

  lemma BitOfByte2(value: bv32, r: nat)
    requires r < 8
    ensures Has(value, 16 + r) <==> Has8(Byte(value, 2), r)
  {
  }

  lemma BitOfByte3(value: bv32, r: nat)
    requires r < 8
    ensures Has(value, 24 + r) <==> Has8(Byte(value, 3), r)
  {
  }

  lemma LowBytesClear(value: bv32, k: nat, q: nat)
    requires k < 4 && q < 8 * k && forall i :: 0 <= i < k ==> Byte(value, i) == 0
    ensures !Has(value, q)
  {
    BitOfByte(value, q / 8, q % 8);
  }

  lemma ByteLeast(value: bv32, k: nat)
    requires k < 4 && Byte(value, k) != 0 && forall i :: 0 <= i < k ==> Byte(value, i) == 0
    ensures var p := LowestBit(Byte(value, k)) + 8 * k;
            p < 32 && Has(value, p) && forall q :: 0 <= q < p ==> !Has(value, q)
  {
    LowestBitLeast(Byte(value, k));
    BitOfByte(value, k, LowestBit(Byte(value, k)));
    hide Has, Has8;
    forall q | 0 <= q < LowestBit(Byte(value, k)) + 8 * k
      ensures !Has(value, q)
    {
      if q < 8 * k {
        LowBytesClear(value, k, q);
      } else {
        BitOfByte(value, k, q - 8 * k);
      }
    }
  }

  lemma BytesCover(value: bv32)
    ensures value & 0xff != 0 <==> Byte(value, 0) != 0
    ensures value & 0xff00 != 0 <==> Byte(value, 1) != 0
    ensures value & 0xff0000 != 0 <==> Byte(value, 2) != 0
    ensures value == 0 <==> Byte(value, 0) == Byte(value, 1) == Byte(value, 2) == Byte(value, 3) == 0
  {
  }

  /** __rt_ffs is the least set bit, counted from one. */
  lemma FfsLeast(value: bv32)
    ensures Ffs(value) == 0 <==> value == 0
    ensures value != 0 ==> 1 <= Ffs(value) <= 32 && Has(value, Ffs(value) - 1)
    ensures forall q :: 0 <= q < 32 && q + 1 < Ffs(value) ==> !Has(value, q)
  {
    BytesCover(value);
    if value != 0 {
      var k := if Byte(value, 0) != 0 then 0 else if Byte(value, 1) != 0 then 1 else if Byte(value, 2) != 0 then 2 else 3;
      ByteLeast(value, k);
      assert Ffs(value) == LowestBit(Byte(value, k)) + 8 * k + 1;
    }
  }

  // ----- the bitmap over priorities -----

  /** rt_thread_ready_priority_group and rt_thread_ready_table; the table is used only above 32 priorities. */
  datatype Bits = Bits(group: bv32, table: seq<bv8>)

  /** The priority attributes that a thread keeps: number, number_mask and high_mask. */
  datatype Mask = Mask(number: nat, numberMask: bv32, highMask: bv8)

  function Levels(wide: bool): nat { if wide then 256 else 32 }

  function MaskOf(p: nat, wide: bool): Mask
    requires p < Levels(wide)
  {
    if wide then Mask(p / 8, Bit(p / 8), Bit8(p % 8)) else Mask(0, Bit(p), 0)
  }

  predicate IsSet(b: Bits, wide: bool, p: nat)
    requires p < Levels(wide) && |b.table| == 32
  {
    if wide then Has8(b.table[p / 8], p % 8) else Has(b.group, p)
  }

  /** With two levels, a group bit is set exactly when its byte is not zero. */
  predicate Consistent(b: Bits, wide: bool) {
    |b.table| == 32 && (wide ==> forall n :: 0 <= n < 32 ==> GroupAgrees(b, n))
  }

  predicate GroupAgrees(b: Bits, n: nat)
    requires |b.table| == 32 && n < 32
  {
    Has(b.group, n) <==> !Zero8(b.table[n])
  }

  /** The bitmap part of rt_schedule_insert_thread. */
  function PutBits(b: Bits, m: Mask, wide: bool): Bits
    requires |b.table| == 32 && m.number < 32
  {
    Bits(Or(b.group, m.numberMask), if wide then b.table[m.number := Or8(b.table[m.number], m.highMask)] else b.table)
  }

  /** The bitmap part of rt_schedule_remove_thread, run when the ready list became empty. */
  function DropBits(b: Bits, m: Mask, wide: bool): Bits
    requires |b.table| == 32 && m.number < 32
  {
    if wide then
      var table := b.table[m.number := AndNot8(b.table[m.number], m.highMask)];
      Bits(if Zero8(table[m.number]) then AndNot(b.group, m.numberMask) else b.group, table)
    else
      Bits(AndNot(b.group, m.numberMask), b.table)
  }

  lemma NonzeroByte(v: bv8, r: nat)
    requires r < 8 && Has8(v, r)
    ensures !Zero8(v)
  {
  }

  lemma PutSets(b: Bits, p: nat, wide: bool)
    requires p < Levels(wide) && Consistent(b, wide)
    ensures Consistent(PutBits(b, MaskOf(p, wide), wide), wide)
    ensures forall q :: 0 <= q < Levels(wide) ==> (IsSet(PutBits(b, MaskOf(p, wide), wide), wide, q)
        <==> q == p || IsSet(b, wide, q))
  {
    hide Bit, Bit8, Or, Or8, Zero8, Has, Has8;
    var b' := PutBits(b, MaskOf(p, wide), wide);
    if wide {
      SetHas8(b.table[p / 8], p % 8, p % 8);
      NonzeroByte(b'.table[p / 8], p % 8);
      forall n | 0 <= n < 32
        ensures GroupAgrees(b', n)
      {
        SetHas(b.group, p / 8, n);
        assert GroupAgrees(b, n);
      }
    }
    forall q | 0 <= q < Levels(wide)
      ensures IsSet(b', wide, q) <==> q == p || IsSet(b, wide, q)
    {
      if wide {
        SetHas8(b.table[p / 8], p % 8, q % 8);
      } else {
        SetHas(b.group, p, q);
      }
    }
  }

  lemma DropClears(b: Bits, p: nat, wide: bool)
    requires p < Levels(wide) && Consistent(b, wide)
    ensures Consistent(DropBits(b, MaskOf(p, wide), wide), wide)
    ensures forall q :: 0 <= q < Levels(wide) ==> (IsSet(DropBits(b, MaskOf(p, wide), wide), wide, q) <==> q != p && IsSet(b, wide, q))
  {
    hide Bit, Bit8, AndNot, AndNot8, Zero8, Has, Has8;
    var b' := DropBits(b, MaskOf(p, wide), wide);
    if wide {
      var v := b.table[p / 8];
      AndNotSubset(v, Bit8(p % 8));
      forall n | 0 <= n < 32
        ensures GroupAgrees(b', n)
      {
        SetHas(b.group, p / 8, n);
        assert GroupAgrees(b, n);
      }
    }
    forall q | 0 <= q < Levels(wide)
      ensures IsSet(b', wide, q) <==> q != p && IsSet(b, wide, q)
    {
      if wide {
        ClearHas8(b.table[p / 8], p % 8, q % 8);
      } else {
        SetHas(b.group, p, q);
      }
    }
  }

  lemma AndNotSubset(v: bv8, mask: bv8)
    ensures Zero8(v) ==> Zero8(AndNot8(v, mask))
  {
  }

  /** The priority that rt_schedule reads out of the bitmap. */
  function Highest(b: Bits, wide: bool): int
    requires |b.table| == 32
  {
    if wide then
      var number := Ffs(b.group) - 1;
      if 0 <= number < 32 then 8 * number + Ffs(Widen(b.table[number])) - 1 else -1
    else
      Ffs(b.group) - 1
  }

  lemma WidenByte(v: bv8, r: nat)
    requires r < 32
    ensures Has(Widen(v), r) <==> r < 8 && Has8(v, r)
  {
  }

  lemma ByteZero(v: bv8)
    ensures Widen(v) == 0 <==> Zero8(v)
  {
  }

  /** Both forms of the bitmap yield the least priority that is set. */
  lemma HighestIsLeast(b: Bits, wide: bool, p: nat)
    requires Consistent(b, wide) && p < Levels(wide) && IsSet(b, wide, p)
    ensures 0 <= Highest(b, wide) <= p && IsSet(b, wide, Highest(b, wide))
  {
    FfsLeast(b.group);
    hide Ffs, Has, Has8, Zero8, Widen;
    if wide {
      NonzeroByte(b.table[p / 8], p % 8);
      assert GroupAgrees(b, p / 8);
      HasNonzero(b.group, p / 8);
      var number := Ffs(b.group) - 1;
      assert GroupAgrees(b, number);
      ByteZero(b.table[number]);
      FfsLeast(Widen(b.table[number]));
      WidenByte(b.table[number], Ffs(Widen(b.table[number])) - 1);
      WidenByte(b.table[p / 8], p % 8);
    } else {
      HasNonzero(b.group, p);
    }
  }

  lemma HasNonzero(g: bv32, p: nat)
    requires p < 32 && Has(g, p)
    ensures g != 0
  {
  }
}
