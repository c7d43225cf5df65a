/**
  Bit fields in memory (Musashi/m68kcpu.h): 1 to 32 bits at any signed bit
  offset from an address, read and written through at most five bytes.
 */
module Bitfield {
  import opened GuestMemory

  // Data are bit vectors, shifted and masked as in C; addresses and small
  // counts are integers, and `Bv` is a count as a shift amount.  Memory is also
  // viewed as one big-endian bit string of 2^35 bits, the most significant bit
  // of byte 0 first; addresses wrap at 4 GB.

  type Ram = map<Long, bv8>
  type Offset = x: int | 0 <= x < 8
  type Width = x: int | 1 <= x <= 32 witness 1

  function Read8(m: Ram, a: int): bv8 {
    if Wrap32(a) in m then m[Wrap32(a)] else 0
  }

  // Big-endian words and longs, and their parts.

  function Pair(hi: bv8, lo: bv8): bv16 { ((hi as bv16) << 8) | (lo as bv16) }
  function Join(hi: bv16, lo: bv16): bv32 { ((hi as bv32) << 16) | (lo as bv32) }
  function HighByte(w: bv16): bv8 { (w >> 8) as bv8 }
  function LowByte(w: bv16): bv8 { (w & 0xff) as bv8 }
  function HighWord(v: bv32): bv16 { ((v >> 16) & 0xffff) as bv16 }
  function LowWord(v: bv32): bv16 { (v & 0xffff) as bv16 }

  function Read16(m: Ram, a: int): bv16 {
    Pair(Read8(m, a), Read8(m, a + 1))
  }

  function Read32(m: Ram, a: int): bv32 {
    Join(Read16(m, a), Read16(m, a + 2))
  }

  function Write8(m: Ram, a: int, v: bv8): Ram {
    m[Wrap32(a) := v]
  }

  function Write16(m: Ram, a: int, v: bv16): Ram {
    Write8(Write8(m, a, HighByte(v)), a + 1, LowByte(v))
  }

  function Write32(m: Ram, a: int, v: bv32): Ram {
    Write16(Write16(m, a, HighWord(v)), a + 2, LowWord(v))
  }

  /** A small count as a shift amount. */
  function Bv(x: int): bv8
    requires 0 <= x <= 40
  {
    if x == 0 then 0 else Bv(x - 1) + 1
  }

  function ByteBitAt(b: bv8, k: bv8): bv1
    requires k < 8
  {
    ((b >> (7 - k)) & 1) as bv1
  }

  function LongBitAt(v: bv32, i: bv8): bv1
    requires i < 32
  {
    ((v >> (31 - i)) & 1) as bv1
  }

  // ------------------------------------------------------ counts and shifts

  lemma {:induction false} BvValue(x: int)
    requires 0 <= x <= 40
    ensures Bv(x) as int == x
  {
    if x > 0 { BvValue(x - 1); }
  }

  lemma BvOrder(x: int, y: int)
    requires 0 <= x <= 40 && 0 <= y <= 40
    ensures Bv(x) < Bv(y) <==> x < y
    ensures Bv(x) <= Bv(y) <==> x <= y
  {
    BvValue(x);
    BvValue(y);
  }

  lemma {:induction false} BvSum(x: int, y: int)
    requires 0 <= x && 0 <= y && x + y <= 40
    ensures Bv(x + y) == Bv(x) + Bv(y)
    decreases y
  {
    if y > 0 { BvSum(x, y - 1); }
  }

  lemma BvConstants()
    ensures Bv(8) == 8 && Bv(32) == 32 && Bv(40) == 40
  {
    assert Bv(2) == 2;
    BvSum(2, 2);
    BvSum(4, 4);
    BvSum(8, 8);
    BvSum(16, 16);
    BvSum(32, 8);
  }

  /** Bit `k` of a byte, and bit `i` of a long, counted from the most significant. */
  function ByteBit(b: bv8, k: int): bv1
    requires 0 <= k < 8
  {
    BvConstants();
    BvOrder(k, 8);
    ByteBitAt(b, Bv(k))
  }

  function LongBit(v: bv32, i: int): bv1
    requires 0 <= i < 32
  {
    BvConstants();
    BvOrder(i, 32);
    LongBitAt(v, Bv(i))
  }

  /** Bit `p` of memory as one bit string that wraps around. */
  function MemoryBit(m: Ram, p: int): bv1 {
    ByteBit(Read8(m, p / 8), p % 8)
  }

  // ------------------------------------------------------ the source's code

  datatype Field = Field(field: bv32, lo: bv32, hi: bv8)

  function MakeField(lo: bv32, hi: bv8, offset: bv8): Field
    requires offset < 8
  {
    Field((lo << offset) | ((hi as bv32) >> (8 - offset)), lo, hi)
  }

  /** How many bytes a field at `offset` in its first byte touches. */
  function ByteCount(offset: Offset, width: Width): (n: int)
    ensures 1 <= n <= 5
    ensures 8 * (n - 1) < offset + width <= 8 * n
  {
    (offset + width + 7) / 8
  }

  function Shift(offset: Offset): (s: bv8)
    ensures s < 8
  {
    BvConstants();
    BvOrder(offset, 8);
    Bv(offset)
  }

  // One, two or three bytes at the top of a long.

  function Top8(b: bv8): bv32 { (b as bv32) << 24 }
  function Top16(w: bv16): bv32 { (w as bv32) << 16 }
  function Top24(w: bv16, b: bv8): bv32 { ((w as bv32) << 16) | ((b as bv32) << 8) }

  function Load(m: Ram, addr: Long, offset: Offset, width: Width): Field {
    var n := ByteCount(offset, width);
    if n == 1 then MakeField(Top8(Read8(m, addr)), 0, Shift(offset))
    else if n < 4 then
      var lo1 := Read16(m, addr);
      if n == 2 then MakeField(Top16(lo1), 0, Shift(offset))
      else MakeField(Top24(lo1, Read8(m, addr + 2)), 0, Shift(offset))
    else
      var lo := Read32(m, addr);
      if n == 4 then MakeField(lo, 0, Shift(offset))
      else MakeField(lo, Read8(m, addr + 4), Shift(offset))
  }

  /** A left shift that also works for 32 and more. */
  function ShiftLeftSafe(v: bv32, shift: bv8): bv32 {
    if shift < 32 then v << shift else 0
  }

  function PatchOffset(offset: Int32): Offset {
    Wrap32(offset) % 8
  }

  /** C's division truncates, so negative offsets are rounded down by hand. */
  function PatchAddress(ea: Long, offset: Int32): Long {
    Wrap32(ea + if offset >= 0 then offset / 8 else -((7 - offset) / 8))
  }

  /** The bytes around the field with its 32 bits replaced by `res`. */
  function MergedLo(lo: bv32, res: bv32, offset: bv8): bv32
    requires offset < 8
  {
    (lo & ShiftLeftSafe(0xffff_ffff, 32 - offset)) | (res >> offset)
  }

  function MergedHi(hi: bv8, res: bv32, offset: bv8): bv8
    requires offset < 8
  {
    (hi & (((0xff as bv32) >> offset) & 0xff) as bv8) | ((res << (8 - offset)) & 0xff) as bv8
  }

  // ------------------------------------------------- windows of five bytes

  function WindowBitAt(lo: bv32, hi: bv8, j: bv8): bv1
    requires j < 40
  {
    if j < 32 then LongBitAt(lo, j) else ByteBitAt(hi, j - 32)
  }

  lemma FieldBitAt(lo: bv32, hi: bv8, offset: bv8, i: bv8)
    requires offset < 8 && i < 32
    ensures LongBitAt(MakeField(lo, hi, offset).field, i) == WindowBitAt(lo, hi, offset + i)
  {
  }

  lemma MergedBitAt(lo: bv32, hi: bv8, res: bv32, offset: bv8, j: bv8)
    requires offset < 8 && j < 40
    ensures WindowBitAt(MergedLo(lo, res, offset), MergedHi(hi, res, offset), j)
         == if offset <= j < offset + 32 then LongBitAt(res, j - offset) else WindowBitAt(lo, hi, j)
  {
    if j < offset {
    } else if j < 32 {
    } else if j < offset + 32 {
    } else {
    }
  }

  /** `res` agrees with `field` below its top `width` bits. */
  predicate ReplacesTop(field: bv32, res: bv32, width: Width) {
    ShiftLeftSafe(field ^ res, Bv(width)) == 0
  }

  lemma ReplacesTopAt(field: bv32, res: bv32, width: bv8, i: bv8)
    requires ShiftLeftSafe(field ^ res, width) == 0 && width <= i < 32
    ensures LongBitAt(field, i) == LongBitAt(res, i)
  {
  }

  function WindowByte(lo: bv32, hi: bv8, c: int): bv8
    requires 0 <= c < 5
  {
    if c == 0 then (lo >> 24) as bv8
    else if c == 1 then ((lo >> 16) & 0xff) as bv8
    else if c == 2 then ((lo >> 8) & 0xff) as bv8
    else if c == 3 then (lo & 0xff) as bv8
    else hi
  }

  /** Bit `j` of the five bytes. */
  function WindowBit(lo: bv32, hi: bv8, j: int): bv1
    requires 0 <= j < 40
  {
    ByteBit(WindowByte(lo, hi, j / 8), j % 8)
  }

  lemma WindowBitInByte(lo: bv32, hi: bv8, c: int, k: bv8)
    requires 0 <= c < 5 && k < 8
    ensures c == 0 ==> WindowBitAt(lo, hi, k) == ByteBitAt(WindowByte(lo, hi, 0), k)
    ensures c == 1 ==> WindowBitAt(lo, hi, 8 + k) == ByteBitAt(WindowByte(lo, hi, 1), k)
    ensures c == 2 ==> WindowBitAt(lo, hi, 16 + k) == ByteBitAt(WindowByte(lo, hi, 2), k)
    ensures c == 3 ==> WindowBitAt(lo, hi, 24 + k) == ByteBitAt(WindowByte(lo, hi, 3), k)
    ensures c == 4 ==> WindowBitAt(lo, hi, 32 + k) == ByteBitAt(WindowByte(lo, hi, 4), k)
  {
  }

  lemma BvBytes()
    ensures Bv(0) == 0 && Bv(8) == 8 && Bv(16) == 16 && Bv(24) == 24 && Bv(32) == 32
  {
    BvConstants();
    BvSum(8, 8);
    BvSum(16, 8);
  }

  lemma WindowBitIsAt(lo: bv32, hi: bv8, j: int)
    requires 0 <= j < 40
    ensures Bv(j) < 40 && WindowBit(lo, hi, j) == WindowBitAt(lo, hi, Bv(j))
  {
    hide Bv, WindowByte, WindowBitAt, ByteBitAt;
    var c, k := j / 8, j % 8;
    BvConstants();
    BvOrder(k, 8);
    BvOrder(j, 40);
    BvBytes();
    BvSum(8 * c, k);
    WindowBitInByte(lo, hi, c, Bv(k));
    if c == 0 {} else if c == 1 {} else if c == 2 {} else if c == 3 {} else { assert c == 4; }
  }

  /** The loaded field's bits are the window's, from `offset` on. */
  lemma FieldBit(lo: bv32, hi: bv8, offset: Offset, i: int)
    requires 0 <= i < 32
    ensures LongBit(MakeField(lo, hi, Shift(offset)).field, i) == WindowBit(lo, hi, offset + i)
  {
    hide Bv, MakeField, WindowBitAt, WindowBit, LongBitAt;
    BvConstants();
    BvOrder(i, 32);
    BvSum(offset, i);
    FieldBitAt(lo, hi, Shift(offset), Bv(i));
    WindowBitIsAt(lo, hi, offset + i);
  }

  /** Merging replaces 32 bits of the window and leaves the others. */
  lemma MergedBit(lo: bv32, hi: bv8, res: bv32, offset: Offset, j: int)
    requires 0 <= j < 40
    ensures WindowBit(MergedLo(lo, res, Shift(offset)), MergedHi(hi, res, Shift(offset)), j)
         == if offset <= j < offset + 32 then LongBit(res, j - offset) else WindowBit(lo, hi, j)
  {
    hide Bv, MergedLo, MergedHi, WindowBitAt, WindowBit, LongBitAt;
    BvConstants();
    BvOrder(j, 40);
    BvOrder(offset, j);
    BvSum(offset, 32);
    BvOrder(j, offset + 32);
    MergedBitAt(lo, hi, res, Shift(offset), Bv(j));
    WindowBitIsAt(MergedLo(lo, res, Shift(offset)), MergedHi(hi, res, Shift(offset)), j);
    WindowBitIsAt(lo, hi, j);
    if offset <= j < offset + 32 {
      BvSum(offset, j - offset);
      BvOrder(j - offset, 32);
    }
  }

  lemma ReplacesTopBit(field: bv32, res: bv32, width: Width, i: int)
    requires ReplacesTop(field, res, width) && width <= i < 32
    ensures LongBit(field, i) == LongBit(res, i)
  {
    hide Bv, ShiftLeftSafe, LongBitAt;
    BvConstants();
    BvOrder(i, 32);
    BvOrder(width, i);
    ReplacesTopAt(field, res, Bv(width), Bv(i));
  }

  lemma Packed2(b0: bv8, b1: bv8, hi: bv8)
    ensures WindowByte(Top8(b0), hi, 0) == b0
    ensures WindowByte(Top16(Pair(b0, b1)), hi, 0) == b0 && WindowByte(Top16(Pair(b0, b1)), hi, 1) == b1
  {
  }

  lemma Packed3(b0: bv8, b1: bv8, b2: bv8, hi: bv8)
    ensures var lo := Top24(Pair(b0, b1), b2);
            WindowByte(lo, hi, 0) == b0 && WindowByte(lo, hi, 1) == b1 && WindowByte(lo, hi, 2) == b2
  {
  }

  lemma Packed4High(b0: bv8, b1: bv8, w: bv16, hi: bv8)
    ensures WindowByte(Join(Pair(b0, b1), w), hi, 0) == b0 && WindowByte(Join(Pair(b0, b1), w), hi, 1) == b1
  {
  }

  lemma Packed4Low(w: bv16, b2: bv8, b3: bv8, hi: bv8)
    ensures WindowByte(Join(w, Pair(b2, b3)), hi, 2) == b2 && WindowByte(Join(w, Pair(b2, b3)), hi, 3) == b3
    ensures WindowByte(Join(w, Pair(b2, b3)), hi, 4) == hi
  {
  }

  lemma FieldKeeps()
    ensures forall lo, hi, offset: bv8 | offset < 8 ::
              MakeField(lo, hi, offset).lo == lo && MakeField(lo, hi, offset).hi == hi
  {
  }

  lemma Loaded1(m: Ram, addr: Long, offset: Offset, width: Width)
    requires ByteCount(offset, width) == 1
    ensures var f := Load(m, addr, offset, width);
            WindowByte(f.lo, f.hi, 0) == Read8(m, addr + 0)
  {
    hide Read8, ByteCount, Shift, Wrap32, WindowByte, Top8, Top16, Top24, Pair, Join, MakeField;
    FieldKeeps();
    var f := Load(m, addr, offset, width);
    Packed2(Read8(m, addr), Read8(m, addr + 1), f.hi);
  }

  lemma Loaded2(m: Ram, addr: Long, offset: Offset, width: Width)
    requires ByteCount(offset, width) == 2
    ensures var f := Load(m, addr, offset, width);
            WindowByte(f.lo, f.hi, 0) == Read8(m, addr + 0) && WindowByte(f.lo, f.hi, 1) == Read8(m, addr + 1)
  {
    hide Read8, ByteCount, Shift, Wrap32, WindowByte, Top8, Top16, Top24, Pair, Join, MakeField;
    FieldKeeps();
    var f := Load(m, addr, offset, width);
    Packed2(Read8(m, addr), Read8(m, addr + 1), f.hi);
  }

  lemma Loaded3(m: Ram, addr: Long, offset: Offset, width: Width)
    requires ByteCount(offset, width) == 3
    ensures var f := Load(m, addr, offset, width);
            WindowByte(f.lo, f.hi, 0) == Read8(m, addr + 0) && WindowByte(f.lo, f.hi, 1) == Read8(m, addr + 1)
                && WindowByte(f.lo, f.hi, 2) == Read8(m, addr + 2)
  {
    hide Read8, ByteCount, Shift, Wrap32, WindowByte, Top8, Top16, Top24, Pair, Join, MakeField;
    FieldKeeps();
    var f := Load(m, addr, offset, width);
    Packed3(Read8(m, addr), Read8(m, addr + 1), Read8(m, addr + 2), f.hi);
  }

  lemma Loaded4(m: Ram, addr: Long, offset: Offset, width: Width)
    requires ByteCount(offset, width) == 4
    ensures var f := Load(m, addr, offset, width);
            WindowByte(f.lo, f.hi, 0) == Read8(m, addr + 0) && WindowByte(f.lo, f.hi, 1) == Read8(m, addr + 1)
                && WindowByte(f.lo, f.hi, 2) == Read8(m, addr + 2) && WindowByte(f.lo, f.hi, 3) == Read8(m, addr + 3)
  {
    hide Read8, ByteCount, Shift, Wrap32, WindowByte, Top8, Top16, Top24, Pair, Join, MakeField;
    FieldKeeps();
    var f := Load(m, addr, offset, width);
    Packed4High(Read8(m, addr), Read8(m, addr + 1), Read16(m, addr + 2), f.hi);
    Packed4Low(Read16(m, addr), Read8(m, addr + 2), Read8(m, addr + 3), f.hi);
  }

  lemma Loaded5(m: Ram, addr: Long, offset: Offset, width: Width)
    requires ByteCount(offset, width) == 5
    ensures var f := Load(m, addr, offset, width);
            WindowByte(f.lo, f.hi, 0) == Read8(m, addr + 0) && WindowByte(f.lo, f.hi, 1) == Read8(m, addr + 1)
                && WindowByte(f.lo, f.hi, 2) == Read8(m, addr + 2) && WindowByte(f.lo, f.hi, 3) == Read8(m, addr + 3)
                    && WindowByte(f.lo, f.hi, 4) == Read8(m, addr + 4)
  {
    hide Read8, ByteCount, Shift, Wrap32, WindowByte, Top8, Top16, Top24, Pair, Join, MakeField;
    FieldKeeps();
    var f := Load(m, addr, offset, width);
    Packed4High(Read8(m, addr), Read8(m, addr + 1), Read16(m, addr + 2), f.hi);
    Packed4Low(Read16(m, addr), Read8(m, addr + 2), Read8(m, addr + 3), f.hi);
  }

  lemma LoadKeepsWindow(m: Ram, addr: Long, offset: Offset, width: Width)
    ensures var f := Load(m, addr, offset, width); f == MakeField(f.lo, f.hi, Shift(offset))
  {
    hide Read8, Read16, Read32, ByteCount, Shift, Wrap32, Top8, Top16, Top24;
    hide MakeField;
    FieldKeeps();
  }

  /** Loading puts the bytes of memory in the window. */
  lemma LoadedByte(m: Ram, addr: Long, offset: Offset, width: Width, c: int)
    requires 0 <= c < ByteCount(offset, width)
    ensures var f := Load(m, addr, offset, width);
            WindowByte(f.lo, f.hi, c) == Read8(m, addr + c) && f == MakeField(f.lo, f.hi, Shift(offset))
  {
    hide Read8, ByteCount, Shift, Wrap32, WindowByte, Load, MakeField;
    LoadKeepsWindow(m, addr, offset, width);
    var n := ByteCount(offset, width);
    if n == 1 { Loaded1(m, addr, offset, width); }
    else if n == 2 { Loaded2(m, addr, offset, width); }
    else if n == 3 { Loaded3(m, addr, offset, width); }
    else if n == 4 { Loaded4(m, addr, offset, width); }
    else { Loaded5(m, addr, offset, width); }
    if c == 0 {} else if c == 1 {} else if c == 2 {} else if c == 3 {} else {}
  }

  // --------------------------------------------------------------- the unit

  /** Bit `p` belongs to the field; memory's bits form a circle. */
  predicate Within(addr: Long, offset: Offset, width: Width, p: int) {
    FieldIndex(addr, offset, p) < width
  }

  function FieldIndex(addr: Long, offset: Offset, p: int): int {
    (p - (8 * addr + offset)) % 0x8_0000_0000
  }

  lemma Locate(addr: Long, offset: Offset, width: Width, p: int)
    ensures var c := Wrap32(p / 8 - addr);
            && Wrap32(addr + c) == Wrap32(p / 8)
            && (Within(addr, offset, width, p) ==> c < ByteCount(offset, width))
            && (c < 5 ==> var j := 8 * c + p % 8;
                          && (Within(addr, offset, width, p) <==> offset <= j < offset + width)
                          && (offset <= j ==> FieldIndex(addr, offset, p) == j - offset))
  {
    hide ByteCount;
    var c := Wrap32(p / 8 - addr);
    SamePlaceAt(addr, p / 8);
    FieldIndexAt(addr, offset, p);
    IndexInWindow(8 * c + p % 8, offset, width);
  }

  lemma SamePlaceAt(addr: Long, x: int)
    ensures Wrap32(addr + Wrap32(x - addr)) == Wrap32(x)
  {
  }

  lemma FieldIndexAt(addr: Long, offset: Offset, p: int)
    ensures FieldIndex(addr, offset, p) == (8 * Wrap32(p / 8 - addr) + p % 8 - offset) % 0x8_0000_0000
  {
    var c := Wrap32(p / 8 - addr);
    var t := (p / 8 - addr) / 0x1_0000_0000;
    assert p / 8 - addr == t * 0x1_0000_0000 + c;
    assert p == 8 * (p / 8) + p % 8;
    ModShift(8 * c + p % 8 - offset, t);
  }

  /** Where in the 2^35 bits the field's index falls. */
  lemma IndexInWindow(j: int, offset: Offset, width: Width)
    requires 0 <= j < 0x8_0000_0000
    ensures (j - offset) % 0x8_0000_0000 == if offset <= j then j - offset else j - offset + 0x8_0000_0000
  {
  }

  lemma {:induction false} ModShift(x: int, t: int)
    ensures (x + t * 0x8_0000_0000) % 0x8_0000_0000 == x % 0x8_0000_0000
  {
  }

  /** `n` is `m` with the field's bits, and no others, replaced by the top bits of `res`. */
  ghost predicate FieldReplaced(m: Ram, n: Ram, addr: Long, offset: Offset, width: Width, res: bv32) {
    forall p :: MemoryBit(n, p) == (if Within(addr, offset, width, p) then LongBit(res, FieldIndex(addr, offset, p))
                                    else MemoryBit(m, p))
  }

  class BitfieldUnit {
    var memory: Ram

    /** Replaces a loaded field's top `width` bits by those of `res`; no other bit of memory changes. */
    method Store(addr: Long, offset: Offset, width: Width, res: bv32, bf: Field)
      requires bf == Load(memory, addr, offset, width) && ReplacesTop(bf.field, res, width)
      modifies this
      ensures FieldReplaced(old(memory), memory, addr, offset, width, res)
    {
      var n := ByteCount(offset, width);
      var lo := MergedLo(bf.lo, res, Shift(offset));
      var hi := MergedHi(bf.hi, res, Shift(offset));
      WriteBack(addr, n, lo, hi);
      forall p
        ensures MemoryBit(memory, p)
             == (if Within(addr, offset, width, p) then LongBit(res, FieldIndex(addr, offset, p))
                 else MemoryBit(old(memory), p))
      {
        StoredBit(old(memory), memory, addr, offset, width, res, p);
      }
    }

    /** Inserts the top `width` bits of `value` at a signed bit offset from an address: patch, load, replace, store. */
    method Insert(ea: Long, offset: Int32, width: Width, value: bv32)
      requires offset >= -0x8000_0000 + 8
      modifies this
      ensures forall p :: MemoryBit(memory, p) == InsertedBit(old(memory), ea, offset, width, value, p)
    {
      var addr, o := PatchAddress(ea, offset), PatchOffset(offset);
      var bf := Load(memory, addr, o, width);
      var res := WithTop(bf.field, value, width);
      WithTopReplacesTop(bf.field, value, width);
      Store(addr, o, width, res, bf);
      InsertingReplacesExactlyTheField(old(memory), memory, ea, offset, width, value);
    }

    /** Writes the first `n` bytes of the window, in the access sizes the source uses. */
    method WriteBack(addr: Long, n: int, lo: bv32, hi: bv8)
      requires 1 <= n <= 5
      modifies this
      ensures HoldsWindow(old(memory), memory, addr, lo, hi, n)
    {
      hide HoldsWindow, Write8, WindowByte, HighByte, LowByte, HighWord, LowWord, Byte0, Byte2;
      ghost var m0 := Write8(memory, addr, WindowByte(lo, hi, 0));
      ghost var m1 := Write8(m0, addr + 1, WindowByte(lo, hi, 1));
      ghost var m2 := Write8(m1, addr + 2, WindowByte(lo, hi, 2));
      ghost var m3 := Write8(m2, addr + 3, WindowByte(lo, hi, 3));
      ghost var m4 := Write8(m3, addr + 4, WindowByte(lo, hi, 4));
      WindowWords(lo, hi);
      NoWindow(memory, addr, lo, hi);
      GrowWindow(memory, memory, addr, lo, hi, 0);
      GrowWindow(memory, m0, addr, lo, hi, 1);
      GrowWindow(memory, m1, addr, lo, hi, 2);
      GrowWindow(memory, m2, addr, lo, hi, 3);
      GrowWindow(memory, m3, addr, lo, hi, 4);
      if n == 1 {
        memory := Write8(memory, addr, Byte0(lo));
        return;
      }
      if n < 4 {
        memory := Write16(memory, addr, HighWord(lo));
        if n == 2 {
          return;
        }
        memory := Write8(memory, addr + 2, Byte2(lo));
        return;
      }
      memory := Write32(memory, addr, lo);
      if n == 4 {
        return;
      }
      memory := Write8(memory, addr + 4, hi);
    }
  }

  /** `n` is `m` with the first bytes of the window at `addr`. */
  ghost predicate HoldsWindow(m: Ram, n: Ram, addr: Long, lo: bv32, hi: bv8, count: int)
    requires 0 <= count <= 5
  {
    forall x {:trigger Read8(n, x)} :: Read8(n, x) ==
      if Wrap32(x - addr) < count then WindowByte(lo, hi, Wrap32(x - addr)) else Read8(m, x)
  }

  lemma NoWindow(m: Ram, addr: Long, lo: bv32, hi: bv8)
    ensures HoldsWindow(m, m, addr, lo, hi, 0)
  {
  }

  lemma GrowWindow(m: Ram, n: Ram, addr: Long, lo: bv32, hi: bv8, count: int)
    requires 0 <= count < 5 && HoldsWindow(m, n, addr, lo, hi, count)
    ensures HoldsWindow(m, Write8(n, addr + count, WindowByte(lo, hi, count)), addr, lo, hi, count + 1)
  {
    hide WindowByte, Wrap32;
    var r := Write8(n, addr + count, WindowByte(lo, hi, count));
    forall x ensures Read8(r, x) == if Wrap32(x - addr) < count + 1 then WindowByte(lo, hi, Wrap32(x - addr))
        else Read8(m, x) {
      SamePlace(addr, count, x);
      assert Read8(n, x) == if Wrap32(x - addr) < count then WindowByte(lo, hi, Wrap32(x - addr)) else Read8(m, x);
    }
  }

  lemma SamePlace(addr: Long, count: int, x: int)
    requires 0 <= count < 5
    ensures Wrap32(x) == Wrap32(addr + count) <==> Wrap32(x - addr) == count
  {
  }

  /** The pieces of the window that the wider writes store. */
  lemma WindowWords(lo: bv32, hi: bv8)
    ensures Byte0(lo) == WindowByte(lo, hi, 0) && Byte2(lo) == WindowByte(lo, hi, 2) && hi == WindowByte(lo, hi, 4)
    ensures HighByte(HighWord(lo)) == WindowByte(lo, hi, 0) && LowByte(HighWord(lo)) == WindowByte(lo, hi, 1)
    ensures HighByte(LowWord(lo)) == WindowByte(lo, hi, 2) && LowByte(LowWord(lo)) == WindowByte(lo, hi, 3)
  {
  }

  function Byte0(v: bv32): bv8 { ((v >> 24) & 0xff) as bv8 }
  function Byte2(v: bv32): bv8 { ((v >> 8) & 0xff) as bv8 }

  lemma StoredBit(m: Ram, n: Ram, addr: Long, offset: Offset, width: Width, res: bv32, p: int)
    requires var bf := Load(m, addr, offset, width);
             && ReplacesTop(bf.field, res, width)
             && HoldsWindow(m, n, addr, MergedLo(bf.lo, res, Shift(offset)), MergedHi(bf.hi, res, Shift(offset)),
                            ByteCount(offset, width))
    ensures MemoryBit(n, p)
         == if Within(addr, offset, width, p) then LongBit(res, FieldIndex(addr, offset, p)) else MemoryBit(m, p)
  {
    hide Load, ByteCount, Wrap32, Bv, MergedLo, MergedHi, LongBit, ReplacesTop, WindowByte, ByteBit, Within,
        FieldIndex, Read8;
    var bf := Load(m, addr, offset, width);
    var c, k := Wrap32(p / 8 - addr), p % 8;
    Locate(addr, offset, width, p);
    SameByte(m, addr, c, p / 8);
    SameByte(n, addr, c, p / 8);
    if c < ByteCount(offset, width) {
      var j := 8 * c + k;
      LoadedByte(m, addr, offset, width, c);
      MergedBit(bf.lo, bf.hi, res, offset, j);
      if offset <= j < offset + 32 {
        FieldBit(bf.lo, bf.hi, offset, j - offset);
        if !Within(addr, offset, width, p) {
          ReplacesTopBit(bf.field, res, width, j - offset);
        }
      }
    }
  }

  lemma SameByte(m: Ram, addr: Long, c: int, x: int)
    requires Wrap32(addr + c) == Wrap32(x)
    ensures Read8(m, addr + c) == Read8(m, x)
  {
  }

  // ---------------------------------------------------------- main results

  /** The top `width` bits of a loaded field are the bits of memory it stands for. */
  lemma LoadedFieldIsItsBits(m: Ram, addr: Long, offset: Offset, width: Width, p: int)
    requires Within(addr, offset, width, p)
    ensures LongBit(Load(m, addr, offset, width).field, FieldIndex(addr, offset, p)) == MemoryBit(m, p)
  {
    hide Load, ByteCount, Wrap32, Bv, LongBit, WindowByte, ByteBit, Within, FieldIndex, Read8;
    var f := Load(m, addr, offset, width);
    var c := Wrap32(p / 8 - addr);
    Locate(addr, offset, width, p);
    SameByte(m, addr, c, p / 8);
    LoadedByte(m, addr, offset, width, c);
    FieldBit(f.lo, f.hi, offset, 8 * c + p % 8 - offset);
  }

  /** So storing a field back as it was loaded changes no bit of memory. */
  lemma StoringTheFieldBackChangesNothing(m: Ram, n: Ram, addr: Long, offset: Offset, width: Width)
    requires FieldReplaced(m, n, addr, offset, width, Load(m, addr, offset, width).field)
    ensures forall p :: MemoryBit(n, p) == MemoryBit(m, p)
    ensures ReplacesTop(Load(m, addr, offset, width).field, Load(m, addr, offset, width).field, width)
  {
    hide Load, Within, FieldIndex, LongBit, MemoryBit;
    forall p ensures MemoryBit(n, p) == MemoryBit(m, p) {
      if Within(addr, offset, width, p) { LoadedFieldIsItsBits(m, addr, offset, width, p); }
    }
    NoDifference(Load(m, addr, offset, width).field, width);
  }

  lemma NoDifference(field: bv32, width: Width)
    ensures ReplacesTop(field, field, width)
  {
    hide Bv;
    ShiftZero(Bv(width));
    assert field ^ field == 0;
  }

  lemma ShiftZero(w: bv8)
    ensures ShiftLeftSafe(0, w) == 0
  {
  }

  /**
    Patching an effective address and a signed bit offset names the bit that
    many bits on from the address: bit `p` has the same index in the field
    either way.  The offset is one for which `7 - offset` does not overflow.
   */
  lemma PatchingNamesTheSameBits(ea: Long, offset: Int32, p: int)
    requires offset >= -0x8000_0000 + 8
    ensures FieldIndex(PatchAddress(ea, offset), PatchOffset(offset), p) == (p - (8 * ea + offset)) % 0x8_0000_0000
  {
    var o := PatchOffset(offset);
    var q := if offset >= 0 then offset / 8 else -((7 - offset) / 8);
    assert 8 * q + o == offset;
    var t := (ea + q) / 0x1_0000_0000;
    assert ea + q == PatchAddress(ea, offset) + t * 0x1_0000_0000;
    ModShift(p - (8 * ea + offset), t);
  }

  // ---------------------------------------------- patch, load, replace, store

  /** A field with its top `width` bits replaced by those of `value`. */
  function WithTop(field: bv32, value: bv32, width: Width): bv32 {
    BvConstants();
    BvOne();
    BvOrder(1, width);
    BvOrder(width, 32);
    WithTopAt(field, value, Bv(width))
  }

  function WithTopAt(field: bv32, value: bv32, width: bv8): bv32
    requires 1 <= width <= 32
  {
    (value & ShiftLeftSafe(0xffff_ffff, 32 - width)) | (field & !ShiftLeftSafe(0xffff_ffff, 32 - width))
  }

  lemma WithTopBitAt(field: bv32, value: bv32, width: bv8, i: bv8)
    requires 1 <= width <= 32 && i < width
    ensures LongBitAt(WithTopAt(field, value, width), i) == LongBitAt(value, i)
  {
  }

  lemma WithTopRestAt(field: bv32, value: bv32, width: bv8)
    requires 1 <= width <= 32
    ensures ShiftLeftSafe(field ^ WithTopAt(field, value, width), width) == 0
  {
  }

  lemma WithTopReplacesTop(field: bv32, value: bv32, width: Width)
    ensures ReplacesTop(field, WithTop(field, value, width), width)
  {
    hide Bv, WithTopAt;
    BvConstants();
    BvOrder(1, width);
    BvOrder(width, 32);
    BvOne();
    WithTopRestAt(field, value, Bv(width));
  }

  lemma BvOne()
    ensures Bv(1) == 1
  {
  }

  lemma WithTopBit(field: bv32, value: bv32, width: Width, i: int)
    requires 0 <= i < width
    ensures LongBit(WithTop(field, value, width), i) == LongBit(value, i)
  {
    hide Bv, WithTopAt, LongBitAt;
    BvConstants();
    BvOrder(i, width);
    BvOrder(1, width);
    BvOrder(width, 32);
    BvOne();
    WithTopBitAt(field, value, Bv(width), Bv(i));
  }

  /** Bit `p` of memory after an insertion: the field is the `width` bits from `offset` bits past the address on. */
  function InsertedBit(m: Ram, ea: Long, offset: Int32, width: Width, value: bv32, p: int): bv1 {
    var i := (p - (8 * ea + offset)) % 0x8_0000_0000;
    if i < width then LongBit(value, i) else MemoryBit(m, p)
  }

  /**
    All four steps together: for every signed offset and every width, memory as
    one bit string has exactly the `width` bits from that offset on replaced by
    the top bits of the value.
   */
  lemma InsertingReplacesExactlyTheField(m: Ram, n: Ram, ea: Long, offset: Int32, width: Width, value: bv32)
    requires offset >= -0x8000_0000 + 8
    requires var addr, o := PatchAddress(ea, offset), PatchOffset(offset);
             FieldReplaced(m, n, addr, o, width, WithTop(Load(m, addr, o, width).field, value, width))
    ensures forall p :: MemoryBit(n, p) == InsertedBit(m, ea, offset, width, value, p)
  {
    hide Load, LongBit, MemoryBit, PatchAddress, PatchOffset, FieldIndex, WithTop;
    var addr, o := PatchAddress(ea, offset), PatchOffset(offset);
    var field := Load(m, addr, o, width).field;
    forall p ensures MemoryBit(n, p) == InsertedBit(m, ea, offset, width, value, p) {
      PatchingNamesTheSameBits(ea, offset, p);
      if FieldIndex(addr, o, p) < width { WithTopBit(field, value, width, FieldIndex(addr, o, p)); }
    }
  }
}
