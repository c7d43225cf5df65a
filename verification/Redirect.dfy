/**
  Pointing a window's port at pixels of its own in the arena
  (toolbox_window.cpp): the PixMap's bounds stay, since they carry the window's
  position, and baseAddr absorbs the offset, modulo 2^32.
 */
module Redirect {
  import opened GuestMemory
  import opened Arena

  datatype Option<+T> = None | Some(value: T)

  datatype Rect = Rect(top: Int16, left: Int16, bottom: Int16, right: Int16)

  // Field offsets.
  const PORT_PIXMAP := 2
  const PORT_VERSION := 6
  const PORT_RECT := 16
  const PORT_VIS := 24
  const WIN_UPDATE := 122
  const PIX_BASE := 0
  const PIX_ROW := 4
  const PIX_BOUNDS := 6
  const PIX_SIZE := 32
  const GD_PMAP := 22
  const THE_GDEVICE := 0x0cc8

  /** A window whose port draws into a block of the arena. */
  datatype Record = Record(window: Long, pixmap: Long, savedBase: Long, savedRow: Word, savedBounds: Rect,
                           block: Block, rowBytes: nat, width: nat, height: nat, depth: nat, inUpdate: bool)

  function SignedWord(w: Word): Int16 {
    if w < 0x8000 then w else w - 0x1_0000
  }

  function ReadRect(m: Memory, a: int): Rect {
    Rect(SignedWord(m.Read16(a)), SignedWord(m.Read16(a + 2)), SignedWord(m.Read16(a + 4)), SignedWord(m.Read16(a + 6)))
  }

  function WriteRect(m: Memory, a: int, r: Rect): Memory {
    m.Write16(a, Bits16(r.top)).Write16(a + 2, Bits16(r.left))
     .Write16(a + 4, Bits16(r.bottom)).Write16(a + 6, Bits16(r.right))
  }

  predicate ValidPtr(a: Long, ram: Long) {
    0x1000 <= a < ram
  }

  // ------------------------------------------------------------- addressing

  /** The baseAddr that makes local (0,0) the start of the buffer, whatever the bounds. */
  function BaseFor(bounds: Rect, buffer: Long, rowBytes: nat, depth: nat): Long {
    Wrap32(buffer + Wrap32(bounds.top * rowBytes + bounds.left * (depth / 8)))
  }

  /** QuickDraw's address of the pixel at local (h, v): the row stride is the low 14 bits of the rowBytes field. */
  function PixelAddress(m: Memory, pixmap: Long, depth: nat, h: int, v: int): Long {
    var b := ReadRect(m, pixmap + PIX_BOUNDS);
    var stride := m.Read16(pixmap + PIX_ROW) % 0x4000;
    Wrap32(m.Read32(pixmap + PIX_BASE) + (v - b.top) * stride + (h - b.left) * (depth / 8))
  }

  /** `rowBytes | 0x8000` cut to a word. */
  function RowField(rowBytes: nat): Word {
    var w: Word := rowBytes % 0x1_0000;
    if w < 0x8000 then w + 0x8000 else w
  }

  /** Base and rowBytes of the record's PixMap are what its buffer needs. */
  predicate Asserted(m: Memory, r: Record) {
    && m.Read32(r.pixmap + PIX_BASE) == BaseFor(ReadRect(m, r.pixmap + PIX_BOUNDS), r.block.addr, r.rowBytes, r.depth)
    && m.Read16(r.pixmap + PIX_ROW) == RowField(r.rowBytes)
  }

  /** The shape redirect_window gives every record. */
  predicate Shaped(r: Record) {
    && (r.depth == 8 || r.depth == 16 || r.depth == 32)
    && 0 < r.width && 0 < r.height
    && r.rowBytes == RowBytes(r.width, r.depth)
    && r.block.size == Wrap32(r.rowBytes * r.height)
  }

  /** Rows padded to a multiple of four bytes. */
  function RowBytes(width: nat, depth: nat): nat {
    (width * depth + 31) / 32 * 4
  }

  /** The row stride fits the field QuickDraw reads it from. */
  predicate Narrow(r: Record) {
    r.rowBytes < 0x4000
  }

  lemma RowHoldsWidth(width: nat, depth: nat)
    requires depth == 8 || depth == 16 || depth == 32
    ensures width * (depth / 8) <= RowBytes(width, depth)
  {
  }

  lemma Product(a: nat, b: nat, x: nat, y: nat)
    requires a <= x && b <= y
    ensures a * b <= x * y
  {
  }

  lemma OffsetInside(r: Record, h: nat, v: nat)
    requires Shaped(r) && h < r.width && v < r.height
    ensures 0 <= v * r.rowBytes + h * (r.depth / 8)
            && v * r.rowBytes + h * (r.depth / 8) + r.depth / 8 <= r.rowBytes * r.height
  {
    hide RowBytes, Wrap32;
    RowHoldsWidth(r.width, r.depth);
    hide Shaped;
    OffsetFits(r.rowBytes, r.depth / 8, r.width, r.height, h, v);
  }

  lemma OffsetFits(rowBytes: nat, bytes: nat, width: nat, height: nat, h: nat, v: nat)
    requires width * bytes <= rowBytes && h < width && v < height
    ensures 0 <= v * rowBytes + h * bytes && v * rowBytes + h * bytes + bytes <= rowBytes * height
  {
    Product(h + 1, bytes, width, bytes);
    Product(v + 1, rowBytes, height, rowBytes);
    assert (v + 1) * rowBytes == v * rowBytes + rowBytes;
    assert (h + 1) * bytes == h * bytes + bytes;
    assert height * rowBytes == rowBytes * height;
  }

  /** The offset the bounds put into baseAddr is the one QuickDraw takes out. */
  lemma BoundsCancel(buffer: int, top: int, left: int, stride: int, bytes: int, h: int, v: int)
    ensures Wrap32(Wrap32(buffer + Wrap32(top * stride + left * bytes)) + (v - top) * stride + (h - left) * bytes)
         == Wrap32(buffer + v * stride + h * bytes)
  {
    hide Wrap32;
    var k := top * stride + left * bytes;
    Distribute(v, top, stride);
    Distribute(h, left, bytes);
    WrapAdds(buffer, k, v * stride + h * bytes - k);
  }

  lemma Distribute(a: int, b: int, d: int)
    ensures (a - b) * d == a * d - b * d
  {
  }

  lemma WrapAdds(a: int, k: int, rest: int)
    ensures Wrap32(Wrap32(a + Wrap32(k)) + rest) == Wrap32(a + k + rest)
  {
  }

  lemma StrideOf(rowBytes: nat)
    requires rowBytes < 0x4000
    ensures RowField(rowBytes) % 0x4000 == rowBytes
  {
  }

  /** The depth in bytes, and the size of a narrow record's buffer, which cannot wrap. */
  lemma SizeOf(r: Record)
    requires Shaped(r) && Narrow(r) && r.height < 0x1_0000
    ensures r.block.size == r.rowBytes * r.height
  {
    Product(r.rowBytes, r.height, 0x4000, 0x1_0000);
  }

  /**
    Once base and rowBytes are re-asserted, every pixel of a port that starts at
    local (0,0) is at its own place in the window's own block, whatever the
    PixMap's bounds have become.
   */
  lemma PixelsLandInTheirOwnBlock(m: Memory, r: Record, h: nat, v: nat)
    requires Shaped(r) && Narrow(r) && r.height < 0x1_0000 && Asserted(m, r)
    requires r.block.addr + r.block.size <= 0x1_0000_0000 && h < r.width && v < r.height
    ensures var a := PixelAddress(m, r.pixmap, r.depth, h, v);
            && a == r.block.addr + v * r.rowBytes + h * (r.depth / 8)
            && r.block.Has(a) && r.block.Has(a + r.depth / 8 - 1)
  {
    hide ReadRect, RowField, Memory.Read32, Memory.Read16, Wrap32, PixelAddress, Asserted, RowBytes;
    var a := r.block.addr + v * r.rowBytes + h * (r.depth / 8);
    SizeOf(r);
    OffsetInside(r, h, v);
    AssertedAddress(m, r, h, v);
    WrapSmall(a);
  }

  lemma AssertedAddress(m: Memory, r: Record, h: nat, v: nat)
    requires Narrow(r) && Asserted(m, r)
    ensures PixelAddress(m, r.pixmap, r.depth, h, v) == Wrap32(r.block.addr + v * r.rowBytes + h * (r.depth / 8))
  {
    hide ReadRect, RowField, Memory.Read32, Memory.Read16, Wrap32;
    var b := ReadRect(m, r.pixmap + PIX_BOUNDS);
    StrideOf(r.rowBytes);
    BoundsCancel(r.block.addr, b.top, b.left, r.rowBytes, r.depth / 8, h, v);
  }

  lemma WrapSmall(x: int)
    requires 0 <= x < 0x1_0000_0000
    ensures Wrap32(x) == x
  {
  }

  /**
    With a stride the field cannot hold, a window one row below the top of the
    screen has its first pixel outside its block.
   */
  lemma WideRowsLandElsewhere(m: Memory, r: Record)
    requires Shaped(r) && !Narrow(r) && r.rowBytes < 0x4_0000 && Asserted(m, r)
    requires r.block.addr >= 0x4_0000 && r.block.addr + r.block.size <= 0x1_0000_0000
    requires ReadRect(m, r.pixmap + PIX_BOUNDS).top == -1 && ReadRect(m, r.pixmap + PIX_BOUNDS).left == 0
    ensures !r.block.Has(PixelAddress(m, r.pixmap, r.depth, 0, 0))
  {
    hide ReadRect, RowField, RowBytes, Memory.Read32, Memory.Read16, Wrap32;
    var stride := RowField(r.rowBytes) % 0x4000;
    WideStride(r.rowBytes);
    var rowBytes: int := r.rowBytes;
    var k := -1 * rowBytes + 0 * (r.depth / 8);
    assert k == -rowBytes;
    WrapAdds(r.block.addr, k, (0 - -1) * stride + (0 - 0) * (r.depth / 8));
    assert (0 - -1) * stride + (0 - 0) * (r.depth / 8) == stride;
    WrapSmall(r.block.addr - rowBytes + stride);
  }

  lemma WideStride(rowBytes: nat)
    ensures RowField(rowBytes) % 0x4000 == rowBytes % 0x4000
  {
    assert rowBytes % 0x1_0000 % 0x4000 == rowBytes % 0x4000;
  }

  /** Windows whose blocks are apart never share a pixel. */
  lemma PixelsOfDifferentWindowsDiffer(m: Memory, r: Record, s: Record, h: nat, v: nat, x: nat, y: nat)
    requires Shaped(r) && Narrow(r) && r.height < 0x1_0000 && Asserted(m, r)
            && r.block.addr + r.block.size <= 0x1_0000_0000
    requires Shaped(s) && Narrow(s) && s.height < 0x1_0000 && Asserted(m, s)
            && s.block.addr + s.block.size <= 0x1_0000_0000
    requires h < r.width && v < r.height && x < s.width && y < s.height && Apart(r.block, s.block)
    ensures PixelAddress(m, r.pixmap, r.depth, h, v) != PixelAddress(m, s.pixmap, s.depth, x, y)
  {
    hide PixelAddress, Asserted;
    PixelsLandInTheirOwnBlock(m, r, h, v);
    PixelsLandInTheirOwnBlock(m, s, x, y);
  }

  // ----------------------------------------------------------- the operations

  /** What redirection of a window needs to know of its port; nothing when it must be left alone. */
  datatype Plan = Plan(pixmap: Long, port: Rect, width: nat, height: nat, depth: nat)

  function ScreenPixMap(m: Memory, ram: Long): Long {
    var handle := m.Read32(THE_GDEVICE);
    if !ValidPtr(handle, ram) then 0
    else
      var gd := m.Read32(handle);
      if !ValidPtr(gd, ram) then 0 else m.Read32(gd + GD_PMAP)
  }

  /** A colour port has the top two bits of its version word set. */
  predicate IsColor(m: Memory, port: Long) {
    m.Read16(port + PORT_VERSION) / 0x4000 == 3
  }

  function Planned(m: Memory, ram: Long, window: Long): Option<Plan> {
    var handle := m.Read32(window + PORT_PIXMAP);
    if !IsColor(m, window) || !ValidPtr(handle, ram) || handle == ScreenPixMap(m, ram)
        || !ValidPtr(m.Read32(handle), ram) then None
    else
      var pixmap, p := m.Read32(handle), ReadRect(m, window + PORT_RECT);
      var depth := SignedWord(m.Read16(pixmap + PIX_SIZE));
      if p.right <= p.left || p.bottom <= p.top || (depth != 8 && depth != 16 && depth != 32) then None
      else Some(Plan(pixmap, p, p.right - p.left, p.bottom - p.top, depth))
  }

  /** Fills `n` bytes. */
  function Fill(m: Memory, a: int, n: nat, v: Byte): Memory
    decreases n
  {
    if n == 0 then m else Fill(m.(bytes := m.bytes[a + n - 1 := v]), a, n - 1, v)
  }

  /** Writes a region as a plain rectangle, when the handle and the region are plausible. */
  function SetRegion(m: Memory, ram: Long, handle: Long, r: Rect): Memory {
    if !ValidPtr(handle, ram) || !ValidPtr(m.Read32(handle), ram) then m
    else WriteRect(m.Write16(m.Read32(handle), 10), m.Read32(handle) + 2, r)
  }

  /** The record made for a window once its buffer is there. */
  function RecordFor(m: Memory, window: Long, p: Plan, block: Block): Record {
    Record(window, p.pixmap, m.Read32(p.pixmap + PIX_BASE), m.Read16(p.pixmap + PIX_ROW),
           ReadRect(m, p.pixmap + PIX_BOUNDS),
           block, RowBytes(p.width, p.depth), p.width, p.height, p.depth, false)
  }

  /** Base and rowBytes as the record wants them. */
  function Point(m: Memory, r: Record): Memory {
    var base := BaseFor(ReadRect(m, r.pixmap + PIX_BOUNDS), r.block.addr, r.rowBytes, r.depth);
    m.Write32(r.pixmap + PIX_BASE, base).Write16(r.pixmap + PIX_ROW, RowField(r.rowBytes))
  }

  /** The PixMap put back as it was. */
  function Unpoint(m: Memory, r: Record): Memory {
    WriteRect(m.Write32(r.pixmap + PIX_BASE, r.savedBase).Write16(r.pixmap + PIX_ROW, r.savedRow),
              r.pixmap + PIX_BOUNDS, r.savedBounds)
  }

  predicate HasRecord(records: seq<Record>, window: Long) {
    exists i :: 0 <= i < |records| && records[i].window == window
  }

  predicate Empty(r: Rect) {
    r.right - r.left < 1 || r.bottom - r.top < 1
  }

  /** The port still uses the PixMap the record was made for, and its bounds are not empty. */
  predicate StillOurs(m: Memory, ram: Long, r: Record) {
    && ValidPtr(r.window, ram) && ValidPtr(r.pixmap, ram)
    && ValidPtr(m.Read32(r.window + PORT_PIXMAP), ram) && m.Read32(m.Read32(r.window + PORT_PIXMAP)) == r.pixmap
    && !Empty(ReadRect(m, r.pixmap + PIX_BOUNDS))
  }

  /** Writes base and rowBytes back, each only if it has changed. */
  function Repoint(m: Memory, r: Record): Memory {
    var base := BaseFor(ReadRect(m, r.pixmap + PIX_BOUNDS), r.block.addr, r.rowBytes, r.depth);
    var n := if m.Read32(r.pixmap + PIX_BASE) != base then m.Write32(r.pixmap + PIX_BASE, base) else m;
    if n.Read16(r.pixmap + PIX_ROW) == RowField(r.rowBytes) then n
    else n.Write16(r.pixmap + PIX_ROW, RowField(r.rowBytes))
  }

  /** Opens the visible region up to the whole port, if it is not. */
  function OpenVisible(m: Memory, ram: Long, r: Record): Memory {
    var p, handle := ReadRect(m, r.window + PORT_RECT), m.Read32(r.window + PORT_VIS);
    if !ValidPtr(handle, ram) || !ValidPtr(m.Read32(handle), ram) || ReadRect(m, m.Read32(handle) + 2) == p then m
    else SetRegion(m, ram, handle, p)
  }

  /** One record of the re-assertion pass. */
  function Reasserted(m: Memory, ram: Long, r: Record): Memory {
    if r.inUpdate || !ValidPtr(r.window, ram) then m
    else OpenVisible(if StillOurs(m, ram, r) then Repoint(m, r) else m, ram, r)
  }

  function ReassertedAll(m: Memory, ram: Long, records: seq<Record>): Memory
    decreases |records|
  {
    if records == [] then m else ReassertedAll(Reasserted(m, ram, records[0]), ram, records[1..])
  }

  // -------------------------------------------------- what the pass achieves

  function ByteAt(m: Memory, a: int, k: int): Byte {
    m.Read8(a + k)
  }

  /** The two memories agree on `len` bytes from `a`. */
  ghost predicate SameBytes(m: Memory, n: Memory, a: int, len: nat) {
    forall k {:trigger ByteAt(n, a, k)} :: 0 <= k < len ==> ByteAt(n, a, k) == ByteAt(m, a, k)
  }

  lemma SameWord(m: Memory, n: Memory, a: int, len: nat, k: nat)
    requires SameBytes(m, n, a, len) && k + 2 <= len
    ensures n.Read16(a + k) == m.Read16(a + k)
  {
    assert ByteAt(n, a, k) == ByteAt(m, a, k) && ByteAt(n, a, k + 1) == ByteAt(m, a, k + 1);
  }

  lemma SameRect(m: Memory, n: Memory, a: int, len: nat, k: nat)
    requires SameBytes(m, n, a, len) && k + 8 <= len
    ensures ReadRect(n, a + k) == ReadRect(m, a + k)
  {
    SameWord(m, n, a, len, k);
    SameWord(m, n, a, len, k + 2);
    SameWord(m, n, a, len, k + 4);
    SameWord(m, n, a, len, k + 6);
  }

  /** The 14 bytes of a PixMap that hold base, rowBytes and bounds. */
  const PIX_HEADER := 14

  lemma SameHeaderSameAssertion(m: Memory, n: Memory, r: Record)
    requires SameBytes(m, n, r.pixmap, PIX_HEADER) && Asserted(m, r)
    ensures Asserted(n, r)
  {
    hide BaseFor, RowField;
    HeaderReads(m, n, r.pixmap);
  }

  lemma HeaderReads(m: Memory, n: Memory, pixmap: Long)
    requires SameBytes(m, n, pixmap, PIX_HEADER)
    ensures n.Read32(pixmap) == m.Read32(pixmap) && n.Read16(pixmap + PIX_ROW) == m.Read16(pixmap + PIX_ROW)
    ensures ReadRect(n, pixmap + PIX_BOUNDS) == ReadRect(m, pixmap + PIX_BOUNDS)
  {
    hide SameBytes, Memory.Read16;
    SameWord(m, n, pixmap, PIX_HEADER, 0);
    SameWord(m, n, pixmap, PIX_HEADER, 2);
    SameWord(m, n, pixmap, PIX_HEADER, PIX_ROW);
    SameRect(m, n, pixmap, PIX_HEADER, PIX_BOUNDS);
  }

  /** The PixMap header is in RAM, clear of the ROM. */
  predicate Writable(m: Memory, r: Record) {
    m.romSize == 0 || r.pixmap + PIX_HEADER <= m.romBase
  }

  /** Writing base, then rowBytes: the bounds stay, and both are there. */
  lemma HeaderWritten(m: Memory, r: Record, base: Long, row: Word)
    requires Writable(m, r)
    ensures var n := m.Write32(r.pixmap, base);
            var q := n.Write16(r.pixmap + PIX_ROW, row);
            && n.Read32(r.pixmap) == base && q.Read32(r.pixmap) == base && q.Read16(r.pixmap + PIX_ROW) == row
            && ReadRect(n, r.pixmap + PIX_BOUNDS) == ReadRect(m, r.pixmap + PIX_BOUNDS)
            && ReadRect(q, r.pixmap + PIX_BOUNDS) == ReadRect(m, r.pixmap + PIX_BOUNDS)
            && n.Read16(r.pixmap + PIX_ROW) == m.Read16(r.pixmap + PIX_ROW)
  {
  }

  lemma RowWritten(m: Memory, r: Record, row: Word)
    requires Writable(m, r)
    ensures var q := m.Write16(r.pixmap + PIX_ROW, row);
            && q.Read32(r.pixmap) == m.Read32(r.pixmap) && q.Read16(r.pixmap + PIX_ROW) == row
            && ReadRect(q, r.pixmap + PIX_BOUNDS) == ReadRect(m, r.pixmap + PIX_BOUNDS)
  {
  }

  lemma RepointAsserts(m: Memory, r: Record)
    requires Writable(m, r)
    ensures Asserted(Repoint(m, r), r)
  {
    hide BaseFor, RowField, ReadRect, Memory.Read32, Memory.Read16, Memory.Write32, Memory.Write16;
    var base := BaseFor(ReadRect(m, r.pixmap + PIX_BOUNDS), r.block.addr, r.rowBytes, r.depth);
    HeaderWritten(m, r, base, RowField(r.rowBytes));
    RowWritten(m, r, RowField(r.rowBytes));
  }

  // ------------------------------------------------- what a pass reads and writes

  predicate Clear(a: int, n: nat, b: int, k: nat) {
    a + n <= b || b + k <= a
  }

  function PixHandle(m: Memory, r: Record): Long { m.Read32(r.window + PORT_PIXMAP) }
  function VisHandle(m: Memory, r: Record): Long { m.Read32(r.window + PORT_VIS) }
  function RegionOf(m: Memory, r: Record): Long { m.Read32(VisHandle(m, r)) }

  predicate HasRegion(m: Memory, ram: Long, r: Record) {
    ValidPtr(VisHandle(m, r), ram) && ValidPtr(RegionOf(m, r), ram)
  }

  /** A record the pass does not skip. */
  predicate InPass(ram: Long, r: Record) {
    !r.inUpdate && ValidPtr(r.window, ram)
  }

  /** The window's portRect and region handle, which follow each other. */
  const RECT_AND_VIS := 12
  /** The bytes of a PixMap that hold base and rowBytes. */
  const BASE_AND_ROW := 6
  /** A rectangular region: its size and its box. */
  const REGION := 10

  /**
    The bytes at `a` are none of those by which the pass finds its way: the
    window's fields, the two master pointers, the bounds.
   */
  predicate ClearOfFixed(m: Memory, ram: Long, r: Record, a: int, n: nat) {
    && Clear(a, n, r.window + PORT_PIXMAP, 4) && Clear(a, n, r.window + PORT_RECT, RECT_AND_VIS)
    && (ValidPtr(PixHandle(m, r), ram) ==> Clear(a, n, PixHandle(m, r), 4))
    && (ValidPtr(VisHandle(m, r), ram) ==> Clear(a, n, VisHandle(m, r), 4))
    && Clear(a, n, r.pixmap + PIX_BOUNDS, 8)
  }

  /** What the pass writes for one record misses what it goes by for the other. */
  predicate Spares(m: Memory, ram: Long, writer: Record, r: Record) {
    && ClearOfFixed(m, ram, r, writer.pixmap, BASE_AND_ROW)
    && (HasRegion(m, ram, writer) ==>
          ClearOfFixed(m, ram, r, RegionOf(m, writer), REGION)
              && Clear(RegionOf(m, writer), REGION, r.pixmap, BASE_AND_ROW))
  }

  /** The two records' PixMap fields, and their regions, do not lie over each other. */
  predicate ApartInMemory(m: Memory, ram: Long, r: Record, o: Record) {
    && Clear(r.pixmap, BASE_AND_ROW, o.pixmap, BASE_AND_ROW)
    && (HasRegion(m, ram, r) && HasRegion(m, ram, o) ==> Clear(RegionOf(m, r), REGION, RegionOf(m, o), REGION))
  }

  /** Before the pass, windows, handles, PixMaps and regions are heap blocks of their own. */
  ghost predicate Laid(m: Memory, ram: Long, records: seq<Record>) {
    && (forall i, j ::
          0 <= i < |records| && 0 <= j < |records| && InPass(ram, records[i]) && InPass(ram, records[j])
          ==> Spares(m, ram, records[i], records[j]))
    && (forall i, j ::
          0 <= i < |records| && 0 <= j < |records| && i != j && InPass(ram, records[i]) && InPass(ram, records[j])
          ==> ApartInMemory(m, ram, records[i], records[j]))
  }

  /** Everything the pass goes by is as it was. */
  ghost predicate SameFixed(m: Memory, n: Memory, ram: Long, r: Record) {
    && n.romBase == m.romBase && n.romSize == m.romSize
    && SameBytes(m, n, r.window + PORT_PIXMAP, 4) && SameBytes(m, n, r.window + PORT_RECT, RECT_AND_VIS)
    && (ValidPtr(PixHandle(m, r), ram) ==> SameBytes(m, n, PixHandle(m, r), 4))
    && (ValidPtr(VisHandle(m, r), ram) ==> SameBytes(m, n, VisHandle(m, r), 4))
    && SameBytes(m, n, r.pixmap + PIX_BOUNDS, 8)
  }

  lemma SameLong(m: Memory, n: Memory, a: int, len: nat, k: nat)
    requires SameBytes(m, n, a, len) && k + 4 <= len
    ensures n.Read32(a + k) == m.Read32(a + k)
  {
    SameWord(m, n, a, len, k);
    SameWord(m, n, a, len, k + 2);
  }

  /** So the pass finds the same port, PixMap, region and bounds. */
  lemma FixedReads(m: Memory, n: Memory, ram: Long, r: Record)
    requires SameFixed(m, n, ram, r)
    ensures PixHandle(n, r) == PixHandle(m, r) && VisHandle(n, r) == VisHandle(m, r)
    ensures HasRegion(n, ram, r) == HasRegion(m, ram, r) && (HasRegion(m, ram, r) ==> RegionOf(n, r) == RegionOf(m, r))
    ensures ReadRect(n, r.window + PORT_RECT) == ReadRect(m, r.window + PORT_RECT)
    ensures ReadRect(n, r.pixmap + PIX_BOUNDS) == ReadRect(m, r.pixmap + PIX_BOUNDS)
    ensures StillOurs(n, ram, r) == StillOurs(m, ram, r)
  {
    hide SameBytes, ReadRect, Memory.Read32;
    SameLong(m, n, r.window + PORT_PIXMAP, 4, 0);
    SameLong(m, n, r.window + PORT_RECT, RECT_AND_VIS, 8);
    SameRect(m, n, r.window + PORT_RECT, RECT_AND_VIS, 0);
    SameRect(m, n, r.pixmap + PIX_BOUNDS, 8, 0);
    if ValidPtr(PixHandle(m, r), ram) { SameLong(m, n, PixHandle(m, r), 4, 0); }
    if ValidPtr(VisHandle(m, r), ram) { SameLong(m, n, VisHandle(m, r), 4, 0); }
  }

  lemma SameBytesCompose(m: Memory, n: Memory, q: Memory, a: int, len: nat)
    requires SameBytes(m, n, a, len) && SameBytes(n, q, a, len)
    ensures SameBytes(m, q, a, len)
  {
    forall k | 0 <= k < len ensures ByteAt(q, a, k) == ByteAt(m, a, k) {
      assert ByteAt(q, a, k) == ByteAt(n, a, k) == ByteAt(m, a, k);
    }
  }

  lemma SameFixedCompose(m: Memory, n: Memory, q: Memory, ram: Long, r: Record)
    requires SameFixed(m, n, ram, r) && SameFixed(n, q, ram, r)
    ensures SameFixed(m, q, ram, r)
  {
    hide SameBytes;
    FixedReads(m, n, ram, r);
    SameBytesCompose(m, n, q, r.window + PORT_PIXMAP, 4);
    SameBytesCompose(m, n, q, r.window + PORT_RECT, RECT_AND_VIS);
    SameBytesCompose(m, n, q, r.pixmap + PIX_BOUNDS, 8);
    if ValidPtr(PixHandle(m, r), ram) { SameBytesCompose(m, n, q, PixHandle(m, r), 4); }
    if ValidPtr(VisHandle(m, r), ram) { SameBytesCompose(m, n, q, VisHandle(m, r), 4); }
  }

  /** The two memories agree everywhere but on `n` bytes from `a`. */
  ghost predicate WritesOnly(m: Memory, q: Memory, a: int, n: nat) {
    && q.romBase == m.romBase && q.romSize == m.romSize
    && forall x :: !(a <= x < a + n) ==> q.Read8(x) == m.Read8(x)
  }

  lemma WritesElsewhere(m: Memory, q: Memory, a: int, n: nat, b: int, len: nat)
    requires WritesOnly(m, q, a, n) && Clear(a, n, b, len)
    ensures SameBytes(m, q, b, len)
  {
  }

  lemma WritesSpareFixed(m: Memory, q: Memory, a: int, n: nat, ram: Long, r: Record)
    requires WritesOnly(m, q, a, n) && ClearOfFixed(m, ram, r, a, n)
    ensures SameFixed(m, q, ram, r)
  {
    hide SameBytes, WritesOnly;
    WritesElsewhere(m, q, a, n, r.window + PORT_PIXMAP, 4);
    WritesElsewhere(m, q, a, n, r.window + PORT_RECT, RECT_AND_VIS);
    WritesElsewhere(m, q, a, n, r.pixmap + PIX_BOUNDS, 8);
    if ValidPtr(PixHandle(m, r), ram) { WritesElsewhere(m, q, a, n, PixHandle(m, r), 4); }
    if ValidPtr(VisHandle(m, r), ram) { WritesElsewhere(m, q, a, n, VisHandle(m, r), 4); }
    assert q.romBase == m.romBase && q.romSize == m.romSize by { WritesOnlyRom(m, q, a, n); }
  }

  lemma WritesOnlyRom(m: Memory, q: Memory, a: int, n: nat)
    requires WritesOnly(m, q, a, n)
    ensures q.romBase == m.romBase && q.romSize == m.romSize
  {
  }

  lemma RepointWrites(m: Memory, r: Record)
    ensures WritesOnly(m, Repoint(m, r), r.pixmap, BASE_AND_ROW)
  {
    hide BaseFor, RowField, ReadRect, Memory.Read32, Memory.Read16, Memory.Write32, Memory.Write16;
  }

  lemma OpenVisibleWrites(m: Memory, ram: Long, r: Record)
    ensures HasRegion(m, ram, r) ==> WritesOnly(m, OpenVisible(m, ram, r), RegionOf(m, r), REGION)
    ensures !HasRegion(m, ram, r) ==> OpenVisible(m, ram, r) == m
  {
    hide ReadRect, Memory.Read32, Memory.Write16;
  }

  // ------------------------------------------------------ what the pass achieves

  /** A region's ten bytes are in RAM, clear of the ROM. */
  predicate RegionWritable(m: Memory, r: Record) {
    m.romSize == 0 || RegionOf(m, r) + REGION <= m.romBase
  }

  /**
    The record as the pass leaves it: PixMap on its buffer if it was still the
    window's, visible region open over the whole port.
   */
  ghost predicate Restored(m: Memory, n: Memory, ram: Long, r: Record) {
    && (StillOurs(m, ram, r) && Writable(m, r) ==> Asserted(n, r))
    && (HasRegion(m, ram, r) && RegionWritable(m, r)
        ==> ReadRect(n, RegionOf(m, r) + 2) == ReadRect(m, r.window + PORT_RECT))
  }

  lemma OpenVisibleOpens(m: Memory, ram: Long, r: Record)
    requires HasRegion(m, ram, r) && RegionWritable(m, r)
    ensures ReadRect(OpenVisible(m, ram, r), RegionOf(m, r) + 2) == ReadRect(m, r.window + PORT_RECT)
  {
    hide ReadRect, WriteRect, Memory.Read32, Memory.Write16;
    RectWritten(m.Write16(RegionOf(m, r), 10), RegionOf(m, r) + 2, ReadRect(m, r.window + PORT_RECT));
  }

  /** One record's turn restores it, and spares what the pass goes by. */
  lemma TurnRestores(m: Memory, n: Memory, ram: Long, r: Record)
    requires InPass(ram, r) && Spares(m, ram, r, r) && SameFixed(m, n, ram, r)
    ensures Restored(m, Reasserted(n, ram, r), ram, r)
  {
    hide SameFixed, WritesOnly, Repoint, OpenVisible, BaseFor, RowField, ReadRect, StillOurs, ClearOfFixed, Asserted,
        RegionOf;
    FixedReads(m, n, ram, r);
    var p := if StillOurs(n, ram, r) then Repoint(n, r) else n;
    assert n.romBase == m.romBase && n.romSize == m.romSize by { FixedRom(m, n, ram, r); }
    if StillOurs(n, ram, r) && Writable(m, r) { RepointAsserts(n, r); }
    RepointSpares(m, n, ram, r, r);
    FixedReads(m, p, ram, r);
    assert p.romBase == m.romBase && p.romSize == m.romSize by { FixedRom(m, p, ram, r); }
    OpenVisibleWrites(p, ram, r);
    var q := OpenVisible(p, ram, r);
    if HasRegion(m, ram, r) {
      if RegionWritable(m, r) { OpenVisibleOpens(p, ram, r); }
      if Asserted(p, r) { RegionSparesHeader(m, p, q, ram, r); }
    }
  }

  lemma FixedRom(m: Memory, n: Memory, ram: Long, r: Record)
    requires SameFixed(m, n, ram, r)
    ensures n.romBase == m.romBase && n.romSize == m.romSize
  {
  }

  /** Re-pointing the writer's PixMap spares what the pass goes by for the other record. */
  lemma RepointSpares(m: Memory, n: Memory, ram: Long, writer: Record, r: Record)
    requires SameFixed(m, n, ram, r) && Spares(m, ram, writer, r)
    ensures SameFixed(m, if StillOurs(n, ram, writer) then Repoint(n, writer) else n, ram, r)
  {
    hide SameFixed, WritesOnly, Repoint, StillOurs;
    FixedReads(m, n, ram, r);
    RepointWrites(n, writer);
    if StillOurs(n, ram, writer) {
      WritesSpareFixed(n, Repoint(n, writer), writer.pixmap, BASE_AND_ROW, ram, r);
      SameFixedCompose(m, n, Repoint(n, writer), ram, r);
    }
  }

  lemma RegionSparesHeader(m: Memory, p: Memory, q: Memory, ram: Long, r: Record)
    requires HasRegion(m, ram, r) && Spares(m, ram, r, r) && WritesOnly(p, q, RegionOf(m, r), REGION) && Asserted(p, r)
    ensures Asserted(q, r)
  {
    hide WritesOnly, BaseFor, RowField, Asserted, Memory.Read32;
    WritesElsewhere(p, q, RegionOf(m, r), REGION, r.pixmap, PIX_HEADER);
    SameHeaderSameAssertion(p, q, r);
  }

  /** One record's turn leaves what the pass goes by for any record. */
  lemma TurnSpares(m: Memory, n: Memory, ram: Long, writer: Record, r: Record)
    requires InPass(ram, writer) && SameFixed(m, n, ram, r) && SameFixed(m, n, ram, writer)
    requires Spares(m, ram, writer, r) && Spares(m, ram, writer, writer)
    ensures SameFixed(m, Reasserted(n, ram, writer), ram, r)
  {
    hide SameFixed, WritesOnly, Repoint, StillOurs, OpenVisible, RegionOf;
    var p := if StillOurs(n, ram, writer) then Repoint(n, writer) else n;
    RepointSpares(m, n, ram, writer, r);
    RepointSpares(m, n, ram, writer, writer);
    FixedReads(m, p, ram, writer);
    FixedReads(m, p, ram, r);
    OpenVisibleWrites(p, ram, writer);
    if HasRegion(m, ram, writer) {
      WritesSpareFixed(p, OpenVisible(p, ram, writer), RegionOf(m, writer), REGION, ram, r);
      SameFixedCompose(m, p, OpenVisible(p, ram, writer), ram, r);
    }
  }

  /** And it does not undo what was done for another. */
  lemma TurnKeepsOthers(m: Memory, n: Memory, ram: Long, writer: Record, r: Record)
    requires InPass(ram, writer) && SameFixed(m, n, ram, r) && SameFixed(m, n, ram, writer) && Restored(m, n, ram, r)
    requires Spares(m, ram, writer, r) && Spares(m, ram, writer, writer) && ApartInMemory(m, ram, writer, r)
    requires HasRegion(m, ram, r) ==> Clear(RegionOf(m, r), REGION, writer.pixmap, BASE_AND_ROW)
    ensures Restored(m, Reasserted(n, ram, writer), ram, r)
  {
    hide SameFixed, WritesOnly, Repoint, StillOurs, OpenVisible, RegionOf, SameBytes, Asserted, ReadRect, Writable,
        ClearOfFixed;
    var p := if StillOurs(n, ram, writer) then Repoint(n, writer) else n;
    RepointWrites(n, writer);
    RepointSpares(m, n, ram, writer, writer);
    FixedReads(m, p, ram, writer);
    OpenVisibleWrites(p, ram, writer);
    var q := OpenVisible(p, ram, writer);
    TurnSpares(m, n, ram, writer, r);
    if StillOurs(m, ram, r) && Writable(m, r) { AssertedStays(m, n, p, q, ram, writer, r); }
    if HasRegion(m, ram, r) { RegionStays(m, n, p, q, ram, writer, r); }
  }

  lemma AssertedStays(m: Memory, n: Memory, p: Memory, q: Memory, ram: Long, writer: Record, r: Record)
    requires p == n || WritesOnly(n, p, writer.pixmap, BASE_AND_ROW)
    requires q == p || (HasRegion(m, ram, writer) && WritesOnly(p, q, RegionOf(m, writer), REGION))
    requires Spares(m, ram, writer, r) && ApartInMemory(m, ram, writer, r) && Asserted(n, r)
    ensures Asserted(q, r)
  {
    hide WritesOnly, BaseFor, RowField, Asserted, Memory.Read32;
    if p != n {
      WritesElsewhere(n, p, writer.pixmap, BASE_AND_ROW, r.pixmap, PIX_HEADER);
      SameHeaderSameAssertion(n, p, r);
    }
    if q != p {
      WritesElsewhere(p, q, RegionOf(m, writer), REGION, r.pixmap, PIX_HEADER);
      SameHeaderSameAssertion(p, q, r);
    }
  }

  lemma RegionStays(m: Memory, n: Memory, p: Memory, q: Memory, ram: Long, writer: Record, r: Record)
    requires p == n || WritesOnly(n, p, writer.pixmap, BASE_AND_ROW)
    requires q == p || (HasRegion(m, ram, writer) && WritesOnly(p, q, RegionOf(m, writer), REGION))
    requires HasRegion(m, ram, r) && Clear(RegionOf(m, r), REGION, writer.pixmap, BASE_AND_ROW)
            && ApartInMemory(m, ram, writer, r)
    ensures ReadRect(q, RegionOf(m, r) + 2) == ReadRect(n, RegionOf(m, r) + 2)
  {
    hide WritesOnly, ReadRect, Memory.Read32;
    var a := RegionOf(m, r);
    if p != n {
      WritesElsewhere(n, p, writer.pixmap, BASE_AND_ROW, a, REGION);
      SameRect(n, p, a, REGION, 2);
    }
    if q != p {
      WritesElsewhere(p, q, RegionOf(m, writer), REGION, a, REGION);
      SameRect(p, q, a, REGION, 2);
    }
  }

  /** After the turns of the first `i` records: the way is as it was, and those are restored. */
  ghost predicate Progress(m: Memory, n: Memory, ram: Long, records: seq<Record>, i: nat) {
    forall k :: 0 <= k < |records| && InPass(ram, records[k])
                ==> SameFixed(m, n, ram, records[k]) && (k < i ==> Restored(m, n, ram, records[k]))
  }

  lemma OneTurn(m: Memory, n: Memory, ram: Long, records: seq<Record>, i: nat)
    requires Laid(m, ram, records) && i < |records| && Progress(m, n, ram, records, i)
    ensures Progress(m, Reasserted(n, ram, records[i]), ram, records, i + 1)
  {
    hide SameFixed, Restored, Reasserted, Spares, ApartInMemory;
    var w, q := records[i], Reasserted(n, ram, records[i]);
    if !InPass(ram, w) {
      assert q == n by { SkippedTurn(n, ram, w); }
    } else {
      forall k | 0 <= k < |records| && InPass(ram, records[k])
        ensures SameFixed(m, q, ram, records[k]) && (k < i + 1 ==> Restored(m, q, ram, records[k]))
      {
        TurnSpares(m, n, ram, w, records[k]);
        if k == i {
          TurnRestores(m, n, ram, w);
        } else if k < i {
          RegionSparesWriter(m, ram, records[k], w);
          TurnKeepsOthers(m, n, ram, w, records[k]);
        }
      }
    }
  }

  lemma SkippedTurn(n: Memory, ram: Long, r: Record)
    requires !InPass(ram, r)
    ensures Reasserted(n, ram, r) == n
  {
  }

  lemma RegionSparesWriter(m: Memory, ram: Long, r: Record, w: Record)
    requires Spares(m, ram, r, w)
    ensures HasRegion(m, ram, r) ==> Clear(RegionOf(m, r), REGION, w.pixmap, BASE_AND_ROW)
  {
  }

  lemma {:induction false} PassProgresses(m: Memory, n: Memory, ram: Long, records: seq<Record>, i: nat)
    requires Laid(m, ram, records) && i <= |records| && Progress(m, n, ram, records, i)
    ensures Progress(m, ReassertedAll(n, ram, records[i..]), ram, records, |records|)
    decreases |records| - i
  {
    hide Reasserted, Progress, Laid;
    if i < |records| {
      OneTurn(m, n, ram, records, i);
      assert records[i..][0] == records[i] && records[i..][1..] == records[i + 1..];
      PassProgresses(m, Reasserted(n, ram, records[i]), ram, records, i + 1);
    }
  }

  lemma NothingChanged(m: Memory, ram: Long, records: seq<Record>)
    ensures Progress(m, m, ram, records, 0)
  {
  }

  /**
    A pass over windows that are heap blocks of their own puts every port that is
    still its window's back on its buffer, and opens every visible region over
    the whole port, for all of them at once: nothing one record's turn does is
    undone by another's.
   */
  lemma PassPutsPortsBack(m: Memory, ram: Long, records: seq<Record>, k: nat)
    requires k < |records| && Laid(m, ram, records) && InPass(ram, records[k])
    ensures var r, n := records[k], ReassertedAll(m, ram, records);
            && (StillOurs(m, ram, r) && Writable(m, r) ==> Asserted(n, r))
            && (HasRegion(m, ram, r) && RegionWritable(m, r)
                ==> ReadRect(n, RegionOf(m, r) + 2) == ReadRect(m, r.window + PORT_RECT))
  {
    hide Reasserted, ReassertedAll, Laid, SameFixed, Asserted, ReadRect, StillOurs, HasRegion, RegionOf;
    NothingChanged(m, ram, records);
    PassProgresses(m, m, ram, records, 0);
    assert records[0..] == records;
  }

  /** Bytes a pass may write for a record: PixMap fields its window's handle still leads to, and the visible region. */
  predicate Touched(m: Memory, ram: Long, r: Record, x: int) {
    InPass(ram, r) &&
    ((ValidPtr(PixHandle(m, r), ram) && m.Read32(PixHandle(m, r)) == r.pixmap
      && r.pixmap <= x < r.pixmap + BASE_AND_ROW)
     || (HasRegion(m, ram, r) && RegionOf(m, r) <= x < RegionOf(m, r) + REGION))
  }

  lemma WritesOnlyAt(m: Memory, q: Memory, a: int, n: nat, x: int)
    requires WritesOnly(m, q, a, n) && !(a <= x < a + n)
    ensures q.Read8(x) == m.Read8(x)
  {
  }

  lemma TurnTouches(m: Memory, n: Memory, ram: Long, r: Record, x: int)
    requires InPass(ram, r) && SameFixed(m, n, ram, r) && Spares(m, ram, r, r) && !Touched(m, ram, r, x)
    ensures Reasserted(n, ram, r).Read8(x) == n.Read8(x)
  {
    hide SameFixed, WritesOnly, Repoint, OpenVisible, RegionOf, HasRegion, Spares, ReadRect, Memory.Read8,
        Memory.Read32;
    var p := if StillOurs(n, ram, r) then Repoint(n, r) else n;
    FixedReads(m, n, ram, r);
    RepointWrites(n, r);
    if StillOurs(n, ram, r) { WritesOnlyAt(n, p, r.pixmap, BASE_AND_ROW, x); }
    RepointSpares(m, n, ram, r, r);
    FixedReads(m, p, ram, r);
    OpenVisibleWrites(p, ram, r);
    if HasRegion(m, ram, r) { WritesOnlyAt(p, OpenVisible(p, ram, r), RegionOf(m, r), REGION, x); }
  }

  lemma {:induction false} PassTouches(m: Memory, n: Memory, ram: Long, records: seq<Record>, i: nat, x: int)
    requires Laid(m, ram, records) && i <= |records| && Progress(m, n, ram, records, i)
    requires forall k :: 0 <= k < |records| ==> !Touched(m, ram, records[k], x)
    ensures ReassertedAll(n, ram, records[i..]).Read8(x) == n.Read8(x)
    decreases |records| - i
  {
    hide Reasserted, Touched, SameFixed, Spares, ApartInMemory, Restored, Memory.Read8;
    if i < |records| {
      var r := records[i];
      if InPass(ram, r) { TurnTouches(m, n, ram, r, x); } else { SkippedTurn(n, ram, r); }
      OneTurn(m, n, ram, records, i);
      assert records[i..][0] == r && records[i..][1..] == records[i + 1..];
      PassTouches(m, Reasserted(n, ram, r), ram, records, i + 1, x);
    }
  }

  /**
    The pass is safe: a PixMap to which its window's handle no longer leads,
    however plausible what is now there, and every byte of guest memory but the
    fields and regions it means, are as before.
   */
  lemma PassTouchesNothingElse(m: Memory, ram: Long, records: seq<Record>, x: int)
    requires Laid(m, ram, records) && forall k :: 0 <= k < |records| ==> !Touched(m, ram, records[k], x)
    ensures ReassertedAll(m, ram, records).Read8(x) == m.Read8(x)
  {
    hide ReassertedAll, Laid, Touched, Memory.Read8;
    NothingChanged(m, ram, records);
    PassTouches(m, m, ram, records, 0, x);
    assert records[0..] == records;
  }

  // ------------------------------------------------------ how wide is too wide

  /** Guest memory with the port one row below the top of the screen, pointed at the record's block. */
  function BelowTheTop(r: Record): Memory {
    Point(WriteRect(Memory(map[], 0, 0), r.pixmap + PIX_BOUNDS, Rect(-1, 0, 0, 0)), r)
  }

  lemma BelowTheTopIsAsserted(r: Record)
    ensures Asserted(BelowTheTop(r), r) && ReadRect(BelowTheTop(r), r.pixmap + PIX_BOUNDS) == Rect(-1, 0, 0, 0)
  {
    hide BaseFor, RowField, ReadRect, WriteRect, Asserted, Memory.Read32, Memory.Read16, Memory.Write32, Memory.Write16;
    var m := WriteRect(Memory(map[], 0, 0), r.pixmap + PIX_BOUNDS, Rect(-1, 0, 0, 0));
    assert m.romSize == 0 by { RectKeepsRom(Memory(map[], 0, 0), r.pixmap + PIX_BOUNDS, Rect(-1, 0, 0, 0)); }
    RectWritten(Memory(map[], 0, 0), r.pixmap + PIX_BOUNDS, Rect(-1, 0, 0, 0));
    PointAsserts(m, r);
    HeaderWritten(m, r, BaseFor(ReadRect(m, r.pixmap + PIX_BOUNDS), r.block.addr, r.rowBytes, r.depth),
                  RowField(r.rowBytes));
  }

  lemma RectKeepsRom(m: Memory, a: int, r: Rect)
    ensures WriteRect(m, a, r).romSize == m.romSize && WriteRect(m, a, r).romBase == m.romBase
  {
    hide Memory.Write16;
  }

  lemma RowsAreShort(r: Record)
    requires Shaped(r) && r.width < 0x1_0000
    ensures r.rowBytes < 0x4_0000
  {
  }

  /**
    The stride condition is exact: whatever memory holds once the port has been
    pointed at its block, every pixel of the port lands in the block, if and only
    if the row stride fits the 14 bits of its field.
   */
  lemma PixelsLandExactlyWhenRowsFit(r: Record)
    requires Shaped(r) && r.width < 0x1_0000 && r.height < 0x1_0000
    requires 0x4_0000 <= r.block.addr && r.block.addr + r.block.size <= 0x1_0000_0000
    ensures (forall m: Memory, h: nat, v: nat ::
               Asserted(m, r) && h < r.width && v < r.height
               ==> r.block.Has(PixelAddress(m, r.pixmap, r.depth, h, v)))
        <==> Narrow(r)
  {
    hide Asserted, PixelAddress, BelowTheTop, ReadRect;
    RowsAreShort(r);
    if Narrow(r) {
      forall m: Memory, h: nat, v: nat | Asserted(m, r) && h < r.width && v < r.height
        ensures r.block.Has(PixelAddress(m, r.pixmap, r.depth, h, v))
      {
        PixelsLandInTheirOwnBlock(m, r, h, v);
      }
    } else {
      BelowTheTopIsAsserted(r);
      WideRowsLandElsewhere(BelowTheTop(r), r);
      assert !r.block.Has(PixelAddress(BelowTheTop(r), r.pixmap, r.depth, 0, 0));
    }
  }

  /** Redirecting points the port at the new block. */
  lemma PointAsserts(m: Memory, r: Record)
    requires Writable(m, r)
    ensures Asserted(Point(m, r), r)
  {
    hide BaseFor, RowField, ReadRect, Memory.Read32, Memory.Read16, Memory.Write32, Memory.Write16;
    var base := BaseFor(ReadRect(m, r.pixmap + PIX_BOUNDS), r.block.addr, r.rowBytes, r.depth);
    HeaderWritten(m, r, base, RowField(r.rowBytes));
  }

  lemma RectWritten(m: Memory, a: int, r: Rect)
    requires m.romSize == 0 || a + 8 <= m.romBase
    ensures ReadRect(WriteRect(m, a, r), a) == r
    ensures forall x :: x < a ==> WriteRect(m, a, r).Read8(x) == m.Read8(x)
  {
    assert SignedWord(Bits16(r.top)) == r.top && SignedWord(Bits16(r.left)) == r.left;
    assert SignedWord(Bits16(r.bottom)) == r.bottom && SignedWord(Bits16(r.right)) == r.right;
    var m1 := m.Write16(a, Bits16(r.top));
    var m2 := m1.Write16(a + 2, Bits16(r.left));
    var m3 := m2.Write16(a + 4, Bits16(r.bottom));
    var m4 := m3.Write16(a + 6, Bits16(r.right));
    assert m4.Read16(a) == m3.Read16(a) == m2.Read16(a) == m1.Read16(a) == Bits16(r.top);
    assert m4.Read16(a + 2) == m3.Read16(a + 2) == m2.Read16(a + 2) == Bits16(r.left);
    assert m4.Read16(a + 4) == m3.Read16(a + 4) == Bits16(r.bottom);
  }

  /** Giving the port back restores base, rowBytes and bounds to what they were when it was taken. */
  lemma UnpointRestores(before: Memory, window: Long, p: Plan, block: Block, now: Memory)
    requires Writable(now, RecordFor(before, window, p, block))
    ensures var after := Unpoint(now, RecordFor(before, window, p, block));
            && after.Read32(p.pixmap) == before.Read32(p.pixmap)
            && after.Read16(p.pixmap + PIX_ROW) == before.Read16(p.pixmap + PIX_ROW)
            && ReadRect(after, p.pixmap + PIX_BOUNDS) == ReadRect(before, p.pixmap + PIX_BOUNDS)
  {
    hide RowBytes, ReadRect, WriteRect, Memory.Write32, Memory.Write16;
    var r := RecordFor(before, window, p, block);
    HeaderWritten(now, r, r.savedBase, r.savedRow);
    var n := now.Write32(p.pixmap, r.savedBase).Write16(p.pixmap + PIX_ROW, r.savedRow);
    RectWritten(n, p.pixmap + PIX_BOUNDS, r.savedBounds);
  }

  lemma {:induction false} FillFills(m: Memory, a: int, n: nat, v: Byte)
    ensures var r := Fill(m, a, n, v);
            && r.romBase == m.romBase && r.romSize == m.romSize
            && forall x :: r.Read8(x) == if a <= x < a + n then v else m.Read8(x)
    decreases n
  {
    if n > 0 { FillFills(m.(bytes := m.bytes[a + n - 1 := v]), a, n - 1, v); }
  }

  // --------------------------------------------------------- the mirror

  /** The arena and the address after a buffer has been asked for. */
  function Allotted(pool: Pool, p: Plan, mapped: bool): (Pool, Long) {
    Alloc(pool, Wrap32(RowBytes(p.width, p.depth) * p.height), mapped)
  }

  function BlockFor(p: Plan, addr: Long): Block {
    Block(addr, Wrap32(RowBytes(p.width, p.depth) * p.height))
  }

  /** Guest memory with the new buffer blank: index 0 in an indexed port, all ones otherwise. */
  function Filled(m: Memory, p: Plan, block: Block): Memory {
    Fill(m, block.addr, block.size, if p.depth == 8 then 0 else 0xff)
  }

  /** Guest memory once a window has been redirected into a block. */
  function Taken(m: Memory, ram: Long, window: Long, content: Rect, p: Plan, block: Block): Memory {
    var m1 := Filled(m, p, block);
    var m2 := Point(m1, RecordFor(m1, window, p, block));
    var m3 := SetRegion(m2, ram, m2.Read32(window + PORT_VIS), p.port);
    SetRegion(m3, ram, m3.Read32(window + WIN_UPDATE), content)
  }

  function BlocksOf(records: seq<Record>): (r: seq<Block>)
    ensures |r| == |records| && forall i :: 0 <= i < |r| ==> r[i] == records[i].block
  {
    if records == [] then [] else [records[0].block] + BlocksOf(records[1..])
  }

  /** Every record's block is a live one, and no live block serves two records. */
  ghost predicate Backed(records: seq<Record>, live: seq<Block>) {
    multiset(BlocksOf(records)) <= multiset(live)
  }

  lemma BlocksOfAppend(records: seq<Record>, r: Record)
    ensures BlocksOf(records + [r]) == BlocksOf(records) + [r.block]
  {
  }

  lemma MultisetWithout<T>(s: seq<T>, k: nat)
    requires k < |s|
    ensures multiset(Without(s, k)) == multiset(s) - multiset{s[k]}
  {
    assert s == s[..k] + [s[k]] + s[k + 1..];
  }

  lemma BlocksOfWithout(records: seq<Record>, k: nat)
    requires k < |records|
    ensures BlocksOf(Without(records, k)) == Without(BlocksOf(records), k)
  {
    hide BlocksOf, Without;
    WithoutAt(records, k);
    WithoutAt(BlocksOf(records), k);
  }

  lemma {:induction false} TwoOccurrences<T>(s: seq<T>, b: T) returns (x: nat, y: nat)
    requires multiset(s)[b] >= 2
    ensures x < y < |s| && s[x] == b && s[y] == b
  {
    assert s == [s[0]] + s[1..];
    if s[0] == b {
      assert b in multiset(s[1..]);
      x := 0;
      y :| 1 <= y < |s| && s[y] == b;
    } else {
      x, y := TwoOccurrences(s[1..], b);
      x, y := x + 1, y + 1;
    }
  }

  lemma RepeatedIsTwice<T>(s: seq<T>, i: nat, j: nat)
    requires i < j < |s| && s[i] == s[j]
    ensures multiset(s)[s[i]] >= 2
  {
    var a, b, c := s[..i], s[i + 1..j], s[j + 1..];
    assert s == a + [s[i]] + b + [s[j]] + c;
    assert multiset(s) == multiset(a) + multiset{s[i]} + multiset(b) + multiset{s[j]} + multiset(c);
  }

  /** Blocks of different records are apart. */
  lemma BackedAreApart(records: seq<Record>, live: seq<Block>, i: nat, j: nat)
    requires Backed(records, live) && Separate(live) && i < j < |records|
    ensures Apart(records[i].block, records[j].block)
  {
    hide BlocksOf;
    var s := BlocksOf(records);
    var a, b := s[i], s[j];
    if a == b {
      RepeatedIsTwice(s, i, j);
      var x, y := TwoOccurrences(live, a);
      assert Apart(live[x], live[y]);
    } else {
      assert a in multiset(s) && b in multiset(s);
      var x :| 0 <= x < |live| && live[x] == a;
      var y :| 0 <= y < |live| && live[y] == b;
      if x < y { assert Apart(live[x], live[y]); } else { assert Apart(live[y], live[x]); }
    }
  }

  /** The first live block that is this one. */
  function BlockAt(live: seq<Block>, b: Block): (k: nat)
    ensures k <= |live|
    ensures k < |live| ==> live[k] == b
    ensures k == |live| <==> b !in live
  {
    if live == [] || live[0] == b then 0 else 1 + BlockAt(live[1..], b)
  }

  /** A record's block is live, and with both gone the rest is still backed. */
  lemma BackingBlock(records: seq<Record>, live: seq<Block>, k: nat)
    requires Backed(records, live) && k < |records|
    ensures var j := BlockAt(live, records[k].block);
            j < |live| && Backed(Without(records, k), Without(live, j)) && Backed(Without(records, k), live)
  {
    hide BlocksOf, Without;
    var b := records[k].block;
    assert BlocksOf(records)[k] == b && b in multiset(BlocksOf(records));
    assert b in multiset(live);
    MultisetWithout(live, BlockAt(live, b));
    MultisetWithout(BlocksOf(records), k);
    BlocksOfWithout(records, k);
  }

  lemma WithoutKeepsAll(records: seq<Record>, k: nat)
    requires k < |records|
    ensures forall r :: r in Without(records, k) ==> r in records
  {
  }

  lemma LiveGrew(records: seq<Record>, live: seq<Block>, more: seq<Block>)
    requires Backed(records, live) && (more == live || (more != [] && more[..|more| - 1] == live))
    ensures Backed(records, more)
  {
    if more != live { assert more == live + [more[|more| - 1]]; }
  }

  lemma RecordsGrew(records: seq<Record>, r: Record, live: seq<Block>, more: seq<Block>)
    requires Backed(records, live) && more == live + [r.block]
    ensures Backed(records + [r], more)
  {
    BlocksOfAppend(records, r);
  }

  lemma RecordIsShaped(before: Memory, ram: Long, m: Memory, window: Long, p: Plan, addr: Long)
    requires Planned(before, ram, window) == Some(p)
    ensures var r := RecordFor(m, window, p, BlockFor(p, addr));
            Shaped(r) && r.height < 0x1_0000 && r.block == BlockFor(p, addr)
  {
    hide ReadRect, RowBytes;
  }

  /** No window is redirected twice. */
  ghost predicate OnePerWindow(records: seq<Record>) {
    forall i, j :: 0 <= i < j < |records| ==> records[i].window != records[j].window
  }

  lemma OnePerWindowWithout(records: seq<Record>, k: nat)
    requires OnePerWindow(records) && k < |records|
    ensures OnePerWindow(Without(records, k)) && !HasRecord(Without(records, k), records[k].window)
  {
    forall i | 0 <= i < |records| - 1 ensures Without(records, k)[i] == records[if i < k then i else i + 1] {}
  }

  lemma RecordWindow(m: Memory, window: Long, p: Plan, block: Block)
    ensures RecordFor(m, window, p, block).window == window
  {
    hide ReadRect, RowBytes;
  }

  lemma OnePerWindowMore(records: seq<Record>, r: Record)
    requires OnePerWindow(records) && !HasRecord(records, r.window)
    ensures OnePerWindow(records + [r])
  {
  }

  /** The pixel side of the guest: its memory, the records, the arena, and the repaints queued, oldest first. */
  datatype Surfaces = Surfaces(memory: Memory, records: seq<Record>, pool: Pool, repaints: seq<Long>)

  function IndexOf(records: seq<Record>, window: Long): (k: nat)
    ensures k <= |records| && (k < |records| ==> records[k].window == window)
    ensures forall j :: 0 <= j < k ==> records[j].window != window
  {
    if records == [] || records[0].window == window then 0 else 1 + IndexOf(records[1..], window)
  }

  /** The window's port qualifies, and the arena grants it a buffer. */
  predicate Takes(s: Surfaces, ram: Long, enabled: bool, window: Long, mapped: bool) {
    enabled && Planned(s.memory, ram, window) != None
    && Allotted(s.pool, Planned(s.memory, ram, window).value, mapped).1 != 0
  }

  /** redirect_window, for a window whose content is at `content` on the screen. */
  function Redirected(s: Surfaces, ram: Long, enabled: bool, window: Long, content: Rect, mapped: bool): Surfaces {
    if !enabled || IndexOf(s.records, window) < |s.records| || Planned(s.memory, ram, window) == None then s
    else
      var p := Planned(s.memory, ram, window).value;
      var (pool, addr) := Allotted(s.pool, p, mapped);
      var block := BlockFor(p, addr);
      if addr == 0 then s.(pool := pool)
      else
        Surfaces(Taken(s.memory, ram, window, content, p, block),
                 s.records + [RecordFor(Filled(s.memory, p, block), window, p, block)], pool, s.repaints + [window])
  }

  function Freed(pool: Pool, b: Block): Pool {
    var j := BlockAt(pool.live, b);
    if b.addr == 0 || j == |pool.live| then pool else Free(pool, j)
  }

  /** restore_window; the port is put back only while it still exists. */
  function GivenBack(s: Surfaces, ram: Long, window: Long, portValid: bool): Surfaces {
    var k := IndexOf(s.records, window);
    if k == |s.records| then s
    else
      var r := s.records[k];
      Surfaces(if portValid && ValidPtr(r.pixmap, ram) then Unpoint(s.memory, r) else s.memory,
               Without(s.records, k), Freed(s.pool, r.block), s.repaints)
  }

  lemma IndexFinds(records: seq<Record>, window: Long)
    ensures IndexOf(records, window) == |records| <==> !HasRecord(records, window)
  {
  }

  /** A redirection adds the window's own record, or none, and does so exactly when port and arena allow. */
  lemma RedirectedRecords(s: Surfaces, ram: Long, enabled: bool, window: Long, content: Rect, mapped: bool)
    ensures var r := Redirected(s, ram, enabled, window, content, mapped);
            && (r.records == s.records || (|r.records| == |s.records| + 1 && r.records[..|s.records|] == s.records
                                           && r.records[|s.records|].window == window))
            && (r.records != s.records <==> !HasRecord(s.records, window) && Takes(s, ram, enabled, window, mapped))
            && (HasRecord(r.records, window)
                <==> HasRecord(s.records, window) || Takes(s, ram, enabled, window, mapped))
            && r.repaints == s.repaints + if r.records == s.records then [] else [window]
  {
    hide Planned, Allotted, Taken, Filled, RecordFor, BlockFor, HasRecord, IndexOf;
    IndexFinds(s.records, window);
    var r := Redirected(s, ram, enabled, window, content, mapped);
    if r.records != s.records {
      var p := Planned(s.memory, ram, window).value;
      var block := BlockFor(p, Allotted(s.pool, p, mapped).1);
      RecordWindow(Filled(s.memory, p, block), window, p, block);
      LastIsThere(r.records, window);
    }
  }

  lemma LastIsThere(records: seq<Record>, window: Long)
    requires records != [] && records[|records| - 1].window == window
    ensures HasRecord(records, window)
  {
  }

  class Mirror {
    const arena: Allocator
    const ram: Long
    const enabled: bool
    var memory: Memory
    var records: seq<Record>
    var repaints: seq<Long> // windows a repaint has been queued for, oldest first

    constructor (arena: Allocator, ram: Long, enabled: bool, memory: Memory)
      ensures this.arena == arena && this.memory == memory && records == [] && repaints == [] && Valid()
    {
      this.arena, this.ram, this.enabled, this.memory, records, repaints := arena, ram, enabled, memory, [], [];
    }

    ghost predicate Valid()
      reads this, arena
    {
      && Backed(records, arena.live) && OnePerWindow(records)
      && forall r :: r in records ==> Shaped(r) && r.height < 0x1_0000
    }

    ghost function View(): Surfaces
      reads this, arena
    {
      Surfaces(memory, records, arena.View(), repaints)
    }

    method FindRecord(window: Long) returns (k: nat)
      ensures k == IndexOf(records, window) && (k == |records| <==> !HasRecord(records, window))
    {
      k := 0;
      while k < |records|
        invariant k <= |records| && forall j :: 0 <= j < k ==> records[j].window != window
      {
        if records[k].window == window { return; }
        k := k + 1;
      }
    }

    /** redirect_window. */
    method RedirectWindow(window: Long, content: Rect, mapped: bool) returns (done: bool)
      requires Valid()
      modifies this`memory, this`records, this`repaints, arena
      ensures Valid() && View() == Redirected(old(View()), ram, enabled, window, content, mapped)
      ensures done == (records != old(records))
    {
      hide Planned, Taken, RecordFor, Allotted, Filled, BlockFor, Backed, Shaped, HasRecord, OnePerWindow;
      if !enabled { return false; }
      var k := FindRecord(window);
      if k < |records| { return false; }
      var plan := Planned(memory, ram, window);
      if plan == None { return false; }
      done := Take(window, content, plan.value, mapped);
      if done { repaints := repaints + [window]; }
    }

    method Take(window: Long, content: Rect, p: Plan, mapped: bool) returns (done: bool)
      requires Valid() && Planned(memory, ram, window) == Some(p) && !HasRecord(records, window)
      modifies this`memory, this`records, arena
      ensures Valid()
      ensures var (pool, addr) := Allotted(old(arena.View()), p, mapped);
              && arena.View() == pool && done == (addr != 0)
              && (!done ==> memory == old(memory) && records == old(records))
              && (done ==>
                   && memory == Taken(old(memory), ram, window, content, p, BlockFor(p, addr))
                   && var block := BlockFor(p, addr);
                      records == old(records) + [RecordFor(Filled(old(memory), p, block), window, p, block)])
    {
      hide Filled, Taken, Alloc, RecordFor, Planned, Shaped, RowBytes, Backed, Wrap32, HasRecord, OnePerWindow;
      var addr := arena.Allocate(Wrap32(RowBytes(p.width, p.depth) * p.height), mapped);
      if addr == 0 {
        LiveGrew(records, old(arena.live), arena.live);
        return false;
      }
      var block := BlockFor(p, addr);
      ghost var before := memory;
      var r := PointAt(window, content, p, block);
      RecordIsShaped(before, ram, Filled(before, p, block), window, p, addr);
      RecordsGrew(records, r, old(arena.live), arena.live);
      RecordWindow(Filled(before, p, block), window, p, block);
      OnePerWindowMore(records, r);
      records := records + [r];
      done := true;
    }

    /** The writes of a redirection, once there is a buffer. */
    method PointAt(window: Long, content: Rect, p: Plan, block: Block) returns (r: Record)
      modifies this`memory
      ensures memory == Taken(old(memory), ram, window, content, p, block)
      ensures r == RecordFor(Filled(old(memory), p, block), window, p, block)
    {
      hide Filled, Point, SetRegion, RecordFor;
      memory := Filled(memory, p, block);
      r := RecordFor(memory, window, p, block);
      memory := Point(memory, r);
      memory := SetRegion(memory, ram, memory.Read32(window + PORT_VIS), p.port);
      memory := SetRegion(memory, ram, memory.Read32(window + WIN_UPDATE), content);
    }

    /** restore_window. */
    method RestoreWindow(window: Long, portValid: bool)
      requires Valid()
      modifies this`memory, this`records, arena
      ensures Valid() && View() == GivenBack(old(View()), ram, window, portValid)
      ensures !HasRecord(records, window) && forall r :: r in records ==> r in old(records)
    {
      hide Unpoint, BlocksOf, Backed, Without, HasRecord, OnePerWindow, IndexOf;
      var k := FindRecord(window);
      if k == |records| { return; }
      var r := records[k];
      if portValid && ValidPtr(r.pixmap, ram) {
        memory := Unpoint(memory, r);
      }
      BackingBlock(records, arena.live, k);
      arena.Release(r.block.addr, r.block.size, BlockAt(arena.live, r.block));
      OnePerWindowWithout(records, k);
      WithoutKeepsAll(records, k);
      records := Without(records, k);
    }

    /** reassert_vis_rgns. */
    method ReassertVisRgns()
      requires Valid()
      modifies this`memory
      ensures Valid() && memory == ReassertedAll(old(memory), ram, records)
    {
      hide Repoint, OpenVisible, StillOurs, Backed, Shaped, OnePerWindow;
      assert records[0..] == records;
      for i := 0 to |records|
        invariant Valid() && ReassertedAll(old(memory), ram, records) == ReassertedAll(memory, ram, records[i..])
      {
        var r := records[i];
        assert records[i..][1..] == records[i + 1..];
        if r.inUpdate || !ValidPtr(r.window, ram) {
          continue;
        }
        if StillOurs(memory, ram, r) {
          memory := Repoint(memory, r);
        }
        memory := OpenVisible(memory, ram, r);
      }
    }

    /** The visible region of a window is left alone between _BeginUpdate and _EndUpdate. */
    method SetInUpdate(window: Long, value: bool)
      requires Valid()
      modifies this`records
      ensures Valid()
      ensures !HasRecord(old(records), window) ==> records == old(records)
      ensures HasRecord(old(records), window) ==>
                exists k :: 0 <= k < |old(records)| && old(records)[k].window == window
                            && records == old(records)[k := old(records)[k].(inUpdate := value)]
    {
      hide HasRecord, BlocksOf, Shaped;
      var k := FindRecord(window);
      if k < |records| {
        var marked := records[k := records[k].(inUpdate := value)];
        SameBlocks(records, marked);
        MarkedIsShaped(records, k, value);
        records := marked;
      }
    }

    /** ToolboxWindow_Reset: the guest that owned the ports and the buffers is gone. */
    method Forget()
      modifies this`records, arena
      ensures Valid() && records == [] && arena.View() == Arena.Reset(old(arena.View()))
    {
      records := [];
      arena.Clear();
    }
  }

  lemma MarkedIsShaped(records: seq<Record>, k: nat, value: bool)
    requires k < |records| && forall r :: r in records ==> Shaped(r) && r.height < 0x1_0000
    ensures forall r :: r in records[k := records[k].(inUpdate := value)] ==> Shaped(r) && r.height < 0x1_0000
  {
  }

  lemma SameBlocks(a: seq<Record>, b: seq<Record>)
    requires |a| == |b| && forall i :: 0 <= i < |a| ==> a[i].block == b[i].block
    ensures BlocksOf(a) == BlocksOf(b)
  {
    hide BlocksOf;
  }

  /** A record QuickDraw can address, its PixMap pointing at its buffer. */
  ghost predicate Drawable(m: Memory, r: Record) {
    Shaped(r) && Narrow(r) && r.height < 0x1_0000 && Asserted(m, r)
  }

  /** Two redirected windows never draw over each other. */
  lemma WindowsNeverDrawOverEachOther(m: Memory, records: seq<Record>, p: Pool, i: nat, j: nat, h: nat, v: nat,
                                      x: nat, y: nat)
    requires Inv(p) && Backed(records, p.live) && i < j < |records|
    requires Drawable(m, records[i]) && Drawable(m, records[j])
    requires h < records[i].width && v < records[i].height && x < records[j].width && y < records[j].height
    ensures PixelAddress(m, records[i].pixmap, records[i].depth, h, v)
         != PixelAddress(m, records[j].pixmap, records[j].depth, x, y)
  {
    hide Separate, PixelAddress, Asserted, Inv, BlocksOf, Shaped;
    InvSeparates(p);
    BackedAreApart(records, p.live, i, j);
    BackedAreLive(records, p.live, i);
    BackedAreLive(records, p.live, j);
    assert p.base + LIMIT < 0x1_0000_0000 by { InvPlaced(p); }
    PixelsOfDifferentWindowsDiffer(m, records[i], records[j], h, v, x, y);
  }

  lemma InvPlaced(p: Pool)
    requires Inv(p)
    ensures Placed(p)
  {
  }

  lemma BackedAreLive(records: seq<Record>, live: seq<Block>, i: nat)
    requires Backed(records, live) && i < |records|
    ensures records[i].block in live
  {
    hide BlocksOf;
    assert BlocksOf(records)[i] == records[i].block;
    assert records[i].block in multiset(BlocksOf(records));
  }
}
