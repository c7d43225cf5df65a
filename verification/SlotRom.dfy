/**
  The slot declaration ROM (slot_rom.cpp): a printer that defines literals and
  sResource lists one after another, each list pointing back at earlier ones by
  24-bit offsets, and the mode patcher that keeps the checksum right.
 */
module SlotRom {
  import opened Arithmetic
  import opened GuestMemory

  const BUFFER := 4096
  const END: Byte := 0xff
  const HEADER := 20

  /** An entry of a list: an offset to something defined before, or 24 bits of data. */
  datatype Item = Ref(kind: Byte, target: nat) | Val(kind: Byte, value: nat)

  /** One definition; its label is its place in the program. */
  datatype Stmt = Literal(bytes: seq<Byte>) | Listing(items: seq<Item>)

  predicate ItemOk(item: Item, k: nat) {
    match item
    case Ref(kind, target) => kind != END && target < k
    case Val(kind, value) => kind != END && value < 0x100_0000
  }

  predicate ItemsOk(items: seq<Item>, k: nat) {
    forall i :: 0 <= i < |items| ==> ItemOk(items[i], k)
  }

  /** Lists refer to earlier definitions only. */
  predicate ProgramOk(prog: seq<Stmt>) {
    forall k :: 0 <= k < |prog| && prog[k].Listing? ==> ItemsOk(prog[k].items, k)
  }

  // ------------------------------------------------------------- the printer

  /** The low 24 bits, big-endian. */
  function Bytes24(v: int): (b: seq<Byte>)
    ensures |b| == 3
  {
    [v / 0x1_0000 % 0x100, v / 0x100 % 0x100, v % 0x100]
  }

  function Bytes32(v: Long): (b: seq<Byte>)
    ensures |b| == 4
  {
    [v / 0x100_0000, v / 0x1_0000 % 0x100, v / 0x100 % 0x100, v % 0x100]
  }

  function Bytes16(v: Word): (b: seq<Byte>)
    ensures |b| == 2
  {
    [v / 0x100, v % 0x100]
  }

  /** Offs and Rsrc; the offset is taken from where the entry itself begins. */
  function EmitItem(item: Item, offs: seq<int>, p: int): (b: seq<Byte>)
    requires item.Ref? ==> item.target < |offs|
    ensures |b| == 4
  {
    match item
    case Ref(kind, target) => [kind] + Bytes24(offs[target] - p)
    case Val(kind, value) => [kind] + Bytes24(value)
  }

  function EmitItems(items: seq<Item>, offs: seq<int>, p: int): (b: seq<Byte>)
    requires ItemsOk(items, |offs|)
    ensures |b| == 4 * |items| + 4
    decreases |items|
  {
    if items == [] then [END, 0, 0, 0] else EmitItem(items[0], offs, p) + EmitItems(items[1..], offs, p + 4)
  }

  function EmitStmt(s: Stmt, offs: seq<int>, p: int): seq<Byte>
    requires s.Listing? ==> ItemsOk(s.items, |offs|)
  {
    match s
    case Literal(bytes) => bytes
    case Listing(items) => EmitItems(items, offs, p)
  }

  lemma PrefixOk(prog: seq<Stmt>)
    requires ProgramOk(prog) && prog != []
    ensures ProgramOk(prog[..|prog| - 1])
    ensures prog[|prog| - 1].Listing? ==> ItemsOk(prog[|prog| - 1].items, |prog| - 1)
  {
  }

  /** The bytes printed, and the offset of each definition. */
  ghost function Emit(prog: seq<Stmt>): (r: (seq<Byte>, seq<int>))
    requires ProgramOk(prog)
    ensures |r.1| == |prog| && forall k :: 0 <= k < |prog| ==> 0 <= r.1[k] <= |r.0|
    decreases |prog|
  {
    if prog == [] then ([], [])
    else
      PrefixOk(prog);
      var (rom, offs) := Emit(prog[..|prog| - 1]);
      (rom + EmitStmt(prog[|prog| - 1], offs, |rom|), offs + [|rom|])
  }

  // -------------------------------------------------------------- the reader

  function Unsigned24(rom: seq<Byte>, at: int): int
    requires 0 <= at && at + 3 <= |rom|
  {
    var b0: int, b1: int, b2: int := rom[at], rom[at + 1], rom[at + 2];
    b0 * 0x1_0000 + b1 * 0x100 + b2
  }

  /** A 24-bit offset, sign-extended. */
  function Signed24(rom: seq<Byte>, at: int): int
    requires 0 <= at && at + 3 <= |rom|
  {
    var u := Unsigned24(rom, at);
    if u < 0x80_0000 then u else u - 0x100_0000
  }

  /** Read as an sResource, the ROM has at `at` exactly what the k-th definition says, and so on down its pointers. */
  predicate Reads(rom: seq<Byte>, at: int, prog: seq<Stmt>, k: nat)
    decreases k + 1, 0
  {
    k < |prog| && 0 <= at &&
    match prog[k]
    case Literal(bytes) => at + |bytes| <= |rom| && rom[at..at + |bytes|] == bytes
    case Listing(items) => ReadsItems(rom, at, prog, k, items)
  }

  /** The entries from `at` on are these, and then the list ends. */
  predicate ReadsItems(rom: seq<Byte>, at: int, prog: seq<Stmt>, k: nat, items: seq<Item>)
    decreases k, 1 + |items|
  {
    0 <= at && at + 4 <= |rom| &&
    if items == [] then rom[at] == END
    else
      && rom[at] != END && rom[at] == items[0].kind
      && (match items[0]
          case Ref(_, target) => target < k && Reads(rom, at + Signed24(rom, at + 1), prog, target)
          case Val(_, value) => Unsigned24(rom, at + 1) == value)
      && ReadsItems(rom, at + 4, prog, k, items[1..])
  }

  // -------------------------------------------------------------- round trip

  lemma Digits24(v: int)
    ensures var b := Bytes24(v); b[0] as int * 0x1_0000 + b[1] as int * 0x100 + b[2] as int == v % 0x100_0000
  {
    var q: int, r: int := v / 0x100, v / 0x1_0000;
    Quotient(v, 0x100, q, v % 0x100);
    Quotient(v, 0x1_0000, q / 0x100, q % 0x100 * 0x100 + v % 0x100);
    Quotient(v, 0x100_0000, r / 0x100, r % 0x100 * 0x1_0000 + q % 0x100 * 0x100 + v % 0x100);
  }

  lemma Unsigned24Reads(rom: seq<Byte>, at: int, v: int)
    requires 0 <= at && at + 3 <= |rom| && rom[at..at + 3] == Bytes24(v)
    ensures Unsigned24(rom, at) == v % 0x100_0000
    ensures -0x80_0000 <= v < 0x80_0000 ==> Signed24(rom, at) == v
  {
    Digits24(v);
    assert rom[at] == rom[at..at + 3][0] && rom[at + 1] == rom[at..at + 3][1] && rom[at + 2] == rom[at..at + 3][2];
  }

  /** What has been printed stays readable when more is printed after it. */
  lemma {:induction false} PrintingMoreKeepsReads(rom: seq<Byte>, more: seq<Byte>, at: int, prog: seq<Stmt>,
                                                  next: seq<Stmt>, k: nat)
    requires Reads(rom, at, prog, k) && k < |prog|
    ensures Reads(rom + more, at, prog + next, k)
    decreases k + 1, 0
  {
    match prog[k] {
      case Literal(bytes) => assert (rom + more)[at..at + |bytes|] == rom[at..at + |bytes|];
      case Listing(items) => PrintingMoreKeepsItems(rom, more, at, prog, next, k, items);
    }
  }

  lemma {:induction false} PrintingMoreKeepsItems(rom: seq<Byte>, more: seq<Byte>, at: int, prog: seq<Stmt>,
                                                  next: seq<Stmt>, k: nat, items: seq<Item>)
    requires ReadsItems(rom, at, prog, k, items) && k < |prog|
    ensures ReadsItems(rom + more, at, prog + next, k, items)
    decreases k, 1 + |items|
  {
    if items != [] {
      PrintingMoreKeepsItems(rom, more, at + 4, prog, next, k, items[1..]);
      if items[0].Ref? {
        assert Signed24(rom + more, at + 1) == Signed24(rom, at + 1);
        PrintingMoreKeepsReads(rom, more, at + Signed24(rom, at + 1), prog, next, items[0].target);
      }
    }
  }

  lemma ItemParts(item: Item, offs: seq<int>, p: int)
    requires ItemOk(item, |offs|)
    ensures var b := EmitItem(item, offs, p);
            b[0] == item.kind && b[1..] == Bytes24(if item.Ref? then offs[item.target] - p else item.value)
  {
  }

  /** The entries just printed at the end of the ROM read back. */
  lemma {:induction false} PrintedItemsRead(rom: seq<Byte>, before: seq<Byte>, items: seq<Item>, offs: seq<int>,
                                            prog: seq<Stmt>, k: nat)
    requires k == |offs| && ItemsOk(items, k)
    requires rom == before + EmitItems(items, offs, |before|) && |rom| <= BUFFER
    requires forall j :: 0 <= j < k ==> 0 <= offs[j] <= |rom| && Reads(rom, offs[j], prog, j)
    ensures ReadsItems(rom, |before|, prog, k, items)
    decreases |items|
  {
    hide Reads, Unsigned24, Signed24, Bytes24, EmitItem;
    var p := |before|;
    if items != [] {
      var head := EmitItem(items[0], offs, p);
      assert rom == (before + head) + EmitItems(items[1..], offs, p + 4);
      assert rom[p..p + 4] == head;
      ItemParts(items[0], offs, p);
      assert rom[p] == rom[p..p + 4][0];
      assert rom[p + 1..p + 4] == rom[p..p + 4][1..];
      PrintedItemsRead(rom, before + head, items[1..], offs, prog, k);
      match items[0] {
        case Ref(_, target) =>
          Unsigned24Reads(rom, p + 1, offs[target] - p);
          assert p + Signed24(rom, p + 1) == offs[target];
        case Val(_, value) => Unsigned24Reads(rom, p + 1, value);
      }
    } else {
      assert rom[p] == END;
    }
  }

  /**
    Whatever is printed, in whatever order and however shared, each definition
    reads back as an sResource list, or literal, from its offset.
   */
  lemma {:induction false} EverythingPrintedReadsBack(prog: seq<Stmt>, k: nat)
    requires ProgramOk(prog) && |Emit(prog).0| <= BUFFER && k < |prog|
    ensures Reads(Emit(prog).0, Emit(prog).1[k], prog, k)
    decreases |prog|
  {
    hide Reads, EmitItems;
    PrefixOk(prog);
    var n := |prog| - 1;
    var init, last := prog[..n], prog[n];
    var (rom, offs) := Emit(init);
    var printed := EmitStmt(last, offs, |rom|);
    assert prog == init + [last];
    forall j | 0 <= j < n ensures Reads(rom + printed, offs[j], prog, j) {
      EverythingPrintedReadsBack(init, j);
      PrintingMoreKeepsReads(rom, printed, offs[j], init, [last], j);
    }
    if k == n {
      LastReads(rom, printed, last, offs, prog);
    }
  }

  lemma LastReads(rom: seq<Byte>, printed: seq<Byte>, last: Stmt, offs: seq<int>, prog: seq<Stmt>)
    requires |offs| < |prog| && prog[|offs|] == last && |rom + printed| <= BUFFER
    requires last.Listing? ==> ItemsOk(last.items, |offs|)
    requires printed == EmitStmt(last, offs, |rom|)
    requires forall j :: 0 <= j < |offs| ==> 0 <= offs[j] <= |rom| && Reads(rom + printed, offs[j], prog, j)
    ensures Reads(rom + printed, |rom|, prog, |offs|)
  {
    hide EmitItems, Reads, ReadsItems, ItemsOk;
    match last {
      case Literal(bytes) => LiteralReads(rom, bytes, prog, |offs|);
      case Listing(items) =>
        PrintedItemsRead(rom + printed, rom, items, offs, prog, |offs|);
        ListingReads(rom + printed, |rom|, prog, |offs|, items);
    }
  }

  lemma LiteralReads(rom: seq<Byte>, bytes: seq<Byte>, prog: seq<Stmt>, k: nat)
    requires k < |prog| && prog[k] == Literal(bytes)
    ensures Reads(rom + bytes, |rom|, prog, k)
  {
    assert (rom + bytes)[|rom|..|rom| + |bytes|] == bytes;
  }

  lemma ListingReads(rom: seq<Byte>, at: int, prog: seq<Stmt>, k: nat, items: seq<Item>)
    requires k < |prog| && prog[k] == Listing(items) && ReadsItems(rom, at, prog, k, items)
    ensures Reads(rom, at, prog, k)
  {
    hide ReadsItems;
    assert 0 <= at by { ItemsStart(rom, at, prog, k, items); }
  }

  lemma ItemsStart(rom: seq<Byte>, at: int, prog: seq<Stmt>, k: nat, items: seq<Item>)
    requires ReadsItems(rom, at, prog, k, items)
    ensures 0 <= at
  {
  }

  // ------------------------------------------------------------- the header

  /** The format block at the end: the directory's offset, the length, the checksum, and the fixed fields. */
  function Header(size: Long, toDirectory: int): (b: seq<Byte>)
    ensures |b| == HEADER
  {
    [0] + Bytes24(toDirectory) + Bytes32(size) + Bytes32(0) + Bytes16(0x0101) + Bytes32(0x5a93_2bc7) + Bytes16(0x000f)
  }

  /** The whole declaration ROM, with the given definition as its directory; the checksum is still 0. */
  ghost function Declaration(prog: seq<Stmt>, directory: nat): seq<Byte>
    requires ProgramOk(prog) && directory < |prog| && |Emit(prog).0| + HEADER <= BUFFER
  {
    var (rom, offs) := Emit(prog);
    rom + Header(|rom| + HEADER, offs[directory] - |rom|)
  }

  function Long32(rom: seq<Byte>, at: int): int
    requires 0 <= at && at + 4 <= |rom|
  {
    var b0: int, b1: int, b2: int, b3: int := rom[at], rom[at + 1], rom[at + 2], rom[at + 3];
    b0 * 0x100_0000 + b1 * 0x1_0000 + b2 * 0x100 + b3
  }

  lemma Digits32(v: Long)
    ensures var b := Bytes32(v);
            b[0] as int * 0x100_0000 + b[1] as int * 0x1_0000 + b[2] as int * 0x100 + b[3] as int == v
  {
    var q: int, r: int := v / 0x100, v / 0x1_0000;
    assert v == q * 0x100 + v % 0x100 && q == r * 0x100 + q % 0x100 && q / 0x100 == r;
    assert r == r / 0x100 * 0x100 + r % 0x100 && r / 0x100 == v / 0x100_0000;
  }

  lemma Long32Reads(rom: seq<Byte>, at: int, v: Long)
    requires 0 <= at && at + 4 <= |rom| && rom[at..at + 4] == Bytes32(v)
    ensures Long32(rom, at) == v
  {
    hide Bytes32;
    Digits32(v);
    var b := Bytes32(v);
    assert rom[at] == rom[at..at + 4][0] && rom[at + 1] == rom[at..at + 4][1] && rom[at + 2] == rom[at..at + 4][2]
        && rom[at + 3] == rom[at..at + 4][3];
  }

  lemma SliceOfSlice(s: seq<Byte>, a: nat, b: nat, i: nat, j: nat)
    requires i <= j && a + j <= b <= |s|
    ensures s[a..b][i..j] == s[a + i..a + j]
  {
    forall k | 0 <= k < j - i ensures s[a..b][i..j][k] == s[a + i..a + j][k] {
      assert s[a..b][i + k] == s[a + i + k];
    }
  }

  lemma HeaderFront(size: Long, to: int)
    ensures Header(size, to)[..8][1..4] == Bytes24(to) && Header(size, to)[..8][4..8] == Bytes32(size)
  {
    hide Bytes24, Bytes32, Bytes16;
    var front := [0] + Bytes24(to) + Bytes32(size);
    var rest := Bytes32(0) + Bytes16(0x0101) + Bytes32(0x5a93_2bc7) + Bytes16(0x000f);
    assert Header(size, to) == front + rest;
    assert (front + rest)[..8] == front;
  }

  /** A ROM that starts with what was printed, and with the header's offset and length, reads back. */
  lemma ReadsBack(prog: seq<Stmt>, directory: nat, rom: seq<Byte>)
    requires ProgramOk(prog) && directory < |prog| && |Emit(prog).0| + HEADER <= BUFFER
    requires var (body, offs) := Emit(prog);
             && |rom| == |body| + HEADER && rom[..|body|] == body
             && rom[|body|..|body| + 8] == Header(|rom|, offs[directory] - |body|)[..8]
    ensures var top := |rom| - HEADER;
            Long32(rom, |rom| - 16) == |rom| && Reads(rom, top + Signed24(rom, top + 1), prog, directory)
  {
    hide Reads, Bytes24, Bytes32, Bytes16, Emit, Unsigned24, Header;
    var (body, offs) := Emit(prog);
    var top := |body|;
    var to := offs[directory] - top;
    EverythingPrintedReadsBack(prog, directory);
    PrintingMoreKeepsReads(body, rom[top..], offs[directory], prog, [], directory);
    assert prog + [] == prog && body + rom[top..] == rom;
    HeaderFront(|rom|, to);
    SliceOfSlice(rom, top, top + 8, 1, 4);
    SliceOfSlice(rom, top, top + 8, 4, 8);
    Unsigned24Reads(rom, top + 1, to);
    Long32Reads(rom, top + 4, |rom|);
  }

  // ----------------------------------------------------- checksum and patches

  /** Rotate left by one, in 32 bits, and add. */
  function CrcStep(crc: Long, b: Byte): Long {
    Wrap32(crc * 2 % 0x1_0000_0000 + crc / 0x8000_0000 + b)
  }

  function Crc(bytes: seq<Byte>): Long {
    if bytes == [] then 0 else CrcStep(Crc(bytes[..|bytes| - 1]), bytes[|bytes| - 1])
  }

  /** The ROM with other bytes at `at`. */
  function Patched(rom: seq<Byte>, at: nat, bytes: seq<Byte>): (r: seq<Byte>)
    requires at + |bytes| <= |rom|
    ensures |r| == |rom|
  {
    rom[..at] + bytes + rom[at + |bytes|..]
  }

  /** The checksum field is twelve bytes before the end. */
  function Blanked(rom: seq<Byte>): seq<Byte>
    requires |rom| > 12
  {
    Patched(rom, |rom| - 12, [0, 0, 0, 0])
  }

  /** ChecksumSlotROM. */
  function Checksummed(rom: seq<Byte>): (r: seq<Byte>)
    requires |rom| > 12
    ensures |r| == |rom|
  {
    Patched(rom, |rom| - 12, Bytes32(Crc(Blanked(rom))))
  }

  /** The stored checksum is that of the ROM with a blank checksum field. */
  predicate Sealed(rom: seq<Byte>) {
    |rom| > 12 && Long32(rom, |rom| - 12) == Crc(Blanked(rom))
  }

  lemma ChecksumSeals(rom: seq<Byte>)
    requires |rom| > 12
    ensures |Checksummed(rom)| == |rom| && Sealed(Checksummed(rom)) && Blanked(Checksummed(rom)) == Blanked(rom)
  {
    hide Crc, Bytes32;
    var v := Crc(Blanked(rom));
    var r, at := Checksummed(rom), |rom| - 12;
    assert r[at..at + 4] == Bytes32(v);
    Long32Reads(r, at, v);
    assert r[..at] == rom[..at] && r[at + 4..] == rom[at + 4..];
  }

  /** A mode patch: where the mode's parameter block is, and what goes there. */
  datatype Patch = Patch(off: nat, width: Word, height: Word, rowBytes: Long)

  /** The block lies before the header. */
  predicate PatchOk(size: int, p: Patch) {
    p.off + 18 <= size - HEADER
  }

  /** rowBytes at 8, the bottom of the bounds at 14 and their right at 16; then the checksum. */
  function PatchMode(rom: seq<Byte>, p: Patch): (r: seq<Byte>)
    requires PatchOk(|rom|, p) && |rom| >= HEADER
    ensures |r| == |rom|
  {
    Checksummed(WithMode(rom, p))
  }

  function WithMode(rom: seq<Byte>, p: Patch): (r: seq<Byte>)
    requires PatchOk(|rom|, p) && |rom| >= HEADER
    ensures |r| == |rom|
  {
    var rows := Patched(rom, p.off + 8, Bytes16(p.rowBytes % 0x1_0000));
    Patched(Patched(rows, p.off + 14, Bytes16(p.height)), p.off + 16, Bytes16(p.width))
  }

  function PatchAll(rom: seq<Byte>, patches: seq<Patch>): (r: seq<Byte>)
    requires |rom| >= HEADER && forall i :: 0 <= i < |patches| ==> PatchOk(|rom|, patches[i])
    ensures |r| == |rom|
  {
    if patches == [] then rom
    else PatchMode(PatchAll(rom, patches[..|patches| - 1]), patches[|patches| - 1])
  }

  /** A byte that some patch writes, or one of the checksum. */
  predicate MayChange(size: int, patches: seq<Patch>, x: int) {
    (size - 12 <= x < size - 8) || exists i :: 0 <= i < |patches| && Writes(patches[i], x)
  }

  predicate Writes(p: Patch, x: int) {
    p.off + 8 <= x < p.off + 10 || p.off + 14 <= x < p.off + 18
  }

  lemma OnePatch(rom: seq<Byte>, p: Patch, x: int)
    requires |rom| >= HEADER && PatchOk(|rom|, p) && 0 <= x < |rom|
    ensures !Writes(p, x) && !(|rom| - 12 <= x < |rom| - 8) ==> PatchMode(rom, p)[x] == rom[x]
    ensures Sealed(PatchMode(rom, p))
  {
    hide Crc, Bytes32, Bytes16, Sealed;
    ChecksumSeals(WithMode(rom, p));
    if !Writes(p, x) { ModeLeaves(rom, p, x); }
  }

  lemma ModeLeaves(rom: seq<Byte>, p: Patch, x: int)
    requires |rom| >= HEADER && PatchOk(|rom|, p) && 0 <= x < |rom| && !Writes(p, x)
    ensures WithMode(rom, p)[x] == rom[x]
  {
    hide Bytes16, Patched;
    var r1 := Patched(rom, p.off + 8, Bytes16(p.rowBytes % 0x1_0000));
    var r2 := Patched(r1, p.off + 14, Bytes16(p.height));
    PatchedAt(rom, p.off + 8, Bytes16(p.rowBytes % 0x1_0000), x);
    PatchedAt(r1, p.off + 14, Bytes16(p.height), x);
    PatchedAt(r2, p.off + 16, Bytes16(p.width), x);
  }

  lemma PatchedAt(rom: seq<Byte>, at: nat, bytes: seq<Byte>, x: int)
    requires at + |bytes| <= |rom| && 0 <= x < |rom|
    ensures Patched(rom, at, bytes)[x] == if at <= x < at + |bytes| then bytes[x - at] else rom[x]
  {
  }

  /**
    After any sequence of mode patches to a sealed ROM only the patched parameter
    words and the checksum differ, and the stored checksum is the recomputed one.
   */
  lemma {:induction false} PatchesChangeOnlyTheirWords(rom: seq<Byte>, patches: seq<Patch>, x: int)
    requires |rom| >= HEADER && Sealed(rom) && (forall i :: 0 <= i < |patches| ==> PatchOk(|rom|, patches[i]))
            && 0 <= x < |rom|
    ensures Sealed(PatchAll(rom, patches))
    ensures !MayChange(|rom|, patches, x) ==> PatchAll(rom, patches)[x] == rom[x]
    decreases |patches|
  {
    hide PatchMode, Sealed, Writes;
    if patches != [] {
      var init, p := patches[..|patches| - 1], patches[|patches| - 1];
      PatchesChangeOnlyTheirWords(rom, init, x);
      OnePatch(PatchAll(rom, init), p, x);
      if !MayChange(|rom|, patches, x) {
        assert !Writes(patches[|patches| - 1], x);
        forall i | 0 <= i < |init| ensures !Writes(init[i], x) { assert init[i] == patches[i]; }
      }
    }
  }

  function Word16(rom: seq<Byte>, at: int): int
    requires 0 <= at && at + 2 <= |rom|
  {
    var b0: int, b1: int := rom[at], rom[at + 1];
    b0 * 0x100 + b1
  }

  /** The parameter block holds what the last patch of it wrote. */
  lemma PatchIsThere(rom: seq<Byte>, p: Patch)
    requires |rom| >= HEADER && PatchOk(|rom|, p)
    ensures var r := PatchMode(rom, p);
            && |r| == |rom|
            && Word16(r, p.off + 8) == p.rowBytes % 0x1_0000 && Word16(r, p.off + 14) == p.height
                && Word16(r, p.off + 16) == p.width
  {
    hide Crc, Bytes32;
    var w := WithMode(rom, p);
    var r := PatchMode(rom, p);
    forall x | p.off + 8 <= x < p.off + 18 ensures r[x] == w[x] {
      PatchedAt(w, |rom| - 12, Bytes32(Crc(Blanked(w))), x);
    }
    var rows: Word := p.rowBytes % 0x1_0000;
    var one := Patched(rom, p.off + 8, Bytes16(rows));
    var two := Patched(one, p.off + 14, Bytes16(p.height));
    forall x | p.off + 8 <= x < p.off + 18
      ensures w[x] == if x < p.off + 10 then Bytes16(rows)[x - p.off - 8]
                      else if p.off + 16 <= x then Bytes16(p.width)[x - p.off - 16]
                      else if p.off + 14 <= x then Bytes16(p.height)[x - p.off - 14] else rom[x]
    {
      PatchedAt(rom, p.off + 8, Bytes16(rows), x);
      PatchedAt(one, p.off + 14, Bytes16(p.height), x);
      PatchedAt(two, p.off + 16, Bytes16(p.width), x);
    }
    WordReads(r, p.off + 8, rows);
    WordReads(r, p.off + 14, p.height);
    WordReads(r, p.off + 16, p.width);
  }

  lemma WordReads(rom: seq<Byte>, at: nat, v: Word)
    requires at + 2 <= |rom| && rom[at] == Bytes16(v)[0] && rom[at + 1] == Bytes16(v)[1]
    ensures Word16(rom, at) == v
  {
  }

  // ------------------------------------------- patching is printing again

  /** The program with another literal of the same length in one place. */
  predicate SameButLiteral(prog: seq<Stmt>, next: seq<Stmt>, k: nat) {
    && |next| == |prog| && k < |prog| && prog[k].Literal? && next[k].Literal? && |next[k].bytes| == |prog[k].bytes|
    && forall j :: 0 <= j < |prog| && j != k ==> next[j] == prog[j]
  }

  lemma SameButLiteralIsOk(prog: seq<Stmt>, next: seq<Stmt>, k: nat)
    requires ProgramOk(prog) && SameButLiteral(prog, next, k)
    ensures ProgramOk(next)
  {
    hide ItemsOk;
  }

  lemma EmitLengthens(prog: seq<Stmt>, k: nat)
    requires ProgramOk(prog) && k < |prog| && prog[k].Literal?
    ensures Emit(prog).1[k] + |prog[k].bytes| <= |Emit(prog).0|
    decreases |prog|
  {
    hide EmitItems, ItemsOk;
    PrefixOk(prog);
    if k < |prog| - 1 { EmitLengthens(prog[..|prog| - 1], k); }
  }

  lemma EmitStep(prog: seq<Stmt>, n: nat, last: Stmt)
    requires ProgramOk(prog) && |prog| == n + 1 && prog[n] == last
    ensures ProgramOk(prog[..n]) && (last.Listing? ==> ItemsOk(last.items, n))
    ensures var (rom, offs) := Emit(prog[..n]);
            Emit(prog) == (rom + EmitStmt(last, offs, |rom|), offs + [|rom|])
  {
    hide EmitStmt, ItemsOk;
    PrefixOk(prog);
  }

  lemma PatchLast(rom: seq<Byte>, was: seq<Byte>, now: seq<Byte>)
    requires |now| == |was|
    ensures Patched(rom + was, |rom|, now) == rom + now
  {
  }

  lemma PatchEarlier(rom: seq<Byte>, more: seq<Byte>, at: nat, now: seq<Byte>)
    requires at + |now| <= |rom|
    ensures Patched(rom + more, at, now) == Patched(rom, at, now) + more
  {
  }

  /** Another literal of the same length changes only its own bytes of what is printed. */
  lemma {:induction false} ReprintingChangesOneLiteral(prog: seq<Stmt>, next: seq<Stmt>, k: nat)
    requires ProgramOk(prog) && ProgramOk(next) && SameButLiteral(prog, next, k)
    ensures Emit(prog).1[k] + |next[k].bytes| <= |Emit(prog).0|
    ensures Emit(next).1 == Emit(prog).1 && Emit(next).0 == Patched(Emit(prog).0, Emit(prog).1[k], next[k].bytes)
    decreases |prog|
  {
    hide EmitItems, ItemsOk, ProgramOk, Emit, Patched;
    var n := |prog| - 1;
    EmitStep(prog, n, prog[n]);
    EmitStep(next, n, next[n]);
    EmitLengthens(prog, k);
    var (rom, offs) := Emit(prog[..n]);
    if k == n {
      assert next[..n] == prog[..n];
      PatchLast(rom, prog[k].bytes, next[k].bytes);
    } else {
      EmitLengthens(prog[..n], k);
      ReprintingChangesOneLiteral(prog[..n], next[..n], k);
      PatchEarlier(rom, EmitStmt(prog[n], offs, |rom|), offs[k], next[k].bytes);
    }
  }

  /** One depth's parameters: the 50-byte block of a video mode. */
  datatype Depth = Depth(pixelType: Word, bits: Word, count: Word, perComponent: Word)

  function ParmsHead(): (b: seq<Byte>)
    ensures |b| == 8
  {
    Bytes32(50) + Bytes32(0)
  }

  /** Top and left of the bounds. */
  function ParmsOrigin(): (b: seq<Byte>)
    ensures |b| == 4
  {
    Bytes16(0) + Bytes16(0)
  }

  function ParmsTail(d: Depth): (b: seq<Byte>)
    ensures |b| == 32
  {
    Bytes16(0) + Bytes16(0) + Bytes32(0) + Bytes32(0x0048_0000) + Bytes32(0x0048_0000)
    + Bytes16(d.pixelType) + Bytes16(d.bits) + Bytes16(d.count) + Bytes16(d.perComponent) + Bytes32(0) + Bytes32(0)
  }

  function VModeParms(d: Depth, width: Word, height: Word, rowBytes: Word): (b: seq<Byte>)
    ensures |b| == 50
  {
    ParmsHead() + Bytes16(rowBytes) + ParmsOrigin() + Bytes16(height) + Bytes16(width) + ParmsTail(d)
  }

  lemma PatchMiddle(a: seq<Byte>, b: seq<Byte>, c: seq<Byte>, d: seq<Byte>)
    requires |b| == |d|
    ensures Patched(a + b + c, |a|, d) == a + d + c
  {
    var s := a + b + c;
    assert s[..|a|] == a && s[|a| + |b|..] == c;
  }

  lemma Associates(a: seq<Byte>, b: seq<Byte>, c: seq<Byte>)
    ensures a + b + c == a + (b + c)
  {
  }

  /** Patching three words of a six-part block. */
  lemma ThreeWords(a: seq<Byte>, b: seq<Byte>, c: seq<Byte>, d: seq<Byte>, e: seq<Byte>, f: seq<Byte>,
                   b1: seq<Byte>, d1: seq<Byte>, e1: seq<Byte>)
    requires |b| == |b1| == 2 && |c| == 4 && |d| == |d1| == 2 && |e| == |e1| == 2
    ensures var s := a + b + c + d + e + f;
            Patched(Patched(Patched(s, |a|, b1), |a| + 6, d1), |a| + 8, e1) == a + b1 + c + d1 + e1 + f
  {
    var s := a + b + c + d + e + f;
    assert s == a + b + (c + d + e + f);
    PatchMiddle(a, b, c + d + e + f, b1);
    assert a + b1 + (c + d + e + f) == (a + b1 + c) + d + (e + f);
    PatchMiddle(a + b1 + c, d, e + f, d1);
    assert (a + b1 + c) + d1 + (e + f) == (a + b1 + c + d1) + e + f;
    PatchMiddle(a + b1 + c + d1, e, f, e1);
  }

  /** The three words patched are the whole difference between the blocks of two sizes. */
  lemma BlockForTheNewSize(rom: seq<Byte>, p: Patch, d: Depth, width: Word, height: Word, rowBytes: Word)
    requires |rom| >= HEADER && p.off + 50 <= |rom| - HEADER
    requires rom[p.off..p.off + 50] == VModeParms(d, width, height, rowBytes)
    ensures WithMode(rom, p) == Patched(rom, p.off, VModeParms(d, p.width, p.height, p.rowBytes % 0x1_0000))
  {
    hide Bytes16, ParmsHead, ParmsOrigin, ParmsTail, Patched;
    var front, back := rom[..p.off], rom[p.off + 50..];
    var was, now := VModeParms(d, width, height, rowBytes), VModeParms(d, p.width, p.height, p.rowBytes % 0x1_0000);
    var a, f := front + ParmsHead(), ParmsTail(d) + back;
    assert rom == front + was + back;
    assert front + was + back == a + Bytes16(rowBytes) + ParmsOrigin() + Bytes16(height) + Bytes16(width) + f;
    ThreeWords(a, Bytes16(rowBytes), ParmsOrigin(), Bytes16(height), Bytes16(width), f,
               Bytes16(p.rowBytes % 0x1_0000), Bytes16(p.height), Bytes16(p.width));
    PatchMiddle(front, was, back, now);
    assert front + now + back == a + Bytes16(p.rowBytes % 0x1_0000) + ParmsOrigin() + Bytes16(p.height)
        + Bytes16(p.width) + f;
  }

  /** The finished ROM: printed, with its header, and sealed. */
  ghost function Finished(prog: seq<Stmt>, directory: nat): seq<Byte>
    requires ProgramOk(prog) && directory < |prog| && |Emit(prog).0| + HEADER <= BUFFER
  {
    Checksummed(Declaration(prog, directory))
  }

  /**
    Found from the end as the Slot Manager does: the length field is the ROM's
    size, the directory entry leads to exactly what was printed, and the checksum
    is right.
   */
  lemma FinishedRomReadsBack(prog: seq<Stmt>, directory: nat)
    requires ProgramOk(prog) && directory < |prog| && |Emit(prog).0| + HEADER <= BUFFER
    ensures var rom := Finished(prog, directory);
            var top := |rom| - HEADER;
            Sealed(rom) && Long32(rom, |rom| - 16) == |rom| && Reads(rom, top + Signed24(rom, top + 1), prog, directory)
  {
    hide Reads, Bytes24, Bytes32, Bytes16, Emit, Crc, Sealed, Signed24, Long32, Header;
    var plain := Declaration(prog, directory);
    ChecksumSeals(plain);
    var rom := Finished(prog, directory);
    var n := |plain| - 12;
    assert rom[..n] == plain[..n];
    var body := |Emit(prog).0|;
    var head := Header(body + HEADER, Emit(prog).1[directory] - body);
    assert plain == Emit(prog).0 + head && |head| == HEADER;
    SliceOfSlice(plain, 0, n, 0, body);
    SliceOfSlice(plain, 0, n, body, body + 8);
    SliceOfSlice(rom, 0, n, 0, body);
    SliceOfSlice(rom, 0, n, body, body + 8);
    assert plain[..body] == Emit(prog).0 && plain[body..body + 8] == head[..8];
    ReadsBack(prog, directory, rom);
  }

  /**
    Patching a mode is printing again: the finished ROM becomes, byte for byte,
    the finished ROM of the same program with that mode's block for the new size.
   */
  lemma PatchingIsPrintingAgain(prog: seq<Stmt>, next: seq<Stmt>, directory: nat, k: nat, d: Depth,
                                width: Word, height: Word, rowBytes: Word, p: Patch)
    requires ProgramOk(prog) && directory < |prog| && |Emit(prog).0| + HEADER <= BUFFER
    requires SameButLiteral(prog, next, k) && prog[k] == Literal(VModeParms(d, width, height, rowBytes))
    requires next[k] == Literal(VModeParms(d, p.width, p.height, p.rowBytes % 0x1_0000)) && p.off == Emit(prog).1[k]
    ensures ProgramOk(next) && |Emit(next).0| == |Emit(prog).0|
    ensures PatchOk(|Finished(prog, directory)|, p)
    ensures PatchMode(Finished(prog, directory), p) == Finished(next, directory)
  {
    hide ProgramOk, Emit, VModeParms, Crc, Header, SameButLiteral, Checksummed, PatchMode, Patched;
    SameButLiteralIsOk(prog, next, k);
    SameLength(prog, next, k);
    ReprintingChangesOneLiteral(prog, next, k);
    BlockIsPrinted(prog, k);
    var (body, offs) := Emit(prog);
    SealedBlockPatched(body, Header(|body| + HEADER, offs[directory] - |body|), p, d, width, height, rowBytes);
  }

  lemma SealedBlockPatched(body: seq<Byte>, head: seq<Byte>, p: Patch, d: Depth, width: Word, height: Word,
                           rowBytes: Word)
    requires |head| == HEADER && p.off + 50 <= |body|
            && body[p.off..p.off + 50] == VModeParms(d, width, height, rowBytes)
    ensures PatchMode(Checksummed(body + head), p)
         == Checksummed(Patched(body, p.off, VModeParms(d, p.width, p.height, p.rowBytes % 0x1_0000)) + head)
  {
    hide VModeParms, Bytes16, Bytes32, Crc, WithMode;
    var rom := body + head;
    var now := VModeParms(d, p.width, p.height, p.rowBytes % 0x1_0000);
    var sealed := Checksummed(rom);
    assert sealed[p.off..p.off + 50] == rom[p.off..p.off + 50] == body[p.off..p.off + 50];
    BlockForTheNewSize(sealed, p, d, width, height, rowBytes);
    assert Patched(body, p.off, now) + head == Patched(rom, p.off, now);
    PatchingCommutes(rom, p.off, now);
  }

  lemma SameLength(prog: seq<Stmt>, next: seq<Stmt>, k: nat)
    requires SameButLiteral(prog, next, k)
    ensures |next| == |prog| && k < |prog|
  {
  }

  lemma {:induction false} BlockIsPrinted(prog: seq<Stmt>, k: nat)
    requires ProgramOk(prog) && k < |prog| && prog[k].Literal?
    ensures var (rom, offs) := Emit(prog);
            offs[k] + |prog[k].bytes| <= |rom| && rom[offs[k]..offs[k] + |prog[k].bytes|] == prog[k].bytes
    decreases |prog|
  {
    hide EmitItems, ItemsOk, Emit, ProgramOk;
    var n := |prog| - 1;
    EmitStep(prog, n, prog[n]);
    var (rom, offs) := Emit(prog[..n]);
    if k < n {
      BlockIsPrinted(prog[..n], k);
      EarlierSlice(rom, EmitStmt(prog[n], offs, |rom|), offs[k], offs[k] + |prog[k].bytes|);
    } else {
      LastSlice(rom, prog[k].bytes);
    }
  }

  lemma EarlierSlice(rom: seq<Byte>, more: seq<Byte>, i: nat, j: nat)
    requires i <= j <= |rom|
    ensures (rom + more)[i..j] == rom[i..j]
  {
  }

  lemma LastSlice(rom: seq<Byte>, more: seq<Byte>)
    ensures (rom + more)[|rom|..|rom| + |more|] == more
  {
  }

  /** Bytes before the header can be patched before or after sealing. */
  lemma PatchingCommutes(rom: seq<Byte>, at: nat, bytes: seq<Byte>)
    requires |rom| >= HEADER && at + |bytes| <= |rom| - HEADER
    ensures Checksummed(Patched(Checksummed(rom), at, bytes)) == Checksummed(Patched(rom, at, bytes))
  {
    hide Crc, Bytes32;
    var n, sealed := |rom| - 12, Checksummed(rom);
    var a, b := Patched(sealed, at, bytes), Patched(rom, at, bytes);
    forall x | 0 <= x < |rom| && !(n <= x < n + 4) ensures a[x] == b[x] { assert sealed[x] == rom[x]; }
    assert a[..n] == b[..n] && a[n + 4..] == b[n + 4..];
  }
}
