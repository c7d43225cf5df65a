/**
  The declaration ROM as the code builds it: bytes appended to a buffer, copied
  to the end of the Mac ROM, and sealed and patched there in place.  Each method
  is proved to do what the function of SlotRom says.

  The parts that only carry data (board and driver names, driver code, gamma
  table) are parameters of the printed program; how they are linked, with the
  six depths of the video sResource, is written out.
 */
module DeclarationRom {
  import opened GuestMemory
  import opened S = SlotRom

  class Builder {
    const srom: array<Byte>
    var p: nat

    constructor ()
      ensures Valid() && fresh(srom) && Printed() == []
    {
      srom := new Byte[BUFFER](_ => 0);
      p := 0;
    }

    ghost predicate Valid()
      reads this
    {
      srom.Length == BUFFER && p <= BUFFER
    }

    ghost function Printed(): seq<Byte>
      requires Valid()
      reads this, srom
    {
      srom[..p]
    }

    method Put(b: Byte)
      requires Valid() && p < BUFFER
      modifies this`p, srom
      ensures Valid() && Printed() == old(Printed()) + [b]
    {
      srom[p] := b;
      p := p + 1;
    }

    method PutThree(v: int)
      requires Valid() && p + 3 <= BUFFER
      modifies this`p, srom
      ensures Valid() && Printed() == old(Printed()) + Bytes24(v)
    {
      Put(v / 0x1_0000 % 0x100);
      Put(v / 0x100 % 0x100);
      Put(v % 0x100);
    }

    method Offs(kind: Byte, to: int)
      requires Valid() && p + 4 <= BUFFER
      modifies this`p, srom
      ensures Valid() && Printed() == old(Printed()) + ([kind] + Bytes24(to - old(p)))
    {
      hide Bytes24;
      var offs := to - p;
      Put(kind);
      PutThree(offs);
    }

    method Rsrc(kind: Byte, data: int)
      requires Valid() && p + 4 <= BUFFER
      modifies this`p, srom
      ensures Valid() && Printed() == old(Printed()) + ([kind] + Bytes24(data))
    {
      hide Bytes24;
      Put(kind);
      PutThree(data);
    }

    method EndOfList()
      requires Valid() && p + 4 <= BUFFER
      modifies this`p, srom
      ensures Valid() && Printed() == old(Printed()) + [END, 0, 0, 0]
    {
      Put(END);
      Put(0);
      Put(0);
      Put(0);
    }

    method PutLong(v: Long)
      requires Valid() && p + 4 <= BUFFER
      modifies this`p, srom
      ensures Valid() && Printed() == old(Printed()) + Bytes32(v)
    {
      Put(v / 0x100_0000);
      Put(v / 0x1_0000 % 0x100);
      Put(v / 0x100 % 0x100);
      Put(v % 0x100);
    }

    method PutWord(v: Word)
      requires Valid() && p + 2 <= BUFFER
      modifies this`p, srom
      ensures Valid() && Printed() == old(Printed()) + Bytes16(v)
    {
      Put(v / 0x100);
      Put(v % 0x100);
    }

    /** A literal, byte after byte. */
    method Bytes(b: seq<Byte>)
      requires Valid() && p + |b| <= BUFFER
      modifies this`p, srom
      ensures Valid() && Printed() == old(Printed()) + b
    {
      for i := 0 to |b|
        invariant Valid() && p == old(p) + i && Printed() == old(Printed()) + b[..i]
      {
        Put(b[i]);
        assert b[..i + 1] == b[..i] + [b[i]];
      }
      assert b[..|b|] == b;
    }

    method PutItem(item: Item, offs: seq<int>)
      requires Valid() && ItemOk(item, |offs|) && p + 4 <= BUFFER
      modifies this`p, srom
      ensures Valid() && p == old(p) + 4 && Printed() == old(Printed()) + EmitItem(item, offs, old(p))
    {
      hide Bytes24;
      match item {
        case Ref(kind, target) => Offs(kind, offs[target]);
        case Val(kind, value) => Rsrc(kind, value);
      }
    }

    method List(items: seq<Item>, offs: seq<int>)
      requires Valid() && ItemsOk(items, |offs|) && p + 4 * |items| + 4 <= BUFFER
      modifies this`p, srom
      ensures Valid() && Printed() == old(Printed()) + EmitItems(items, offs, old(p))
    {
      hide EmitItem;
      assert items[0..] == items;
      for i := 0 to |items|
        invariant Valid() && p == old(p) + 4 * i
        invariant ItemsOk(items[i..], |offs|)
        invariant old(Printed()) + EmitItems(items, offs, old(p)) == Printed() + EmitItems(items[i..], offs, p)
      {
        ghost var before, at := Printed(), p;
        ItemsStep(items, i, offs, p);
        PutItem(items[i], offs);
        Associates(before, EmitItem(items[i], offs, at), EmitItems(items[i + 1..], offs, p));
      }
      EndOfList();
    }

    /** All the definitions, in order. */
    method Print(prog: seq<Stmt>) returns (offs: seq<int>)
      requires Valid() && p == 0 && ProgramOk(prog) && |Emit(prog).0| <= BUFFER
      modifies this`p, srom
      ensures Valid() && (Printed(), offs) == Emit(prog)
    {
      hide EmitItems, ItemsOk, Emit;
      offs := [];
      assert (Printed(), offs) == Emit(prog[..0]) by { EmitsNothing(prog); }
      for i := 0 to |prog|
        invariant Valid() && |offs| == i && ProgramOk(prog[..i]) && (Printed(), offs) == Emit(prog[..i])
      {
        PrefixIsOk(prog, i + 1);
        EmitStep(prog[..i + 1], i, prog[i]);
        assert prog[..i + 1][..i] == prog[..i];
        EmitGrows(prog, i + 1);
        var at := p;
        match prog[i] {
          case Literal(bytes) => Bytes(bytes);
          case Listing(items) => List(items, offs);
        }
        offs := offs + [at];
      }
      assert prog[..|prog|] == prog;
    }

    /** The format block: the length it states counts itself. */
    method PrintHeader(directory: int)
      requires Valid() && p + HEADER <= BUFFER
      modifies this`p, srom
      ensures Valid() && Printed() == old(Printed()) + Header(old(p) + HEADER, directory - old(p))
    {
      hide Bytes24, Bytes32, Bytes16;
      Offs(0, directory);
      PutLong(p + 16);
      PutLong(0);
      PutWord(0x0101);
      PutLong(0x5a93_2bc7);
      PutWord(0x000f);
    }
  }

  /** The declaration ROM at the end of the Mac ROM. */
  class MacRom {
    const rom: array<Byte>
    const offset: nat
    const size: nat

    /** Copies what was printed to the end of the ROM and seals it. */
    constructor (romSize: nat, printed: seq<Byte>)
      requires HEADER <= |printed| <= romSize
      ensures Valid() && fresh(rom) && rom.Length == romSize && size == |printed| && Image() == Checksummed(printed)
    {
      size, offset := |printed|, romSize - |printed|;
      rom := new Byte[romSize](i => if 0 <= i - (romSize - |printed|) < |printed|
                               then printed[i - (romSize - |printed|)] else 0);
      new;
      assert Image() == printed;
      Checksum();
    }

    ghost predicate Valid() {
      HEADER <= size && offset + size == rom.Length
    }

    ghost function Image(): seq<Byte>
      requires Valid()
      reads rom
    {
      rom[offset..]
    }

    /** Writes bytes into the image. */
    method PutAt(at: nat, bytes: seq<Byte>)
      requires Valid() && at + |bytes| <= size
      modifies rom
      ensures Image() == Patched(old(Image()), at, bytes)
      ensures forall x :: 0 <= x < offset ==> rom[x] == old(rom[x])
    {
      for i := 0 to |bytes|
        invariant forall x :: 0 <= x < rom.Length ==>
                    rom[x] == if offset + at <= x < offset + at + i then bytes[x - offset - at] else old(rom[x])
      {
        rom[offset + at + i] := bytes[i];
      }
    }

    method ComputeCrc() returns (crc: Long)
      requires Valid()
      ensures crc == Crc(Image())
    {
      hide CrcStep;
      crc := 0;
      for i := 0 to size
        invariant crc == Crc(Image()[..i])
      {
        assert Image()[..i + 1][..i] == Image()[..i];
        crc := CrcStep(crc, rom[offset + i]);
      }
      assert Image()[..size] == Image();
    }

    method Checksum()
      requires Valid()
      modifies rom
      ensures Image() == Checksummed(old(Image()))
      ensures forall x :: 0 <= x < offset ==> rom[x] == old(rom[x])
    {
      hide Bytes32, Crc, Patched;
      ghost var before := Image();
      PutAt(size - 12, [0, 0, 0, 0]);
      var crc := ComputeCrc();
      PutAt(size - 12, Bytes32(crc));
      BlankThenPatch(before, Bytes32(crc));
    }

    /** SlotROM_PatchMode for a mode whose block was printed. */
    method PatchVideoMode(patch: Patch)
      requires Valid() && PatchOk(size, patch)
      modifies rom
      ensures Image() == PatchMode(old(Image()), patch)
      ensures forall x :: 0 <= x < offset ==> rom[x] == old(rom[x])
    {
      hide Bytes16, Patched, Checksummed;
      PutAt(patch.off + 8, Bytes16(patch.rowBytes % 0x1_0000));
      PutAt(patch.off + 14, Bytes16(patch.height));
      PutAt(patch.off + 16, Bytes16(patch.width));
      Checksum();
    }
  }

  lemma ItemsStep(items: seq<Item>, i: nat, offs: seq<int>, p: int)
    requires i < |items| && ItemsOk(items[i..], |offs|)
    ensures ItemOk(items[i], |offs|) && ItemsOk(items[i + 1..], |offs|)
    ensures EmitItems(items[i..], offs, p) == EmitItem(items[i], offs, p) + EmitItems(items[i + 1..], offs, p + 4)
  {
    hide EmitItem;
    assert items[i..][1..] == items[i + 1..] && items[i..][0] == items[i];
  }

  lemma BlankThenPatch(rom: seq<Byte>, bytes: seq<Byte>)
    requires |rom| > 12 && |bytes| == 4
    ensures Patched(Blanked(rom), |rom| - 12, bytes) == Patched(rom, |rom| - 12, bytes)
  {
  }

  lemma EmitsNothing(prog: seq<Stmt>)
    ensures ProgramOk(prog[..0]) && Emit(prog[..0]) == ([], [])
  {
  }

  lemma PrefixIsOk(prog: seq<Stmt>, n: nat)
    requires ProgramOk(prog) && n <= |prog|
    ensures ProgramOk(prog[..n])
  {
    hide ItemsOk;
  }

  lemma {:induction false} EmitGrows(prog: seq<Stmt>, n: nat)
    requires ProgramOk(prog) && n <= |prog|
    ensures ProgramOk(prog[..n]) && |Emit(prog[..n]).0| <= |Emit(prog).0|
    decreases |prog|
  {
    hide EmitItems, ItemsOk;
    PrefixIsOk(prog, n);
    if n == |prog| {
      assert prog[..n] == prog;
    } else {
      PrefixOk(prog);
      EmitGrows(prog[..|prog| - 1], n);
      assert prog[..|prog| - 1][..n] == prog[..n];
    }
  }

  // ------------------------------------------------------ this ROM's program

  /** The literals of the ROM: names, types and drivers, whatever their bytes. */
  datatype Parts = Parts(
    boardType: seq<Byte>, boardName: seq<Byte>, vendor: seq<Byte>, revision: seq<Byte>, part: seq<Byte>,
        date: seq<Byte>,
    videoType: seq<Byte>, videoName: seq<Byte>, base: seq<Byte>, length: seq<Byte>, videoDriver: seq<Byte>,
        gamma: seq<Byte>,
    cpuType: seq<Byte>, cpuName: seq<Byte>, major: seq<Byte>, minor: seq<Byte>,
    etherType: seq<Byte>, etherName: seq<Byte>, etherDriver: seq<Byte>)

  /** The six depths, from one bit to 32. */
  function DepthOf(d: nat): Depth {
    match d
    case 0 => Depth(0, 1, 1, 1)
    case 1 => Depth(0, 2, 1, 2)
    case 2 => Depth(0, 4, 1, 4)
    case 3 => Depth(0, 8, 1, 8)
    case 4 => Depth(16, 16, 3, 5)
    case _ => Depth(16, 32, 3, 8)
  }

  /** The label of a depth's parameter block; that of its mode list follows. */
  function ParmsLabel(d: nat): nat { 16 + 2 * d }
  const DIRECTORY := 39

  function Board(c: Parts): seq<Stmt> {
    [Literal(c.boardType), Literal(c.boardName), Literal(c.vendor), Literal(c.revision), Literal(c.part),
     Literal(c.date),
     Listing([Ref(0x01, 2), Ref(0x03, 3), Ref(0x04, 4), Ref(0x05, 5)]),
     Listing([Ref(0x01, 0), Ref(0x02, 1), Val(0x20, 0x4232), Ref(0x24, 6)])]
  }

  function Video(c: Parts): seq<Stmt> {
    [Literal(c.videoType), Literal(c.videoName), Literal(c.base), Literal(c.length), Literal(c.videoDriver),
     Listing([Ref(0x02, 12)]), Literal(c.gamma), Listing([Ref(0x80, 14)])]
  }

  /** One depth: its parameters at a size, and the list that names them. */
  function Mode(d: nat, width: Word, height: Word, rowBytes: Word): seq<Stmt> {
    [Literal(VModeParms(DepthOf(d), width, height, rowBytes)),
     Listing([Ref(0x01, ParmsLabel(d)), Val(0x03, 1), Val(0x04, if d >= 4 then 2 else 0)])]
  }

  /** The size each depth's block was printed for, or last patched to. */
  datatype Size = Size(width: Word, height: Word, rowBytes: Word)

  function Modes(sizes: seq<Size>): seq<Stmt>
    requires |sizes| == 6
  {
    Mode(0, sizes[0].width, sizes[0].height, sizes[0].rowBytes)
        + Mode(1, sizes[1].width, sizes[1].height, sizes[1].rowBytes)
    + Mode(2, sizes[2].width, sizes[2].height, sizes[2].rowBytes)
        + Mode(3, sizes[3].width, sizes[3].height, sizes[3].rowBytes)
    + Mode(4, sizes[4].width, sizes[4].height, sizes[4].rowBytes)
        + Mode(5, sizes[5].width, sizes[5].height, sizes[5].rowBytes)
  }

  function Rest(c: Parts): seq<Stmt> {
    [Listing([Ref(0x01, 8), Ref(0x02, 9), Ref(0x04, 13), Val(0x08, 0x4232), Ref(0x0a, 10), Ref(0x0b, 11),
              Ref(0x40, 15), Val(0x7d, 6),
              Ref(0x80, 17), Ref(0x81, 19), Ref(0x82, 21), Ref(0x83, 23), Ref(0x84, 25), Ref(0x85, 27)]),
     Literal(c.cpuType), Literal(c.cpuName), Literal(c.major), Literal(c.minor),
     Listing([Ref(0x01, 29), Ref(0x02, 30), Ref(0x81, 31), Ref(0x82, 32)]),
     Literal(c.etherType), Literal(c.etherName), Literal(c.etherDriver), Listing([Ref(0x02, 36)]),
     Listing([Ref(0x01, 34), Ref(0x02, 35), Ref(0x04, 37), Val(0x07, 0), Val(0x08, 0x4232)]),
     Listing([Ref(0x01, 7), Ref(0x80, 28), Ref(0xf0, 33), Ref(0xf1, 38)])]
  }

  /** InstallSlotROM: what is defined, in the order it is. */
  function SlotProgram(c: Parts, sizes: seq<Size>): (prog: seq<Stmt>)
    requires |sizes| == 6
    ensures |prog| == 40
  {
    Board(c) + Video(c) + Modes(sizes) + Rest(c)
  }

  lemma BoardOk(c: Parts)
    ensures forall i :: 0 <= i < 8 && Board(c)[i].Listing? ==> ItemsOk(Board(c)[i].items, i)
  {
  }

  lemma VideoOk(c: Parts)
    ensures forall i :: 0 <= i < 8 && Video(c)[i].Listing? ==> ItemsOk(Video(c)[i].items, 8 + i)
  {
  }

  lemma RestOk(c: Parts)
    ensures forall i :: 0 <= i < 12 && Rest(c)[i].Listing? ==> ItemsOk(Rest(c)[i].items, 28 + i)
  {
  }

  /** Where the mode definitions are. */
  lemma ModesAt(sizes: seq<Size>, d: nat)
    requires |sizes| == 6 && d < 6
    ensures |Modes(sizes)| == 12
    ensures Modes(sizes)[2 * d] == Mode(d, sizes[d].width, sizes[d].height, sizes[d].rowBytes)[0]
    ensures Modes(sizes)[2 * d + 1] == Mode(d, sizes[d].width, sizes[d].height, sizes[d].rowBytes)[1]
  {
    hide VModeParms;
  }

  lemma ModesOk(sizes: seq<Size>)
    requires |sizes| == 6
    ensures |Modes(sizes)| == 12
    ensures forall i :: 0 <= i < 12 && Modes(sizes)[i].Listing? ==> ItemsOk(Modes(sizes)[i].items, 16 + i)
  {
    hide VModeParms, Modes;
    ModesAt(sizes, 0);
    forall i | 0 <= i < 12 && Modes(sizes)[i].Listing? ensures ItemsOk(Modes(sizes)[i].items, 16 + i) {
      ModesAt(sizes, i / 2);
      assert i == 2 * (i / 2) || i == 2 * (i / 2) + 1;
    }
  }

  lemma SlotProgramIsOk(c: Parts, sizes: seq<Size>)
    requires |sizes| == 6
    ensures ProgramOk(SlotProgram(c, sizes))
  {
    hide Board, Video, Modes, Rest, ItemsOk;
    BoardOk(c);
    VideoOk(c);
    ModesOk(sizes);
    RestOk(c);
    assert |Board(c)| == 8 && |Video(c)| == 8 && |Rest(c)| == 12 by { PartLengths(c); }
    var prog := SlotProgram(c, sizes);
    forall k | 0 <= k < 40 && prog[k].Listing? ensures ItemsOk(prog[k].items, k) {
      if k < 8 { assert prog[k] == Board(c)[k]; }
      else if k < 16 { assert prog[k] == Video(c)[k - 8]; }
      else if k < 28 { assert prog[k] == Modes(sizes)[k - 16]; }
      else { assert prog[k] == Rest(c)[k - 28]; }
    }
  }

  lemma PartLengths(c: Parts)
    ensures |Board(c)| == 8 && |Video(c)| == 8 && |Rest(c)| == 12
  {
  }

  /** The two programs for sizes that differ in one depth differ in that depth's block. */
  lemma OneModeDiffers(c: Parts, sizes: seq<Size>, d: nat, now: Size)
    requires |sizes| == 6 && d < 6
    ensures SameButLiteral(SlotProgram(c, sizes), SlotProgram(c, sizes[d := now]), ParmsLabel(d))
    ensures SlotProgram(c, sizes)[ParmsLabel(d)]
            == Literal(VModeParms(DepthOf(d), sizes[d].width, sizes[d].height, sizes[d].rowBytes))
    ensures SlotProgram(c, sizes[d := now])[ParmsLabel(d)]
            == Literal(VModeParms(DepthOf(d), now.width, now.height, now.rowBytes))
  {
    hide Board, Video, Modes, Rest, VModeParms, DepthOf;
    PartLengths(c);
    var next := sizes[d := now];
    var prog, changed := SlotProgram(c, sizes), SlotProgram(c, next);
    ModesAt(sizes, d);
    ModesAt(next, d);
    assert prog[16 + 2 * d] == Modes(sizes)[2 * d] && changed[16 + 2 * d] == Modes(next)[2 * d];
    forall j | 0 <= j < 40 && j != ParmsLabel(d) ensures changed[j] == prog[j] {
      if j < 8 {
        assert prog[j] == Board(c)[j] == changed[j];
      } else if j < 16 {
        assert prog[j] == Video(c)[j - 8] == changed[j];
      } else if j < 28 {
        ModesAt(sizes, (j - 16) / 2);
        ModesAt(next, (j - 16) / 2);
        assert j - 16 == 2 * ((j - 16) / 2) || j - 16 == 2 * ((j - 16) / 2) + 1;
        assert prog[j] == Modes(sizes)[j - 16] && changed[j] == Modes(next)[j - 16];
      } else {
        assert prog[j] == Rest(c)[j - 28] == changed[j];
      }
    }
  }

  /**
    A mode patch of the installed ROM leaves exactly the ROM that would have been
    installed had that depth's block been printed for the new size.
   */
  lemma PatchedRomIsTheRomForTheNewSize(c: Parts, sizes: seq<Size>, d: nat, p: Patch)
    requires |sizes| == 6 && d < 6 && ProgramOk(SlotProgram(c, sizes))
            && |Emit(SlotProgram(c, sizes)).0| + HEADER <= BUFFER
    requires p.off == Emit(SlotProgram(c, sizes)).1[ParmsLabel(d)]
    ensures var next := SlotProgram(c, sizes[d := Size(p.width, p.height, p.rowBytes % 0x1_0000)]);
            && ProgramOk(next) && |Emit(next).0| == |Emit(SlotProgram(c, sizes)).0|
            && PatchOk(|Finished(SlotProgram(c, sizes), DIRECTORY)|, p)
            && PatchMode(Finished(SlotProgram(c, sizes), DIRECTORY), p) == Finished(next, DIRECTORY)
  {
    hide SlotProgram, ProgramOk, Emit, VModeParms, SameButLiteral, Finished, PatchMode;
    var now := Size(p.width, p.height, p.rowBytes % 0x1_0000);
    OneModeDiffers(c, sizes, d, now);
    PatchingIsPrintingAgain(SlotProgram(c, sizes), SlotProgram(c, sizes[d := now]), DIRECTORY, ParmsLabel(d),
                            DepthOf(d),
                            sizes[d].width, sizes[d].height, sizes[d].rowBytes, p);
  }

  /** InstallSlotROM: prints the card's program and the format block, and puts the result at the end of the Mac ROM. */
  method InstallSlotRom(c: Parts, sizes: seq<Size>, romSize: nat) returns (r: MacRom)
    requires |sizes| == 6 && ProgramOk(SlotProgram(c, sizes))
            && |Emit(SlotProgram(c, sizes)).0| + HEADER <= BUFFER <= romSize
    ensures fresh(r) && fresh(r.rom) && r.Valid() && r.rom.Length == romSize
    ensures r.Image() == Finished(SlotProgram(c, sizes), DIRECTORY)
  {
    hide SlotProgram, ProgramOk, Emit, Checksummed;
    var b := new Builder();
    var prog := SlotProgram(c, sizes);
    var offs := b.Print(prog);
    b.PrintHeader(offs[DIRECTORY]);
    assert b.Printed() == Declaration(prog, DIRECTORY);
    r := new MacRom(romSize, b.srom[..b.p]);
  }
}
