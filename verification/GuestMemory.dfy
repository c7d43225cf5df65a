/**
  The guest's memory as the emulator sees it: bytes at host offsets from the
  start of the 4 GB window, read and written big-endian in 8-, 16- and 32-bit
  accesses.  An access of n bytes at `a` covers `a .. a+n`: the host pointer is
  formed once and then advanced, so there is no wrap inside an access.  A write
  whose first byte lies in the ROM is dropped.
 */
module GuestMemory {

  type Byte = x: int | 0 <= x < 0x100
  type Word = x: int | 0 <= x < 0x1_0000
  type Long = x: int | 0 <= x < 0x1_0000_0000
  type Int16 = x: int | -0x8000 <= x < 0x8000
  type Int32 = x: int | -0x8000_0000 <= x < 0x8000_0000

  /** Unsigned 32-bit wrap-around. */
  function Wrap32(x: int): Long {
    x % 0x1_0000_0000
  }

  /** The 16 bits of a signed word, as the C cast to an unsigned one gives them. */
  function Bits16(x: int): Word {
    x % 0x1_0000
  }

  /** A 32-bit pattern read as a signed number. */
  function Signed32(x: Long): Int32 {
    if x < 0x8000_0000 then x else x - 0x1_0000_0000
  }

  datatype Memory = Memory(bytes: map<int, Byte>, romBase: int, romSize: nat) {

    predicate InRom(a: int) {
      romBase <= a < romBase + romSize
    }

    function Read8(a: int): Byte {
      if a in bytes then bytes[a] else 0
    }

    function Read16(a: int): Word {
      0x100 * Read8(a) + Read8(a + 1)
    }

    function Read32(a: int): Long {
      0x1_0000 * Read16(a) + Read16(a + 2)
    }

    function Write8(a: int, v: Byte): (m: Memory)
      ensures m.romBase == romBase && m.romSize == romSize
      ensures !InRom(a) ==> m.Read8(a) == v
      ensures forall x :: x != a || InRom(a) ==> m.Read8(x) == Read8(x)
    {
      if InRom(a) then this else this.(bytes := bytes[a := v])
    }

    function Write16(a: int, v: Word): (m: Memory)
      ensures m.romBase == romBase && m.romSize == romSize
      ensures !InRom(a) ==> m.Read16(a) == v
      ensures forall x :: !(a <= x < a + 2) || InRom(a) ==> m.Read8(x) == Read8(x)
    {
      if InRom(a) then this
      else this.(bytes := bytes[a := v / 0x100][a + 1 := v % 0x100])
    }

    function Write32(a: int, v: Long): (m: Memory)
      ensures m.romBase == romBase && m.romSize == romSize
      ensures !InRom(a) ==> m.Read32(a) == v
      ensures forall x :: !(a <= x < a + 4) || InRom(a) ==> m.Read8(x) == Read8(x)
    {
      if InRom(a) then this
      else
        var hi: Word, lo: Word := v / 0x1_0000, v % 0x1_0000;
        this.(bytes := bytes[a := hi / 0x100][a + 1 := hi % 0x100][a + 2 := lo / 0x100][a + 3 := lo % 0x100])
    }
  }
}
