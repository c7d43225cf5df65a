/**
  The pixel arena (toolbox_window.cpp): a first-fit allocator over at most 64 MB
  of guest address space above the frame buffer.  Blocks handed back are reused
  whole, and their owners remember the size they asked for.
 */
module Arena {
  import opened GuestMemory

  const LIMIT := 0x400_0000

  datatype Block = Block(addr: Long, size: Long) {
    /** The addresses of the block. */
    predicate Has(x: int) { addr <= x < addr + size }
  }

  /** The allocator, and `live`: what has been handed out and not yet handed back. */
  datatype Pool = Pool(base: Long, cursor: Long, free: seq<Block>, live: seq<Block>)

  /** `(size + 15) & ~15` in 32 bits. */
  function Rounded(size: Long): Long {
    (size + 15) % 0x1_0000_0000 / 16 * 16
  }

  /** The first free block that is large enough. */
  function FirstFit(free: seq<Block>, size: Long): (k: nat)
    ensures k <= |free|
    ensures k < |free| ==> free[k].size >= size
    ensures forall j :: 0 <= j < k ==> free[j].size < size
  {
    if free == [] || free[0].size >= size then 0 else 1 + FirstFit(free[1..], size)
  }

  function Without<T>(s: seq<T>, k: nat): seq<T>
    requires k < |s|
  {
    s[..k] + s[k + 1..]
  }

  /** The range check, as the code makes it: in 32 bits. */
  predicate Exhausted(p: Pool, r: Long) {
    Wrap32(p.cursor + r) > Wrap32(p.base + LIMIT)
  }

  /**
    Whether memory_is_mapped can say yes: always for no bytes, and never for a
    block that ends at or past 4 GB, as MemoryRanges.TheTopByteIsNeverMapped says.
   */
  predicate Usable(addr: Long, r: Long, mapped: bool) {
    r == 0 || (addr + r < 0x1_0000_0000 && mapped)
  }

  /** arena_alloc; `mapped` is whether the new pages could be mapped. */
  function Alloc(p: Pool, size: Long, mapped: bool): (Pool, Long) {
    var r, k := Rounded(size), FirstFit(p.free, Rounded(size));
    if k < |p.free| then
      (p.(free := Without(p.free, k), live := p.live + [Block(p.free[k].addr, size)]), p.free[k].addr)
    else if Exhausted(p, r) || !Usable(p.cursor, r, mapped) then (p, 0)
    else (p.(cursor := Wrap32(p.cursor + r), live := p.live + [Block(p.cursor, size)]), p.cursor)
  }

  /** arena_free of the k-th live block. */
  function Free(p: Pool, k: nat): Pool
    requires k < |p.live|
  {
    var b := p.live[k];
    p.(free := p.free + [Block(b.addr, Rounded(b.size))], live := Without(p.live, k))
  }

  /** A machine reset forgets every block. */
  function Reset(p: Pool): Pool {
    p.(cursor := p.base, free := [], live := [])
  }

  datatype Op = AllocOp(size: Long, mapped: bool) | FreeOp(k: nat) | ResetOp

  function Step(p: Pool, op: Op): Pool {
    match op
    case AllocOp(size, mapped) => Alloc(p, size, mapped).0
    case FreeOp(k) => if k < |p.live| then Free(p, k) else p
    case ResetOp => Reset(p)
  }

  function Steps(p: Pool, ops: seq<Op>): Pool
    decreases |ops|
  {
    if ops == [] then p else Steps(Step(p, ops[0]), ops[1..])
  }

  // -------------------------------------------------------------- invariant

  predicate Apart(a: Block, b: Block) {
    a.addr + a.size <= b.addr || b.addr + b.size <= a.addr
  }

  /** A block of the arena, below the cursor. */
  predicate Inside(p: Pool, b: Block) {
    b.addr % 16 == 0 && p.base <= b.addr && b.addr + b.size <= p.cursor
  }

  ghost predicate Separate(s: seq<Block>) {
    forall i, j :: 0 <= i < j < |s| ==> Apart(s[i], s[j])
  }

  /** The arena fits in the address space above its base. */
  predicate Placed(p: Pool) {
    p.base % 16 == 0 && 0 < p.base && p.base + LIMIT < 0x1_0000_0000
  }

  /** Live blocks at the size they were rounded to. */
  function Padded(s: seq<Block>): (r: seq<Block>)
    ensures |r| == |s|
    ensures forall i :: 0 <= i < |s| ==> r[i] == Block(s[i].addr, Rounded(s[i].size))
  {
    if s == [] then [] else [Block(s[0].addr, Rounded(s[0].size))] + Padded(s[1..])
  }

  ghost predicate Inv(p: Pool) {
    && Placed(p) && p.base <= p.cursor <= p.base + LIMIT && p.cursor % 16 == 0
    && (forall i :: 0 <= i < |p.free| ==> Inside(p, p.free[i]))
    && (forall i :: 0 <= i < |p.live| ==> Inside(p, Padded(p.live)[i]))
    && Separate(p.free) && Separate(Padded(p.live))
    && (forall i, j :: 0 <= i < |p.free| && 0 <= j < |p.live| ==> Apart(p.free[i], Padded(p.live)[j]))
    && (forall i :: 0 <= i < |p.live| ==> p.live[i].size <= Rounded(p.live[i].size))
  }

  /** What an allocation must not ask for: rounding up would wrap. */
  predicate Sane(op: Op) {
    op.AllocOp? ==> op.size <= 0xffff_fff0
  }

  lemma RoundingUp(size: Long)
    ensures size <= 0xffff_fff0 ==> size <= Rounded(size) < size + 16
    ensures size > 0xffff_fff0 ==> Rounded(size) == 0
    ensures Rounded(size) % 16 == 0
  {
  }

  /** Taking a prefix of one block keeps it apart from what it was apart from. */
  lemma PartStaysApart(a: Block, part: Block, b: Block)
    requires Apart(a, b) && part.addr == a.addr && part.size <= a.size
    ensures Apart(part, b) && Apart(b, part)
  {
  }

  lemma PaddedAppend(s: seq<Block>, b: Block)
    ensures Padded(s + [b]) == Padded(s) + [Block(b.addr, Rounded(b.size))]
  {
    assert |Padded(s + [b])| == |s| + 1;
  }

  lemma WithoutAt<T>(s: seq<T>, k: nat)
    requires k < |s|
    ensures |Without(s, k)| == |s| - 1
    ensures forall i :: 0 <= i < |s| - 1 ==> Without(s, k)[i] == s[if i < k then i else i + 1]
  {
  }

  lemma PaddedWithout(s: seq<Block>, k: nat)
    requires k < |s|
    ensures Padded(Without(s, k)) == Without(Padded(s), k)
  {
    hide Rounded, Padded, Without;
    WithoutAt(s, k);
    WithoutAt(Padded(s), k);
  }

  lemma WithoutSeparate(s: seq<Block>, k: nat)
    requires k < |s| && Separate(s)
    ensures Separate(Without(s, k))
    ensures forall i :: 0 <= i < |s| - 1 ==> Without(s, k)[i] == s[if i < k then i else i + 1]
    ensures forall i :: 0 <= i < |s| - 1 ==> Apart(Without(s, k)[i], s[k])
  {
    forall i | 0 <= i < |s| - 1 ensures Apart(Without(s, k)[i], s[k]) {
      if i < k { assert Apart(s[i], s[k]); } else { assert Apart(s[k], s[i + 1]); }
    }
  }

  lemma AppendSeparate(s: seq<Block>, b: Block)
    requires Separate(s) && forall i :: 0 <= i < |s| ==> Apart(s[i], b)
    ensures Separate(s + [b])
  {
  }

  lemma ReuseKeepsInv(p: Pool, size: Long)
    requires Inv(p) && size <= 0xffff_fff0 && FirstFit(p.free, Rounded(size)) < |p.free|
    ensures Inv(Alloc(p, size, true).0)
  {
    hide Rounded, FirstFit, Padded;
    var k := FirstFit(p.free, Rounded(size));
    var b := p.free[k];
    var part := Block(b.addr, Rounded(size));
    RoundingUp(size);
    WithoutSeparate(p.free, k);
    PaddedAppend(p.live, Block(b.addr, size));
    forall i | 0 <= i < |p.live| ensures Apart(Padded(p.live)[i], part) {
      PartStaysApart(b, part, Padded(p.live)[i]);
    }
    AppendSeparate(Padded(p.live), part);
    var q := Alloc(p, size, true).0;
    forall i, j | 0 <= i < |q.free| && 0 <= j < |q.live| ensures Apart(q.free[i], Padded(q.live)[j]) {
      if j == |p.live| {
        PartStaysApart(b, part, q.free[i]);
      }
    }
  }

  /** A block granted from the cursor ends inside the arena. */
  lemma ExtendsInside(p: Pool, size: Long, mapped: bool)
    requires Placed(p) && p.base <= p.cursor <= p.base + LIMIT && FirstFit(p.free, Rounded(size)) == |p.free|
    ensures var r, q := Rounded(size), Alloc(p, size, mapped).0;
            || q == p
            || (&& p.cursor + r <= p.base + LIMIT
                && q == p.(cursor := p.cursor + r, live := p.live + [Block(p.cursor, size)]))
  {
    hide Rounded, FirstFit;
  }

  lemma ExtendedInv(p: Pool, b: Block)
    requires Inv(p) && b.addr == p.cursor && b.size <= Rounded(b.size) && Rounded(b.size) % 16 == 0
    requires p.cursor + Rounded(b.size) <= p.base + LIMIT
    ensures Inv(p.(cursor := p.cursor + Rounded(b.size), live := p.live + [b]))
  {
    hide Rounded, Padded, Separate, Apart;
    var part := Block(p.cursor, Rounded(b.size));
    PaddedAppend(p.live, b);
    forall i | 0 <= i < |p.live| ensures Apart(Padded(p.live)[i], part) {
      BelowTheCursor(p, Padded(p.live)[i], part);
    }
    AppendSeparate(Padded(p.live), part);
    forall i | 0 <= i < |p.free| ensures Apart(p.free[i], part) { BelowTheCursor(p, p.free[i], part); }
  }

  lemma BelowTheCursor(p: Pool, b: Block, next: Block)
    requires Inside(p, b) && next.addr == p.cursor
    ensures Apart(b, next)
  {
  }

  lemma ExtendKeepsInv(p: Pool, size: Long, mapped: bool)
    requires Inv(p) && size <= 0xffff_fff0 && FirstFit(p.free, Rounded(size)) == |p.free|
    ensures Inv(Alloc(p, size, mapped).0)
  {
    hide Rounded, FirstFit, Alloc, Separate, Padded;
    RoundingUp(size);
    ExtendsInside(p, size, mapped);
    if Alloc(p, size, mapped).0 != p { ExtendedInv(p, Block(p.cursor, size)); }
  }

  lemma FreeKeepsInv(p: Pool, k: nat)
    requires Inv(p) && k < |p.live|
    ensures Inv(Free(p, k))
  {
    hide Rounded, Padded;
    PaddedWithout(p.live, k);
    WithoutSeparate(Padded(p.live), k);
    AppendSeparate(p.free, Padded(p.live)[k]);
    var q := Free(p, k);
    forall i, j | 0 <= i < |q.free| && 0 <= j < |q.live| ensures Apart(q.free[i], Padded(q.live)[j]) {
      if i == |p.free| {
        assert Apart(Without(Padded(p.live), k)[j], Padded(p.live)[k]);
      }
    }
  }

  lemma StepKeepsInv(p: Pool, op: Op)
    requires Inv(p) && Sane(op)
    ensures Inv(Step(p, op)) && Step(p, op).base == p.base
  {
    hide Inv, Rounded, FirstFit;
    match op {
      case AllocOp(size, mapped) =>
        if FirstFit(p.free, Rounded(size)) < |p.free| {
          ReuseKeepsInv(p, size);
        } else {
          ExtendKeepsInv(p, size, mapped);
        }
      case FreeOp(k) => if k < |p.live| { FreeKeepsInv(p, k); }
      case ResetOp => ResetKeepsInv(p);
    }
  }

  lemma ResetKeepsInv(p: Pool)
    requires Inv(p)
    ensures Inv(Reset(p))
  {
  }

  predicate Careful(ops: seq<Op>) {
    forall i :: 0 <= i < |ops| ==> Sane(ops[i])
  }

  lemma {:induction false} StepsKeepInv(p: Pool, ops: seq<Op>)
    requires Inv(p) && Careful(ops)
    ensures Inv(Steps(p, ops)) && Steps(p, ops).base == p.base
    decreases |ops|
  {
    hide Inv, Step, Sane;
    if ops != [] {
      StepKeepsInv(p, ops[0]);
      StepsKeepInv(Step(p, ops[0]), ops[1..]);
    }
  }

  lemma InvSeparates(p: Pool)
    requires Inv(p)
    ensures forall b :: b in p.live ==> b.addr % 16 == 0 && p.base <= b.addr && b.addr + b.size <= p.base + LIMIT
    ensures Separate(p.live)
    ensures forall i, j :: 0 <= i < |p.free| && 0 <= j < |p.live| ==> Apart(p.free[i], p.live[j])
  {
    hide Rounded;
    forall i, j | 0 <= i < j < |p.live| ensures Apart(p.live[i], p.live[j]) {
      assert Apart(Padded(p.live)[i], Padded(p.live)[j]);
    }
    forall i, j | 0 <= i < |p.free| && 0 <= j < |p.live| ensures Apart(p.free[i], p.live[j]) {
      assert Apart(p.free[i], Padded(p.live)[j]);
    }
  }

  /**
    After any sequence of allocations, frees and resets, the live blocks are
    16-aligned, inside the 64 MB of the arena, pairwise disjoint, and disjoint
    from every free block.
   */
  lemma LiveBlocksAreDisjoint(base: Long, ops: seq<Op>)
    requires Placed(Pool(base, base, [], [])) && Careful(ops)
    ensures var p := Steps(Pool(base, base, [], []), ops);
            && (forall b :: b in p.live ==> b.addr % 16 == 0 && base <= b.addr && b.addr + b.size <= base + LIMIT)
            && Separate(p.live)
            && (forall i, j :: 0 <= i < |p.free| && 0 <= j < |p.live| ==> Apart(p.free[i], p.live[j]))
  {
    hide Steps, Careful, Rounded, Separate;
    StartIsOk(base);
    StepsKeepInv(Pool(base, base, [], []), ops);
    InvSeparates(Steps(Pool(base, base, [], []), ops));
  }

  lemma StartIsOk(base: Long)
    requires Placed(Pool(base, base, [], []))
    ensures Inv(Pool(base, base, [], []))
  {
  }

  /**
    The rounding condition is exact: an allocation whose size would wrap is
    granted no bytes at all, so the next one is given the same address.
   */
  lemma AWrappingSizeOverlaps(p: Pool, size: Long)
    requires Inv(p) && p.free == [] && size > 0xffff_fff0 && p.cursor + 16 <= p.base + LIMIT
    ensures var q := Steps(p, [AllocOp(size, true), AllocOp(16, true)]);
            |q.live| == |p.live| + 2 && q.live[|p.live|].addr == q.live[|p.live| + 1].addr
            && !Apart(q.live[|p.live|], q.live[|p.live| + 1])
  {
    hide Padded, Rounded, Separate, Alloc;
    RoundingUp(size);
    assert Rounded(16) == 16 by { RoundingUp(16); }
    var ops := [AllocOp(size, true), AllocOp(16, true)];
    var q := p.(live := p.live + [Block(p.cursor, size)]);
    GrantedAtCursor(p, size, 0);
    var r := q.(cursor := p.cursor + 16, live := q.live + [Block(p.cursor, 16)]);
    GrantedAtCursor(q, 16, 16);
    assert ops[1..] == [AllocOp(16, true)] && ops[1..][1..] == [];
    assert Steps(p, ops) == Steps(q, ops[1..]) == Steps(r, []);
  }

  /** A request whose rounding wraps asks for no bytes, and is always granted. */
  lemma WrappingIsNeverRefused(p: Pool, size: Long, mapped: bool)
    requires Inv(p) && size > 0xffff_fff0
    ensures Alloc(p, size, mapped).1 != 0
    ensures var live := Alloc(p, size, mapped).0.live; live == p.live + [Block(Alloc(p, size, mapped).1, size)]
  {
    hide Inv, Rounded, Exhausted, Usable;
    RoundingUp(size);
    PlaceForNothing(p);
    NothingFits(p, mapped);
  }

  lemma PlaceForNothing(p: Pool)
    requires Inv(p)
    ensures Placed(p) && p.base <= p.cursor <= p.base + LIMIT
    ensures forall i :: 0 <= i < |p.free| ==> p.free[i].addr > 0
  {
    hide Separate, Padded, Apart;
    assert forall i :: 0 <= i < |p.free| ==> Inside(p, p.free[i]);
  }

  lemma NothingFits(p: Pool, mapped: bool)
    requires Placed(p) && p.base <= p.cursor <= p.base + LIMIT
    ensures !Exhausted(p, 0) && Usable(p.cursor, 0, mapped)
  {
  }

  /** Every grant lies inside the arena if and only if the request's rounding does not wrap. */
  lemma GrantsStayInsideUnlessTheyWrap(p: Pool, size: Long, mapped: bool)
    requires Inv(p)
    ensures var q := Step(p, AllocOp(size, mapped));
            (forall b :: b in q.live ==> p.base <= b.addr && b.addr + b.size <= p.base + LIMIT) <==> size <= 0xffff_fff0
  {
    hide Separate, Rounded, Alloc;
    var q := Step(p, AllocOp(size, mapped));
    if size <= 0xffff_fff0 {
      StepKeepsInv(p, AllocOp(size, mapped));
      InvSeparates(q);
    } else {
      WrappingIsNeverRefused(p, size, mapped);
      assert q.live[|q.live| - 1].size == size && q.live[|q.live| - 1] in q.live;
      assert p.base + LIMIT < 0x1_0000_0000 && p.base > 0;
    }
  }

  lemma GrantedAtCursor(p: Pool, size: Long, r: nat)
    requires Placed(p) && p.free == [] && r == Rounded(size) && p.base <= p.cursor && p.cursor + r <= p.base + LIMIT
    ensures Alloc(p, size, true).0 == p.(cursor := p.cursor + r, live := p.live + [Block(p.cursor, size)])
  {
    hide Rounded;
  }

  // -------------------------------------------------------- the allocator

  class Allocator {
    const base: Long
    var cursor: Long
    var free: seq<Block>
    ghost var live: seq<Block>

    constructor (base: Long)
      ensures View() == Pool(base, base, [], [])
    {
      this.base, cursor, free, live := base, base, [], [];
    }

    ghost function View(): Pool
      reads this
    {
      Pool(base, cursor, free, live)
    }

    /** First fit, then the cursor; `mapped` is whether new pages can be mapped. */
    method Allocate(size: Long, mapped: bool) returns (addr: Long)
      modifies this
      ensures (View(), addr) == Alloc(old(View()), size, mapped)
      ensures live == old(live) + [Block(addr, size)] || (addr == 0 && live == old(live))
    {
      hide Rounded;
      var r := Rounded(size);
      for i := 0 to |free|
        invariant View() == old(View())
        invariant forall j :: 0 <= j < i ==> free[j].size < r
      {
        if free[i].size >= r {
          addr := free[i].addr;
          free := free[..i] + free[i + 1..];
          live := live + [Block(addr, size)];
          return;
        }
      }
      if Wrap32(cursor + r) > Wrap32(base + LIMIT) { return 0; }
      addr := cursor;
      if r != 0 && (cursor + r >= 0x1_0000_0000 || !mapped) { return 0; }
      cursor := Wrap32(cursor + r);
      live := live + [Block(addr, size)];
    }

    /** Hands a live block back. */
    method Release(addr: Long, size: Long, ghost k: nat)
      requires k < |live| && live[k] == Block(addr, size)
      modifies this`free, this`live
      ensures View() == if addr == 0 then old(View()) else Free(old(View()), k)
    {
      if addr == 0 { return; }
      free := free + [Block(addr, Rounded(size))];
      live := Without(live, k);
    }

    method Clear()
      modifies this
      ensures View() == Reset(old(View()))
    {
      free, cursor, live := [], base, [];
    }
  }
}
