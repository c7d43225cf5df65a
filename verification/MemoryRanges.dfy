/**
  The table of committed ranges (memory.cpp): page-rounded commits, merged into
  the first range they touch, and the test whether an access is mapped, which
  looks at its two end bytes only.
 */
module MemoryRanges {
  import opened Arithmetic
  import opened GuestMemory

  const MAX_RANGES := 16
  const TOP := 0x1_0000_0000

  /** Inclusive start, exclusive end. */
  datatype Range = Range(start: Long, end: Long) {
    predicate Has(x: int) { start <= x < end }
  }

  /** The range table merges where ranges meet or overlap. */
  predicate Touches(r: Range, start: Long, end: Long) {
    start <= r.end && end >= r.start
  }

  function FirstTouched(ranges: seq<Range>, start: Long, end: Long): (k: nat)
    ensures k <= |ranges|
    ensures k < |ranges| ==> Touches(ranges[k], start, end)
    ensures forall j :: 0 <= j < k ==> !Touches(ranges[j], start, end)
  {
    if ranges == [] || Touches(ranges[0], start, end) then 0 else 1 + FirstTouched(ranges[1..], start, end)
  }

  function Widened(r: Range, start: Long, end: Long): Range {
    Range(if start < r.start then start else r.start, if end > r.end then end else r.end)
  }

  /** memory_note_range. */
  function Note(ranges: seq<Range>, start: Long, end: Long): seq<Range> {
    var k := FirstTouched(ranges, start, end);
    if k < |ranges| then ranges[k := Widened(ranges[k], start, end)]
    else if |ranges| >= MAX_RANGES then ranges
    else ranges + [Range(start, end)]
  }

  /** A host page size. */
  type Page = p: int | 0 < p <= 0x1_0000 && TOP % p == 0 witness 4096

  function PageStart(addr: int, page: Page): int {
    addr / page * page
  }

  /** The end of a commit, rounded up and cut at 4 GB. */
  function PageEnd(addr: Long, size: Long, page: Page): int {
    var end := (addr + size + page - 1) / page * page;
    if end > TOP then TOP else end
  }

  /** memory_commit_range, when the host grants the pages; both bounds are cast to 32 bits. */
  function Commit(ranges: seq<Range>, addr: Long, size: Long, page: Page): seq<Range> {
    if size == 0 || PageEnd(addr, size, page) <= PageStart(addr, page) then ranges
    else Note(ranges, Wrap32(PageStart(addr, page)), Wrap32(PageEnd(addr, size, page)))
  }

  predicate Mapped(ranges: seq<Range>, x: int) {
    exists k :: 0 <= k < |ranges| && ranges[k].Has(x)
  }

  /** memory_is_mapped. */
  predicate IsMapped(ranges: seq<Range>, addr: Long, size: Long) {
    var last := addr + size - 1;
    size == 0 || (last < TOP && Mapped(ranges, addr) && Mapped(ranges, last))
  }

  // --------------------------------------------------------------- the union

  datatype Request = Request(addr: Long, size: Long)

  /** A byte of the pages a commit asks for. */
  predicate Asked(c: Request, page: Page, x: int) {
    c.size > 0 && PageStart(c.addr, page) <= x < PageEnd(c.addr, c.size, page)
  }

  predicate Covered(commits: seq<Request>, page: Page, x: int) {
    exists k :: 0 <= k < |commits| && Asked(commits[k], page, x)
  }

  function CommitAll(ranges: seq<Range>, commits: seq<Request>, page: Page): seq<Range> {
    if commits == [] then ranges
    else Commit(CommitAll(ranges, commits[..|commits| - 1], page), commits[|commits| - 1].addr,
                commits[|commits| - 1].size, page)
  }

  /** The commit ends below 4 GB, and touches a range or finds room in the table. */
  predicate Fits(ranges: seq<Range>, c: Request, page: Page) {
    c.size > 0 ==>
      && PageEnd(c.addr, c.size, page) < TOP
      && (|ranges| < MAX_RANGES
          || FirstTouched(ranges, PageStart(c.addr, page), PageEnd(c.addr, c.size, page)) < |ranges|)
  }

  predicate AllFit(commits: seq<Request>, page: Page) {
    commits == [] ||
    (var init := commits[..|commits| - 1];
     AllFit(init, page) && Fits(CommitAll([], init, page), commits[|commits| - 1], page))
  }

  lemma MappedAt(ranges: seq<Range>, k: nat, x: int)
    requires k < |ranges| && ranges[k].Has(x)
    ensures Mapped(ranges, x)
  {
  }

  /** Noting a range adds exactly its bytes. */
  lemma NoteAdds(ranges: seq<Range>, start: Long, end: Long, x: int)
    requires start < end && (forall k :: 0 <= k < |ranges| ==> ranges[k].start < ranges[k].end)
    requires |ranges| < MAX_RANGES || FirstTouched(ranges, start, end) < |ranges|
    ensures Mapped(Note(ranges, start, end), x) <==> Mapped(ranges, x) || start <= x < end
  {
    var k, r := FirstTouched(ranges, start, end), Note(ranges, start, end);
    if k < |ranges| {
      if Mapped(ranges, x) {
        var j :| 0 <= j < |ranges| && ranges[j].Has(x);
        MappedAt(r, j, x);
      }
      if start <= x < end { MappedAt(r, k, x); }
      if Mapped(r, x) {
        var j :| 0 <= j < |r| && r[j].Has(x);
        if j != k { MappedAt(ranges, j, x); } else if !(start <= x < end) { MappedAt(ranges, k, x); }
      }
    } else {
      if Mapped(ranges, x) {
        var j :| 0 <= j < |ranges| && ranges[j].Has(x);
        MappedAt(r, j, x);
      }
      if start <= x < end { MappedAt(r, |ranges|, x); }
      if Mapped(r, x) {
        var j :| 0 <= j < |r| && r[j].Has(x);
        if j < |ranges| { MappedAt(ranges, j, x); }
      }
    }
  }

  /** Ranges are not empty and made of whole pages. */
  ghost predicate Aligned(ranges: seq<Range>, page: Page) {
    forall k :: 0 <= k < |ranges| ==>
      ranges[k].start < ranges[k].end && ranges[k].start % page == 0 && ranges[k].end % page == 0
  }

  lemma MultipleIsAligned(q: int, page: Page)
    ensures q * page % page == 0
  {
    Quotient(q * page, page, q, 0);
  }

  lemma RoundingFacts(addr: Long, size: Long, page: Page)
    requires size > 0 && PageEnd(addr, size, page) < TOP
    ensures var s, e := PageStart(addr, page), PageEnd(addr, size, page);
            0 <= s <= addr && addr + size <= e && s < e && s % page == 0 && e % page == 0 && Wrap32(s) == s
                && Wrap32(e) == e
  {
    MultipleIsAligned(addr / page, page);
    MultipleIsAligned((addr + size + page - 1) / page, page);
    DownAndUp(addr, page);
    DownAndUp(addr + size + page - 1, page);
  }

  lemma DownAndUp(x: int, page: Page)
    requires x >= 0
    ensures 0 <= x / page * page <= x < x / page * page + page
  {
    assert x / page * page == x - x % page;
  }

  lemma CommitAdds(ranges: seq<Range>, c: Request, page: Page, x: int)
    requires Aligned(ranges, page) && Fits(ranges, c, page)
    ensures Aligned(Commit(ranges, c.addr, c.size, page), page)
    ensures Mapped(Commit(ranges, c.addr, c.size, page), x) <==> Mapped(ranges, x) || Asked(c, page, x)
  {
    hide PageStart, PageEnd, Mapped, FirstTouched;
    if c.size > 0 {
      RoundingFacts(c.addr, c.size, page);
      NoteAdds(ranges, PageStart(c.addr, page), PageEnd(c.addr, c.size, page), x);
      NoteKeepsAligned(ranges, PageStart(c.addr, page), PageEnd(c.addr, c.size, page), page);
    }
  }

  lemma NoteKeepsAligned(ranges: seq<Range>, start: Long, end: Long, page: Page)
    requires Aligned(ranges, page) && start < end && start % page == 0 && end % page == 0
    ensures Aligned(Note(ranges, start, end), page)
  {
  }

  /**
    For any sequence of commits that fits the table and stays below 4 GB, the
    bytes of the recorded ranges are exactly the bytes of the committed pages.
   */
  lemma {:induction false} RangesAreTheCommittedPages(commits: seq<Request>, page: Page, x: int)
    requires AllFit(commits, page)
    ensures Aligned(CommitAll([], commits, page), page)
    ensures Mapped(CommitAll([], commits, page), x) <==> Covered(commits, page, x)
    decreases |commits|
  {
    hide Commit, Fits, Aligned, Asked;
    if commits == [] {
      NothingAligned(page);
    } else {
      var init, c := commits[..|commits| - 1], commits[|commits| - 1];
      RangesAreTheCommittedPages(init, page, x);
      CommitAdds(CommitAll([], init, page), c, page, x);
      CoveredAppend(init, c, page, x);
      assert commits == init + [c];
    }
  }

  lemma NothingAligned(page: Page)
    ensures Aligned([], page)
  {
  }

  lemma CoveredAppend(init: seq<Request>, c: Request, page: Page, x: int)
    ensures Covered(init + [c], page, x) <==> Covered(init, page, x) || Asked(c, page, x)
  {
    hide Asked;
    var all := init + [c];
    if Covered(init, page, x) {
      var k :| 0 <= k < |init| && Asked(init[k], page, x);
      assert Asked(all[k], page, x);
    }
    if Asked(c, page, x) { assert Asked(all[|init|], page, x); }
    if Covered(all, page, x) {
      var k :| 0 <= k < |all| && Asked(all[k], page, x);
      if k < |init| { assert Asked(init[k], page, x); }
    }
  }

  // --------------------------------------------------------------- the test

  /** A whole page is mapped or none of it. */
  lemma WholePages(ranges: seq<Range>, page: Page, x: int, y: int)
    requires Aligned(ranges, page) && x / page == y / page && Mapped(ranges, x)
    ensures Mapped(ranges, y)
  {
    var k :| 0 <= k < |ranges| && ranges[k].Has(x);
    InPage(ranges[k].start, ranges[k].end, page, x, y);
    MappedAt(ranges, k, y);
  }

  lemma InPage(start: int, end: int, page: Page, x: int, y: int)
    requires start % page == 0 && end % page == 0 && start <= x < end && x / page == y / page
    ensures start <= y < end
  {
    var s, e, q := start / page, end / page, x / page;
    assert start == s * page && end == e * page;
    Floor(x, page);
    Floor(y, page);
    if q < s { LessTimes(q + 1, s, page); }
    if q >= e { LessTimes(e, q, page); }
    LessTimes(s, q, page);
    LessTimes(q + 1, e, page);
  }

  lemma Floor(x: int, d: int)
    requires d > 0
    ensures x / d * d <= x < (x / d + 1) * d
  {
    assert (x / d + 1) * d == x / d * d + d;
  }

  lemma LessTimes(a: int, b: int, d: int)
    requires d > 0
    ensures a <= b ==> a * d <= b * d
  {
    if a <= b { assert (b - a) * d >= 0; }
  }

  lemma Ordered(a: int, b: int, d: int)
    requires d > 0 && a <= b
    ensures a / d <= b / d
  {
    Floor(a, d);
    Floor(b, d);
    if b / d < a / d { LessTimes(b / d + 1, a / d, d); }
  }

  /** An access whose end bytes lie in the same page, or in two that follow each other. */
  predicate AtMostTwoPages(addr: Long, size: Long, page: Page) {
    (addr + size - 1) / page - addr / page <= 1
  }

  /** Up to a page and a byte, no access can touch more than two pages. */
  lemma ShortAccessesSpanTwoPages(addr: Long, size: Long, page: Page)
    requires 1 <= size <= page + 1
    ensures AtMostTwoPages(addr, size, page)
  {
    var last := addr + size - 1;
    Floor(addr, page);
    Floor(last, page);
    assert (addr / page + 2) * page == (addr / page + 1) * page + page;
    if last / page > addr / page + 1 { LessTimes(addr / page + 2, last / page, page); }
  }

  /** The last page below 4 GB, which no recorded range can hold. */
  predicate ReachesTopPage(addr: Long, size: Long, page: Page) {
    addr + size - 1 >= TOP - page
  }

  lemma TopPageUnmapped(ranges: seq<Range>, page: Page, x: int)
    requires Aligned(ranges, page) && x >= TOP - page
    ensures !Mapped(ranges, x)
  {
    if Mapped(ranges, x) {
      var k :| 0 <= k < |ranges| && ranges[k].Has(x);
      var e, t := ranges[k].end / page, TOP / page;
      assert ranges[k].end == e * page && TOP == t * page;
      assert (e + 1) * page == e * page + page;
      if e < t { LessTimes(e + 1, t, page); } else { LessTimes(t, e, page); }
    }
  }

  /**
    Looking only at the two end bytes is exact for every access that touches at
    most two pages, and for every one that reaches the top page, over any
    page-aligned table.
   */
  lemma EndBytesDecide(ranges: seq<Range>, page: Page, addr: Long, size: Long)
    requires Aligned(ranges, page) && size >= 1
    requires AtMostTwoPages(addr, size, page) || ReachesTopPage(addr, size, page)
    ensures IsMapped(ranges, addr, size) <==> forall x :: addr <= x < addr + size ==> Mapped(ranges, x)
  {
    hide Mapped, Aligned;
    var last := addr + size - 1;
    if ReachesTopPage(addr, size, page) {
      TopPageUnmapped(ranges, page, last);
    } else if IsMapped(ranges, addr, size) {
      forall x | addr <= x < addr + size ensures Mapped(ranges, x) {
        Ordered(addr, x, page);
        Ordered(x, last, page);
        if x / page == addr / page { WholePages(ranges, page, addr, x); } else { WholePages(ranges, page, last, x); }
      }
    }
  }

  /** The test is right about an access after these commits: yes exactly when each byte was committed. */
  ghost predicate Tells(commits: seq<Request>, page: Page, addr: Long, size: Long) {
    IsMapped(CommitAll([], commits, page), addr, size)
    <==> forall x :: addr <= x < addr + size ==> Covered(commits, page, x)
  }

  /**
    So after commits that fit, an access to at most two pages is mapped exactly
    when each of its bytes was committed.
   */
  lemma AccessIsMappedIffCommitted(commits: seq<Request>, page: Page, addr: Long, size: Long)
    requires AllFit(commits, page) && size >= 1
    requires AtMostTwoPages(addr, size, page) || ReachesTopPage(addr, size, page)
    ensures Tells(commits, page, addr, size)
  {
    hide IsMapped, Mapped, Covered, Aligned, CommitAll, AllFit, AtMostTwoPages, ReachesTopPage;
    RangesAreTheCommittedPages(commits, page, addr);
    EndBytesDecide(CommitAll([], commits, page), page, addr, size);
    forall x ensures Mapped(CommitAll([], commits, page), x) <==> Covered(commits, page, x) {
      RangesAreTheCommittedPages(commits, page, x);
    }
  }

  /** The bytes of a page are those with its number. */
  lemma PageHolds(q: int, page: Page, x: int)
    ensures q * page <= x < (q + 1) * page <==> x / page == q
  {
    Floor(x, page);
    if x / page < q { LessTimes(x / page + 1, q, page); }
    if x / page > q { LessTimes(q + 1, x / page, page); }
  }

  lemma PageOfByte(a: Long, page: Page)
    requires a < TOP - page
    ensures PageStart(a, page) == a / page * page
    ensures PageEnd(a, 1, page) == (a / page + 1) * page < TOP
  {
    var q, t := a / page, TOP / page;
    assert (q + 1) * page == q * page + page && (q + 2) * page == (q + 1) * page + page;
    Quotient(a + page, page, q + 1, a % page);
    Floor(a, page);
    assert TOP == t * page;
    if q + 1 >= t { LessTimes(t, q + 1, page); }
    assert a + 1 + page - 1 == a + page;
  }

  /** One byte asks for its own page. */
  lemma AskedByByte(a: Long, page: Page, x: int)
    requires a < TOP - page
    ensures PageEnd(a, 1, page) < TOP
    ensures Asked(Request(a, 1), page, x) <==> x / page == a / page
  {
    hide PageStart, PageEnd;
    PageOfByte(a, page);
    PageHolds(a / page, page, x);
  }

  /** The pages of two bytes, committed one after the other. */
  function EndPages(a: Long, b: Long): seq<Request> {
    [Request(a, 1), Request(b, 1)]
  }

  lemma EndPagesFit(a: Long, b: Long, page: Page)
    requires a < TOP - page && b < TOP - page
    ensures AllFit(EndPages(a, b), page)
  {
    hide Commit, FirstTouched, PageEnd, PageStart;
    AskedByByte(a, page, a);
    AskedByByte(b, page, b);
    var one, two, none: seq<Request> := [Request(a, 1)], EndPages(a, b), [];
    assert one[..0] == none && two[..1] == one;
    assert CommitAll([], none, page) == [];
    assert AllFit(none, page) && AllFit(one, page);
    assert |CommitAll([], one, page)| <= 1 by { OneMoreAtMost([], a, 1, page); }
  }

  lemma OneMoreAtMost(ranges: seq<Range>, addr: Long, size: Long, page: Page)
    ensures |Commit(ranges, addr, size, page)| <= |ranges| + 1
  {
    hide PageStart, PageEnd, Touches;
  }

  /**
    With only its end pages committed, a longer access passes the test, and has a
    page in the middle that is not mapped.
   */
  lemma LongerAccessesCanHideAHole(page: Page, addr: Long, size: Long)
    requires size >= 1 && !AtMostTwoPages(addr, size, page) && !ReachesTopPage(addr, size, page)
    ensures AllFit(EndPages(addr, addr + size - 1), page) && !Tells(EndPages(addr, addr + size - 1), page, addr, size)
  {
    hide Mapped, CommitAll, AllFit, Asked, Aligned;
    var last: Long, x := addr + size - 1, (addr / page + 1) * page;
    var commits := EndPages(addr, last);
    EndPagesFit(addr, last, page);
    Quotient(x, page, addr / page + 1, 0);
    Floor(addr, page);
    Floor(last, page);
    LessTimes(addr / page + 2, last / page, page);
    forall y ensures Covered(commits, page, y) <==> y / page == addr / page || y / page == last / page {
      AskedByByte(addr, page, y);
      AskedByByte(last, page, y);
      EndPagesCover(addr, last, page, y);
    }
    RangesAreTheCommittedPages(commits, page, addr);
    RangesAreTheCommittedPages(commits, page, last);
    assert !Covered(commits, page, x) && addr <= x < addr + size;
  }

  lemma EndPagesCover(a: Long, b: Long, page: Page, x: int)
    ensures Covered(EndPages(a, b), page, x) <==> Asked(Request(a, 1), page, x) || Asked(Request(b, 1), page, x)
  {
    hide Asked;
    var c := EndPages(a, b);
    assert c[0] == Request(a, 1) && c[1] == Request(b, 1);
    if Asked(Request(a, 1), page, x) { assert Asked(c[0], page, x); }
    if Asked(Request(b, 1), page, x) { assert Asked(c[1], page, x); }
  }

  /**
    The exact reach of the end-byte test: it is right about an access after every
    sequence of commits that fits if and only if the access touches at most two
    pages, or reaches the top page.
   */
  lemma EndBytesAreEnoughExactlyWhen(page: Page, addr: Long, size: Long)
    requires size >= 1
    ensures (forall commits :: AllFit(commits, page) ==> Tells(commits, page, addr, size))
        <==> AtMostTwoPages(addr, size, page) || ReachesTopPage(addr, size, page)
  {
    hide Tells, AllFit, AtMostTwoPages, ReachesTopPage;
    if AtMostTwoPages(addr, size, page) || ReachesTopPage(addr, size, page) {
      forall commits | AllFit(commits, page) ensures Tells(commits, page, addr, size) {
        AccessIsMappedIffCommitted(commits, page, addr, size);
      }
    } else {
      LongerAccessesCanHideAHole(page, addr, size);
    }
  }

  /** Recorded ends are 32 bits wide, so no access that ends at 4 GB is ever mapped, whatever was committed. */
  lemma TheTopByteIsNeverMapped(ranges: seq<Range>, addr: Long, size: Long)
    requires size >= 1 && addr + size >= TOP
    ensures !IsMapped(ranges, addr, size)
  {
  }

  /** Why commits must stay below 4 GB: one that reaches the top is recorded as ending at 0, and maps nothing. */
  lemma ACommitToTheTopIsLost(ranges: seq<Range>, c: Request, page: Page, x: int)
    requires c.size > 0 && PageEnd(c.addr, c.size, page) == TOP
    ensures Mapped(Commit(ranges, c.addr, c.size, page), x) <==> Mapped(ranges, x)
  {
    hide PageStart, PageEnd;
    var start, r := Wrap32(PageStart(c.addr, page)), Commit(ranges, c.addr, c.size, page);
    assert Wrap32(TOP) == 0;
    if r != ranges {
      assert r == Note(ranges, start, 0);
      var k := FirstTouched(ranges, start, 0);
      if Mapped(ranges, x) {
        var j :| 0 <= j < |ranges| && ranges[j].Has(x);
        MappedAt(r, j, x);
      }
      if Mapped(r, x) {
        var j :| 0 <= j < |r| && r[j].Has(x);
        assert j < |ranges|;
        MappedAt(ranges, j, x);
      }
    }
  }

  /** Some byte a commit asked for is not recorded as mapped afterwards. */
  ghost predicate Loses(ranges: seq<Range>, c: Request, page: Page) {
    exists x :: Asked(c, page, x) && !Mapped(Commit(ranges, c.addr, c.size, page), x)
  }

  /**
    A commit that the host grants is lost, in whole or in part, if and only if it
    reaches 4 GB, or the table is full and it neither overlaps nor adjoins any
    recorded range; and then nothing at all is recorded of it.
   */
  lemma ACommitIsLostExactlyWhen(ranges: seq<Range>, c: Request, page: Page)
    requires Aligned(ranges, page) && c.size > 0
    ensures var start, end := PageStart(c.addr, page), PageEnd(c.addr, c.size, page);
            && (Loses(ranges, c, page)
                <==> || end == TOP
                     || (&& |ranges| >= MAX_RANGES
                         && forall k :: 0 <= k < |ranges| ==> ranges[k].end < start || end < ranges[k].start))
            && (Loses(ranges, c, page) ==>
                  forall x :: Mapped(Commit(ranges, c.addr, c.size, page), x) <==> Mapped(ranges, x))
  {
    hide PageStart, PageEnd, Mapped, Commit, Aligned;
    var start, end := PageStart(c.addr, page), PageEnd(c.addr, c.size, page);
    AskedIsReal(c, page);
    if end == TOP {
      forall x ensures Mapped(Commit(ranges, c.addr, c.size, page), x) <==> Mapped(ranges, x) {
        ACommitToTheTopIsLost(ranges, c, page, x);
      }
      TopPageUnmapped(ranges, page, TOP - 1);
      assert Asked(c, page, TOP - 1);
    } else if |ranges| < MAX_RANGES || FirstTouched(ranges, start, end) < |ranges| {
      forall x | Asked(c, page, x) ensures Mapped(Commit(ranges, c.addr, c.size, page), x) {
        CommitAdds(ranges, c, page, x);
      }
    } else {
      FullTableStays(ranges, c, page);
      UntouchedIsUnmapped(ranges, start, end);
      assert Asked(c, page, start);
    }
  }

  /** What is asked for is not empty. */
  lemma AskedIsReal(c: Request, page: Page)
    requires c.size > 0
    ensures 0 <= PageStart(c.addr, page) < PageEnd(c.addr, c.size, page) <= TOP
  {
    if PageEnd(c.addr, c.size, page) < TOP {
      RoundingFacts(c.addr, c.size, page);
    } else {
      Floor(c.addr, page);
    }
  }

  lemma FullTableStays(ranges: seq<Range>, c: Request, page: Page)
    requires c.size > 0 && PageEnd(c.addr, c.size, page) < TOP && |ranges| >= MAX_RANGES
    requires FirstTouched(ranges, PageStart(c.addr, page), PageEnd(c.addr, c.size, page)) == |ranges|
    ensures Commit(ranges, c.addr, c.size, page) == ranges
  {
    hide PageEnd;
    AskedIsReal(c, page);
  }

  lemma UntouchedIsUnmapped(ranges: seq<Range>, start: int, end: int)
    requires 0 <= start < end < TOP && FirstTouched(ranges, start, end) == |ranges|
    ensures !Mapped(ranges, start)
  {
    forall k | 0 <= k < |ranges| ensures !ranges[k].Has(start) { assert !Touches(ranges[k], start, end); }
  }

  // --------------------------------------------------------- the code's form

  class RangeTable {
    const entries: array<Range>
    const page: Page
    var count: nat

    constructor (page: Page)
      ensures Valid() && fresh(entries) && Used() == [] && this.page == page
    {
      this.page, count := page, 0;
      entries := new Range[MAX_RANGES](_ => Range(0, 0));
    }

    ghost predicate Valid()
      reads this
    {
      entries.Length == MAX_RANGES && count <= MAX_RANGES
    }

    ghost function Used(): seq<Range>
      requires Valid()
      reads this, entries
    {
      entries[..count]
    }

    method NoteRange(start: Long, end: Long)
      requires Valid()
      modifies this`count, entries
      ensures Valid() && Used() == Note(old(Used()), start, end)
    {
      for i := 0 to count
        invariant Valid() && Used() == old(Used()) && count == old(count)
        invariant forall j :: 0 <= j < i ==> !Touches(entries[j], start, end)
      {
        if start <= entries[i].end && end >= entries[i].start {
          if start < entries[i].start {
            entries[i] := entries[i].(start := start);
          }
          if end > entries[i].end {
            entries[i] := entries[i].(end := end);
          }
          return;
        }
      }
      if count >= MAX_RANGES { return; }
      entries[count] := Range(start, end);
      count := count + 1;
    }

    method CommitRange(addr: Long, size: Long)
      requires Valid()
      modifies this`count, entries
      ensures Valid() && Used() == Commit(old(Used()), addr, size, page)
    {
      hide Note;
      if size == 0 { return; }
      var start := PageStart(addr, page);
      var end := PageEnd(addr, size, page);
      if end <= start { return; }
      NoteRange(Wrap32(start), Wrap32(end));
    }

    method TestMapped(addr: Long, size: Long) returns (yes: bool)
      requires Valid()
      ensures yes == IsMapped(Used(), addr, size)
    {
      if size == 0 { return true; }
      var last: int := addr + size - 1;
      if last >= TOP { return false; }
      var startOk, lastOk := false, false;
      for i := 0 to count
        invariant startOk <==> exists k :: 0 <= k < i && entries[k].Has(addr)
        invariant lastOk <==> exists k :: 0 <= k < i && entries[k].Has(last)
      {
        if entries[i].Has(addr) { startOk := true; }
        if entries[i].Has(last) { lastOk := true; }
      }
      assert startOk <==> Mapped(Used(), addr) by {
        if Mapped(Used(), addr) { var k :| 0 <= k < count && Used()[k].Has(addr); assert entries[k].Has(addr); }
        if startOk { var k :| 0 <= k < count && entries[k].Has(addr); MappedAt(Used(), k, addr); }
      }
      assert lastOk <==> Mapped(Used(), last) by {
        if Mapped(Used(), last) { var k :| 0 <= k < count && Used()[k].Has(last); assert entries[k].Has(last); }
        if lastOk { var k :| 0 <= k < count && entries[k].Has(last); MappedAt(Used(), k, last); }
      }
      return startOk && lastOk;
    }
  }
}
