/** The VR arena walk: records of 16 bytes on linked pages of 0x2000 bytes. The
    word after a page's records is the address of the next page. Addresses are
    unbounded and 0 is null. */
module ArenaWalk {
  import opened Prelude

  const PAGE_BYTES := 0x2000
  const RECORD_BYTES := 16
  const RECORDS_PER_PAGE := 512
  const MAX_RECORDS: nat := 1_000_000

  /** The part of the arena header that the walk reads. */
  datatype Arena = Arena(head: nat, begin: nat, end: nat)

  /** `link(a)` is the pointer stored at address `a`. */
  type Memory = nat -> nat

  predicate Walkable(arena: Arena) {
    && arena.begin != 0 && arena.begin != arena.end && arena.head != 0
    && arena.head <= arena.begin < arena.head + PAGE_BYTES
  }

  /** The cursors visited from `cursor` on `page`, with `budget` visits left. */
  function WalkFrom(link: Memory, page: nat, cursor: nat, end: nat, budget: nat): seq<nat>
    decreases budget, cursor
  {
    if cursor == end || budget == 0 then []
    else
      var next := cursor + RECORD_BYTES;
      [cursor] +
      if next > page + PAGE_BYTES then []
      else if next < page + PAGE_BYTES then WalkFrom(link, page, next, end, budget - 1)
      else
        var page' := link(next);
        if page' == 0 then [] else WalkFrom(link, page', page', end, budget - 1)
  }

  function Visits(arena: Option<Arena>, link: Memory): seq<nat> {
    if arena.None? || !Walkable(arena.value) then []
    else WalkFrom(link, arena.value.head, arena.value.begin, arena.value.end, MAX_RECORDS)
  }

  /** The walk as a loop; `visited` collects the cursors passed to the callback. */
  method ForEachArenaRecord(arena: Option<Arena>, link: Memory) returns (visited: seq<nat>)
    ensures visited == Visits(arena, link)
  {
    visited := [];
    if arena.None? || arena.value.begin == 0 || arena.value.begin == arena.value.end {
      return;
    }
    var page: nat, cursor: nat, end: nat := arena.value.head, arena.value.begin, arena.value.end;
    if page == 0 {
      return;
    }
    var pageEnd: nat := page + PAGE_BYTES;
    if cursor < page || cursor >= pageEnd {
      return;
    }
    var count: nat := 0;
    ghost var budget := MAX_RECORDS;
    while cursor != end
      invariant count + budget == MAX_RECORDS
      invariant pageEnd == page + PAGE_BYTES
      invariant visited + WalkFrom(link, page, cursor, end, budget) == Visits(arena, link)
      decreases budget
    {
      if count == MAX_RECORDS {
        break;
      }
      count := count + 1;
      ghost var later := WalkFrom(link, page, cursor, end, budget)[1..];
      assert visited + WalkFrom(link, page, cursor, end, budget) == (visited + [cursor]) + later;
      visited := visited + [cursor];
      cursor, budget := cursor + RECORD_BYTES, budget - 1;
      if cursor > pageEnd {
        assert later == [];
        break;
      }
      if cursor == pageEnd {
        page := link(pageEnd);
        if page == 0 {
          assert later == [];
          break;
        }
        cursor := page;
        pageEnd := page + PAGE_BYTES;
      }
      assert later == WalkFrom(link, page, cursor, end, budget);
    }
  }

  // ---- Any memory contents ----

  /** The page reached from `head` by following `hops` next-page pointers. */
  function PageAt(link: Memory, head: nat, hops: nat): nat {
    if hops == 0 then head
    else
      var before := PageAt(link, head, hops - 1);
      if before == 0 then 0 else link(before + PAGE_BYTES)
  }

  ghost predicate OnReachablePage(link: Memory, head: nat, cursor: nat) {
    exists hops: nat :: PageAt(link, head, hops) != 0 &&
      PageAt(link, head, hops) <= cursor < PageAt(link, head, hops) + PAGE_BYTES
  }

  lemma {:induction false} WalkIsBounded(link: Memory, head: nat, hops: nat, cursor: nat, end: nat, budget: nat)
    requires PageAt(link, head, hops) != 0
    requires PageAt(link, head, hops) <= cursor < PageAt(link, head, hops) + PAGE_BYTES
    ensures var w := WalkFrom(link, PageAt(link, head, hops), cursor, end, budget);
      && |w| <= budget
      && forall i :: 0 <= i < |w| ==> OnReachablePage(link, head, w[i])
    decreases budget
  {
    var page, next := PageAt(link, head, hops), cursor + RECORD_BYTES;
    if cursor == end || budget == 0 {
    } else {
      assert OnReachablePage(link, head, cursor);
      if next < page + PAGE_BYTES {
        WalkIsBounded(link, head, hops, next, end, budget - 1);
      } else if next == page + PAGE_BYTES && link(next) != 0 {
        assert PageAt(link, head, hops + 1) == link(next);
        WalkIsBounded(link, head, hops + 1, link(next), end, budget - 1);
      }
    }
  }

  /** Whatever memory holds, the callback runs at most 1,000,000 times and every
      record it is given starts on a page reachable from the head. */
  lemma VisitsAreBounded(arena: Option<Arena>, link: Memory)
    ensures |Visits(arena, link)| <= 1_000_000
    ensures forall i :: 0 <= i < |Visits(arena, link)| ==>
      OnReachablePage(link, arena.value.head, Visits(arena, link)[i])
  {
    if arena.Some? && Walkable(arena.value) {
      assert PageAt(link, arena.value.head, 0) == arena.value.head;
      WalkIsBounded(link, arena.value.head, 0, arena.value.begin, arena.value.end, MAX_RECORDS);
    }
  }

  // ---- Well-formed chains ----

  /** Address of the `i`-th record slot of a chain of pages. */
  function SlotAddress(pages: seq<nat>, i: nat): nat
    requires i < RECORDS_PER_PAGE * |pages|
  {
    pages[i / RECORDS_PER_PAGE] + RECORD_BYTES * (i % RECORDS_PER_PAGE)
  }

  /** `pages` is the chain that starts at its first page. Pages, each with its
      next-page word, do not overlap. */
  ghost predicate Chained(link: Memory, pages: seq<nat>) {
    && pages != []
    && (forall i :: 0 <= i < |pages| ==> pages[i] != 0)
    && (forall i :: 0 <= i < |pages| - 1 ==> pages[i + 1] == link(pages[i] + PAGE_BYTES))
    && (forall i, j :: 0 <= i < j < |pages| ==>
          pages[i] + PAGE_BYTES < pages[j] || pages[j] + PAGE_BYTES < pages[i])
  }

  /** The live records are the slots from `first` up to `last`; the arena ends on
      a slot of the chain, or at the very end of the last page. */
  ghost predicate WellFormed(arena: Arena, link: Memory, pages: seq<nat>, first: nat, last: nat) {
    && Chained(link, pages)
    && arena.head == pages[0]
    && first < RECORDS_PER_PAGE && first < last <= RECORDS_PER_PAGE * |pages|
    && arena.begin == SlotAddress(pages, first)
    && (if last < RECORDS_PER_PAGE * |pages| then arena.end == SlotAddress(pages, last)
        else arena.end == pages[|pages| - 1] + PAGE_BYTES)
  }

  /** The walk goes no further than the end: it ends inside a page, or the word at
      the end of the last page is null or, by chance, the end itself. */
  ghost predicate Stops(arena: Arena, link: Memory, pages: seq<nat>, last: nat) {
    last < RECORDS_PER_PAGE * |pages| || link(arena.end) == 0 || link(arena.end) == arena.end
  }

  /** What is visited past the live records: at the end of a page the walk turns to
      the next page before it compares with the end. */
  function Beyond(arena: Arena, link: Memory, pages: seq<nat>, last: nat, budget: nat): seq<nat> {
    if last < RECORDS_PER_PAGE * |pages| || link(arena.end) == 0 then []
    else WalkFrom(link, link(arena.end), link(arena.end), arena.end, budget)
  }

  lemma NothingBeyond(arena: Arena, link: Memory, pages: seq<nat>, last: nat, budget: nat)
    ensures Beyond(arena, link, pages, last, budget) == [] <==> Stops(arena, link, pages, last) || budget == 0
  {
  }

  lemma SlotsDiffer(link: Memory, pages: seq<nat>, i: nat, j: nat)
    requires Chained(link, pages) && i < j < RECORDS_PER_PAGE * |pages|
    ensures SlotAddress(pages, i) != SlotAddress(pages, j)
  {
    var p, q := i / RECORDS_PER_PAGE, j / RECORDS_PER_PAGE;
    if p < q {
      assert pages[p] + PAGE_BYTES < pages[q] || pages[q] + PAGE_BYTES < pages[p];
    }
  }

  lemma SlotIsNotEnd(link: Memory, pages: seq<nat>, i: nat)
    requires Chained(link, pages) && i < RECORDS_PER_PAGE * |pages|
    ensures SlotAddress(pages, i) != pages[|pages| - 1] + PAGE_BYTES
  {
    var p := i / RECORDS_PER_PAGE;
    if p < |pages| - 1 {
      assert pages[p] + PAGE_BYTES < pages[|pages| - 1] || pages[|pages| - 1] + PAGE_BYTES < pages[p];
    }
  }

  /** The slots from `i` up to `last`, in order. */
  function Slots(pages: seq<nat>, i: nat, last: nat): seq<nat>
    requires i <= last <= RECORDS_PER_PAGE * |pages|
    decreases last - i
  {
    if i == last then [] else [SlotAddress(pages, i)] + Slots(pages, i + 1, last)
  }

  lemma {:induction false} SlotsInOrder(pages: seq<nat>, i: nat, last: nat)
    requires i <= last <= RECORDS_PER_PAGE * |pages|
    ensures |Slots(pages, i, last)| == last - i
    ensures forall k :: 0 <= k < last - i ==> Slots(pages, i, last)[k] == SlotAddress(pages, i + k)
    decreases last - i
  {
    hide SlotAddress;
    if i == last {
    } else {
      SlotsInOrder(pages, i + 1, last);
      var later := Slots(pages, i + 1, last);
      forall k | 0 <= k < last - i
        ensures Slots(pages, i, last)[k] == SlotAddress(pages, i + k)
      {
        if k > 0 {
          assert later[k - 1] == SlotAddress(pages, i + 1 + (k - 1));
        }
      }
    }
  }

  lemma NotYetAtEnd(arena: Arena, link: Memory, pages: seq<nat>, first: nat, last: nat, i: nat)
    requires WellFormed(arena, link, pages, first, last) && first <= i < last
    ensures SlotAddress(pages, i) != arena.end
  {
    if last < RECORDS_PER_PAGE * |pages| {
      SlotsDiffer(link, pages, i, last);
    } else {
      SlotIsNotEnd(link, pages, i);
    }
  }

  function WalkAt(link: Memory, pages: seq<nat>, i: nat, end: nat, budget: nat): seq<nat>
    requires i < RECORDS_PER_PAGE * |pages|
  {
    WalkFrom(link, pages[i / RECORDS_PER_PAGE], SlotAddress(pages, i), end, budget)
  }

  lemma {:induction false} WalkIsExact(arena: Arena, link: Memory, pages: seq<nat>, first: nat, last: nat, i: nat, budget: nat)
    requires WellFormed(arena, link, pages, first, last) && first <= i < last && last - i <= budget
    ensures WalkAt(link, pages, i, arena.end, budget) == Slots(pages, i, last) + Beyond(arena, link, pages, last, budget - (last - i))
    decreases last - i
  {
    hide WalkFrom, WalkAt, SlotAddress, Beyond;
    if i + 1 < last {
      WalkOn(arena, link, pages, first, last, i, budget);
      WalkIsExact(arena, link, pages, first, last, i + 1, budget - 1);
    } else {
      LastSlot(arena, link, pages, first, last, budget);
    }
  }

  lemma WalkOn(arena: Arena, link: Memory, pages: seq<nat>, first: nat, last: nat, i: nat, budget: nat)
    requires WellFormed(arena, link, pages, first, last) && first <= i < last - 1 && budget > 0
    ensures WalkAt(link, pages, i, arena.end, budget)
         == [SlotAddress(pages, i)] + WalkAt(link, pages, i + 1, arena.end, budget - 1)
  {
    NotYetAtEnd(arena, link, pages, first, last, i);
    WalkStep(link, pages, i, arena.end, budget);
  }

  /** Inside a page the next slot is 16 bytes on; past a page's last slot it is
      the first slot of the linked page. */
  lemma NextSlot(link: Memory, pages: seq<nat>, i: nat)
    requires Chained(link, pages) && i + 1 < RECORDS_PER_PAGE * |pages|
    ensures var page, next := pages[i / RECORDS_PER_PAGE], SlotAddress(pages, i) + RECORD_BYTES;
      if i % RECORDS_PER_PAGE < RECORDS_PER_PAGE - 1 then
        pages[(i + 1) / RECORDS_PER_PAGE] == page && next == SlotAddress(pages, i + 1) && next < page + PAGE_BYTES
      else
        next == page + PAGE_BYTES && link(next) != 0 &&
        link(next) == pages[(i + 1) / RECORDS_PER_PAGE] == SlotAddress(pages, i + 1)
  {
    var p := i / RECORDS_PER_PAGE;
    if i % RECORDS_PER_PAGE == RECORDS_PER_PAGE - 1 {
      assert (i + 1) / RECORDS_PER_PAGE == p + 1 && (i + 1) % RECORDS_PER_PAGE == 0;
      assert pages[p + 1] == link(pages[p] + PAGE_BYTES);
    }
  }

  lemma WalkStep(link: Memory, pages: seq<nat>, i: nat, end: nat, budget: nat)
    requires Chained(link, pages) && i + 1 < RECORDS_PER_PAGE * |pages|
    requires SlotAddress(pages, i) != end && budget > 0
    ensures WalkAt(link, pages, i, end, budget)
         == [SlotAddress(pages, i)] + WalkAt(link, pages, i + 1, end, budget - 1)
  {
    NextSlot(link, pages, i);
    var page, cursor, page' := pages[i / RECORDS_PER_PAGE], SlotAddress(pages, i), pages[(i + 1) / RECORDS_PER_PAGE];
    var next := cursor + RECORD_BYTES;
    if i % RECORDS_PER_PAGE < RECORDS_PER_PAGE - 1 {
      assert WalkFrom(link, page, cursor, end, budget) == [cursor] + WalkFrom(link, page, next, end, budget - 1);
    } else {
      assert WalkFrom(link, page, cursor, end, budget) == [cursor] + WalkFrom(link, page', page', end, budget - 1);
    }
  }

  lemma LastSlot(arena: Arena, link: Memory, pages: seq<nat>, first: nat, last: nat, budget: nat)
    requires WellFormed(arena, link, pages, first, last) && budget > 0
    ensures WalkAt(link, pages, last - 1, arena.end, budget)
         == [SlotAddress(pages, last - 1)] + Beyond(arena, link, pages, last, budget - 1)
  {
    NotYetAtEnd(arena, link, pages, first, last, last - 1);
    if last < RECORDS_PER_PAGE * |pages| {
      WalkStep(link, pages, last - 1, arena.end, budget);
      assert WalkAt(link, pages, last, arena.end, budget - 1) == [];
    } else {
      assert (last - 1) / RECORDS_PER_PAGE == |pages| - 1;
    }
  }

  lemma WalkStarts(arena: Arena, link: Memory, pages: seq<nat>, first: nat, last: nat)
    requires WellFormed(arena, link, pages, first, last)
    ensures Visits(Some(arena), link) == WalkAt(link, pages, first, arena.end, MAX_RECORDS)
  {
    hide WalkFrom;
    NotYetAtEnd(arena, link, pages, first, last, first);
  }

  /** Exactly when the walk visits the live records, in order, and nothing else:
      there are at most 1,000,000 of them, and the walk stops at the end or has
      used up its visits there. */
  lemma VisitsAreExact(arena: Arena, link: Memory, pages: seq<nat>, first: nat, last: nat)
    requires WellFormed(arena, link, pages, first, last)
    ensures Visits(Some(arena), link) == Slots(pages, first, last) <==>
      last - first <= 1_000_000 && (Stops(arena, link, pages, last) || last - first == 1_000_000)
  {
    hide WalkFrom, WalkAt, SlotAddress, Visits, Slots, Beyond, Stops, Chained, OnReachablePage;
    WalkStarts(arena, link, pages, first, last);
    LiveRecords(link, pages, first, last);
    if last - first <= MAX_RECORDS {
      WalkIsExact(arena, link, pages, first, last, first, MAX_RECORDS);
      NothingBeyond(arena, link, pages, last, MAX_RECORDS - (last - first));
    } else {
      VisitsAreBounded(Some(arena), link);
    }
  }

  /** The live records are listed in order, once each. */
  lemma LiveRecords(link: Memory, pages: seq<nat>, first: nat, last: nat)
    requires Chained(link, pages) && first <= last <= RECORDS_PER_PAGE * |pages|
    ensures var v := Slots(pages, first, last);
      && |v| == last - first
      && (forall k :: 0 <= k < |v| ==> v[k] == SlotAddress(pages, first + k))
      && (forall i, j :: 0 <= i < j < |v| ==> v[i] != v[j])
  {
    SlotsInOrder(pages, first, last);
    forall i, j | 0 <= i < j < last - first
      ensures Slots(pages, first, last)[i] != Slots(pages, first, last)[j]
    {
      SlotsDiffer(link, pages, first + i, first + j);
    }
  }

  /** One full page with another page linked behind it: the walk goes on there. */
  lemma RunsPastTheEnd() returns (arena: Arena, link: Memory, pages: seq<nat>)
    ensures WellFormed(arena, link, pages, 0, 512)
    ensures Visits(Some(arena), link) != Slots(pages, 0, 512)
  {
    pages, link, arena := [0x1_0000], a => 0x10_0000, Arena(0x1_0000, 0x1_0000, 0x1_2000);
    VisitsAreExact(arena, link, pages, 0, 512);
  }
}
