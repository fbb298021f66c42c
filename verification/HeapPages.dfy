/** What src/memory/kheap.c gets from src/memory/paging.c: frames for the pages of the heap. */
module HeapPages {
  import opened Ram

  /**
   * Pages that have a table, pages whose present bit is set, pages that hold a frame other than 0, whether frame 0
   * is free, and how many other frames are.  Pages are given by their addresses.  A page that is present and holds no
   * frame shows frame 0: that is what free_frame leaves, and what alloc_frame makes when frame 0 is the least free one.
   */
  datatype Pages = Pages(tabled: set<int>, present: set<int>, framed: set<int>, zeroFree: bool, free: nat) {
    function Frames(): nat {
      free + if zeroFree then 1 else 0
    }
  }

  function PageOf(a: int): int {
    a / PAGE_SIZE * PAGE_SIZE
  }

  /** alloc_frame(get_page(p, 1, ..)) has a defined result: no table to make, and a free frame if one is needed. */
  predicate CanFrame(ps: Pages, p: int) {
    p in ps.tabled && (p in ps.framed || ps.Frames() > 0)
  }

  function Framed(ps: Pages, p: int): Pages {
    if p in ps.framed then ps
    else if ps.zeroFree then ps.(present := ps.present + {p}, zeroFree := false)
    else if ps.free > 0 then ps.(present := ps.present + {p}, framed := ps.framed + {p}, free := ps.free - 1)
    else ps
  }

  /** free_frame clears bit 0, whatever the frame was, and leaves the page present. */
  function GivenBack(ps: Pages, p: int): Pages {
    if p in ps.framed then ps.(framed := ps.framed - {p}, zeroFree := true) else ps
  }

  /** The page the loop of expand() comes to after `j` others, from address `a` on. */
  function NthPage(a: int, j: int): int {
    PageOf((a + j * PAGE_SIZE) % WORD)
  }

  /** How many pages that loop visits. */
  function PageCount(lo: int, hi: int): nat {
    if hi <= lo then 0 else (hi - lo + PAGE_SIZE - 1) / PAGE_SIZE
  }

  function FramedRange(ps: Pages, a: int, n: nat): Pages {
    if n == 0 then ps else Framed(FramedRange(ps, a, n - 1), NthPage(a, n - 1))
  }

  predicate CanFrameRange(ps: Pages, a: int, n: nat) {
    n == 0 || (CanFrameRange(ps, a, n - 1) && CanFrame(FramedRange(ps, a, n - 1), NthPage(a, n - 1)))
  }

  /** How many of `n` pages need a frame. */
  function Missing(ps: Pages, a: int, n: nat): nat {
    if n == 0 then 0 else Missing(ps, a, n - 1) + if NthPage(a, n - 1) in ps.framed then 0 else 1
  }

  /** The loop is defined exactly when the pages have tables and there are as many free frames as pages without one. */
  lemma {:induction false} EnoughFrames(ps: Pages, a: int, n: nat)
    requires 0 <= a < WORD && n * PAGE_SIZE <= WORD
    ensures CanFrameRange(ps, a, n) <==> (forall j :: 0 <= j < n ==> NthPage(a, j) in ps.tabled) && Missing(ps, a, n) <= ps.Frames()
    ensures CanFrameRange(ps, a, n) ==>
              && FramedRange(ps, a, n).Frames() == ps.Frames() - Missing(ps, a, n)
              && FramedRange(ps, a, n).tabled == ps.tabled
              && forall p :: p in FramedRange(ps, a, n).framed ==> p in ps.framed || exists j :: 0 <= j < n && p == NthPage(a, j)
    ensures forall p :: p in ps.framed ==> p in FramedRange(ps, a, n).framed
  {
    hide NthPage;
    if n > 0 {
      EnoughFrames(ps, a, n - 1);
      forall j | 0 <= j < n - 1 ensures NthPage(a, j) != NthPage(a, n - 1) {
        PagesDiffer(a, j, n - 1);
      }
    }
  }

  lemma PagesDiffer(a: int, i: nat, j: nat)
    requires 0 <= a < WORD && i < j && j * PAGE_SIZE < WORD
    ensures NthPage(a, i) != NthPage(a, j)
  {
  }

  /** Framed pages stay in place, and the pages visited are present. */
  lemma {:induction false} RangePresent(ps: Pages, a: int, n: nat)
    requires CanFrameRange(ps, a, n) && ps.framed <= ps.present
    ensures var r := FramedRange(ps, a, n);
            && ps.present <= r.present && ps.framed <= r.framed <= r.present && r.tabled == ps.tabled
            && forall j :: 0 <= j < n ==> NthPage(a, j) in r.present
  {
    hide NthPage;
    if n > 0 {
      RangePresent(ps, a, n - 1);
    }
  }

  /** After contract(): the pages above the new end are given back. */
  ghost function ContractedPages(ps: Pages, newEnd: int, oldEnd: int): Pages {
    var back := set p | p in ps.framed && Above(newEnd, oldEnd, p);
    ps.(framed := ps.framed - back, zeroFree := ps.zeroFree || back != {})
  }

  predicate Above(newEnd: int, oldEnd: int, p: int) {
    newEnd < p < oldEnd && p % PAGE_SIZE == 0
  }

  /** One page more. */
  lemma ContractedMore(ps: Pages, a: int, oldEnd: int)
    requires a % PAGE_SIZE == 0 && a < oldEnd
    ensures GivenBack(ContractedPages(ps, a, oldEnd), a) == ContractedPages(ps, a - PAGE_SIZE, oldEnd)
  {
    forall p ensures Above(a - PAGE_SIZE, oldEnd, p) <==> Above(a, oldEnd, p) || p == a {
      if a - PAGE_SIZE < p && p % PAGE_SIZE == 0 {
        NextPage(a - PAGE_SIZE, p);
      }
    }
  }

  lemma ContractedDone(ps: Pages, a: int, newEnd: int, oldEnd: int)
    requires a % PAGE_SIZE == 0 && a <= newEnd && (newEnd < a + PAGE_SIZE || newEnd == oldEnd == a + PAGE_SIZE)
    ensures ContractedPages(ps, a, oldEnd) == ContractedPages(ps, newEnd, oldEnd)
  {
    forall p ensures Above(a, oldEnd, p) <==> Above(newEnd, oldEnd, p) {
      if a < p && p % PAGE_SIZE == 0 {
        NextPage(a, p);
      }
    }
  }

  lemma NextPage(a: int, p: int)
    requires a % PAGE_SIZE == 0 && p % PAGE_SIZE == 0 && a < p
    ensures a + PAGE_SIZE <= p
  {
    assert a / PAGE_SIZE < p / PAGE_SIZE;
  }

  lemma ContractedStart(ps: Pages, oldEnd: int)
    ensures oldEnd % PAGE_SIZE == 0 ==> ContractedPages(ps, oldEnd - PAGE_SIZE, oldEnd) == ps
  {
  }

  /** Every page from `lo` on, as far as `hi`, is present. */
  ghost predicate AllPresent(ps: Pages, lo: int, hi: int) {
    forall p :: lo <= p < hi && p % PAGE_SIZE == 0 ==> p in ps.present
  }

  /** After an expansion that does not wrap every page of the new range is present. */
  lemma ExpandedPresent(ps: Pages, start: int, oldEnd: int, newEnd: int)
    requires 0 <= start <= oldEnd && newEnd < WORD && newEnd % PAGE_SIZE == 0
    requires ps.framed <= ps.present && AllPresent(ps, start, oldEnd) && CanFrameRange(ps, oldEnd, PageCount(oldEnd, newEnd))
    ensures var r := FramedRange(ps, oldEnd, PageCount(oldEnd, newEnd));
            r.framed <= r.present && AllPresent(r, start, newEnd)
  {
    hide CanFrameRange, FramedRange, NthPage;
    var n := PageCount(oldEnd, newEnd);
    RangePresent(ps, oldEnd, n);
    var r := FramedRange(ps, oldEnd, n);
    forall p | start <= p < newEnd && p % PAGE_SIZE == 0 ensures p in r.present {
      if p >= oldEnd {
        var j := Visit(p, oldEnd, newEnd);
      }
    }
  }

  /** Which step of the loop comes to page `p`. */
  lemma Visit(p: int, oldEnd: int, newEnd: int) returns (j: nat)
    requires 0 <= oldEnd <= p < newEnd < WORD && p % PAGE_SIZE == 0 && newEnd % PAGE_SIZE == 0
    ensures j < PageCount(oldEnd, newEnd) && NthPage(oldEnd, j) == p
  {
    j := (p - PageOf(oldEnd)) / PAGE_SIZE;
  }

  lemma PresentFewer(ps: Pages, start: int, newEnd: int, oldEnd: int)
    requires AllPresent(ps, start, oldEnd) && newEnd <= oldEnd && ps.framed <= ps.present
    ensures var r := ContractedPages(ps, newEnd, oldEnd); AllPresent(r, start, newEnd) && r.framed <= r.present
  {
  }

  // The loop of expand(), one page at a time.

  lemma RangeStarts(ps: Pages, a: int)
    ensures FramedRange(ps, a, 0) == ps
  {
  }

  lemma {:induction false} RangeNext(ps: Pages, a: int, n: nat, total: nat)
    requires n < total && CanFrameRange(ps, a, total)
    ensures CanFrame(FramedRange(ps, a, n), NthPage(a, n))
    ensures FramedRange(ps, a, n + 1) == Framed(FramedRange(ps, a, n), NthPage(a, n))
    decreases total
  {
    hide NthPage;
    if n < total - 1 {
      RangeNext(ps, a, n, total - 1);
    }
  }

  lemma CountIs(lo: int, hi: int, n: nat)
    ensures lo + n * PAGE_SIZE < hi <==> n < PageCount(lo, hi)
  {
  }

  lemma NthPageIs(a: int, n: nat)
    ensures NthPage(a, n) == PageOf((a + n * PAGE_SIZE) % WORD)
  {
  }

  lemma ContractedIs(ps: Pages, newEnd: int, oldEnd: int)
    ensures var r := ContractedPages(ps, newEnd, oldEnd);
            && r.present == ps.present
            && forall p :: p in r.framed <==> p in ps.framed && !(newEnd < p < oldEnd && p % 0x1000 == 0)
  {
  }

  /** An expansion makes no other pages present than those from the old end to the new one. */
  lemma ExpandedOnly(ps: Pages, oldEnd: int, newEnd: int)
    requires 0 <= oldEnd && newEnd < WORD && newEnd % PAGE_SIZE == 0
    requires ps.framed <= ps.present && CanFrameRange(ps, oldEnd, PageCount(oldEnd, newEnd))
    ensures forall p :: p in FramedRange(ps, oldEnd, PageCount(oldEnd, newEnd)).present <==>
              p in ps.present || (p % 0x1000 == 0 && oldEnd / 0x1000 * 0x1000 <= p < newEnd)
  {
    hide CanFrameRange, FramedRange, NthPage, PageCount;
    var n := PageCount(oldEnd, newEnd);
    RangePresent(ps, oldEnd, n);
    PresentOnly(ps, oldEnd, n);
    var r := FramedRange(ps, oldEnd, n);
    forall p ensures p in r.present <==> p in ps.present || (p % 0x1000 == 0 && oldEnd / 0x1000 * 0x1000 <= p < newEnd) {
      if p % 0x1000 == 0 && oldEnd / 0x1000 * 0x1000 <= p < newEnd {
        var j := VisitFrom(p, oldEnd, newEnd);
      }
      if p in r.present && p !in ps.present {
        var j :| 0 <= j < n && p == NthPage(oldEnd, j);
        NthWithin(oldEnd, newEnd, j);
      }
    }
  }

  lemma {:induction false} PresentOnly(ps: Pages, a: int, n: nat)
    ensures forall p :: p in FramedRange(ps, a, n).present ==> p in ps.present || exists j :: 0 <= j < n && p == NthPage(a, j)
  {
    hide NthPage;
    if n > 0 {
      PresentOnly(ps, a, n - 1);
    }
  }

  lemma VisitFrom(p: int, oldEnd: int, newEnd: int) returns (j: nat)
    requires 0 <= oldEnd && oldEnd / 0x1000 * 0x1000 <= p < newEnd < WORD && p % 0x1000 == 0 && newEnd % PAGE_SIZE == 0
    requires oldEnd < newEnd
    ensures j < PageCount(oldEnd, newEnd) && NthPage(oldEnd, j) == p
  {
    j := (p - PageOf(oldEnd)) / PAGE_SIZE;
  }

  lemma NthWithin(oldEnd: int, newEnd: int, j: nat)
    requires 0 <= oldEnd && newEnd < WORD && newEnd % PAGE_SIZE == 0 && j < PageCount(oldEnd, newEnd)
    ensures NthPage(oldEnd, j) % 0x1000 == 0 && oldEnd / 0x1000 * 0x1000 <= NthPage(oldEnd, j) < newEnd
  {
  }
}
