/** Whole sequences of get_page with make set. */
module PageRuns {
  import opened Frames
  import opened Paging

  /** Some address lies in the table of page number `n`. */
  ghost predicate Visited(addresses: seq<int>, n: int) {
    exists i :: 0 <= i < |addresses| && addresses[i] / PAGE_SIZE / ENTRIES == n / ENTRIES
  }

  /** A page exists if it did before or its table has been visited; those of a new table are zero. */
  ghost function PageAfter(before: Option<Page>, addresses: seq<int>, n: int): Option<Page> {
    if before.Some? then before else if Visited(addresses, n) then Some(ZERO_PAGE) else None
  }

  lemma VisitedMore(addresses: seq<int>, a: int, n: int)
    ensures Visited(addresses + [a], n) <==> Visited(addresses, n) || a / PAGE_SIZE / ENTRIES == n / ENTRIES
  {
    var more := addresses + [a];
    if Visited(addresses, n) {
      var i :| 0 <= i < |addresses| && addresses[i] / PAGE_SIZE / ENTRIES == n / ENTRIES;
      assert more[i] == addresses[i];
    }
    assert more[|addresses|] == a;
  }

  /** `entry` is the page_t of the address. */
  ghost predicate Reaches(slots: seq<int>, entry: (int, nat), address: int) {
    && |slots| == ENTRIES && 0 <= address < PAGES * PAGE_SIZE
    && slots[address / PAGE_SIZE / ENTRIES] != 0
    && entry == (slots[address / PAGE_SIZE / ENTRIES], address / PAGE_SIZE % ENTRIES)
  }

  /** Two calls give the same entry exactly when the page numbers agree. */
  lemma SameEntry(slots: seq<int>, ts: Tables, e: (int, nat), a: int, f: (int, nat), b: int)
    requires WellFormed(slots, ts) && Reaches(slots, e, a) && Reaches(slots, f, b)
    ensures e == f <==> a / PAGE_SIZE == b / PAGE_SIZE
  {
    SamePage(slots, ts, a, b);
  }

  /** A run of get_page over `addresses`; the results are table and index of each page_t. */
  method GetPages(m: Memory, dir: Directory, addresses: seq<int>) returns (entries: seq<(int, nat)>)
    requires m.Valid() && WellFormed(dir.tables, m.tables) && |dir.physical| == ENTRIES
    requires forall i :: 0 <= i < |addresses| ==> 0 <= addresses[i] < PAGES * PAGE_SIZE
    requires m.heapUp ==> |addresses| <= |m.supply|
    modifies m`placement, m`supply, m`tables, dir
    ensures m.Valid() && WellFormed(dir.tables, m.tables) && |dir.physical| == ENTRIES
    ensures |entries| == |addresses| && forall i :: 0 <= i < |addresses| ==> Reaches(dir.tables, entries[i], addresses[i])
    ensures forall i, j :: 0 <= i < |addresses| && 0 <= j < |addresses| ==>
              (entries[i] == entries[j] <==> addresses[i] / PAGE_SIZE == addresses[j] / PAGE_SIZE)
    ensures forall n :: 0 <= n < PAGES ==>
              FlatPage(dir.tables, m.tables, n) == PageAfter(old(FlatPage(dir.tables, m.tables, n)), addresses, n)
  {
    hide Sound, WellFormed, FlatPage, Visited, Memory.FreshAddresses;
    entries := [];
    assert addresses[..0] == [];
    NoneVisited();
    var k := 0;
    while k < |addresses|
      invariant 0 <= k <= |addresses| == |entries| + |addresses| - k
      invariant m.Valid() && WellFormed(dir.tables, m.tables) && |dir.physical| == ENTRIES
      invariant m.heapUp ==> |addresses| - k <= |m.supply|
      invariant forall i :: 0 <= i < k ==> Reaches(dir.tables, entries[i], addresses[i])
      invariant forall n :: 0 <= n < PAGES ==>
                  FlatPage(dir.tables, m.tables, n) == PageAfter(old(FlatPage(dir.tables, m.tables, n)), addresses[..k], n)
    {
      ghost var slots := dir.tables;
      SlotCount(dir.tables, m.tables);
      var t, i := m.GetPage(addresses[k], true, dir);
      entries := entries + [(t, i)];
      SlotCount(dir.tables, m.tables);
      assert addresses[..k + 1] == addresses[..k] + [addresses[k]];
      forall n | 0 <= n < PAGES
        ensures FlatPage(dir.tables, m.tables, n) == PageAfter(old(FlatPage(dir.tables, m.tables, n)), addresses[..k + 1], n)
      {
        VisitedMore(addresses[..k], addresses[k], n);
      }
      k := k + 1;
    }
    assert addresses[..k] == addresses;
    forall i, j | 0 <= i < |addresses| && 0 <= j < |addresses|
      ensures entries[i] == entries[j] <==> addresses[i] / PAGE_SIZE == addresses[j] / PAGE_SIZE
    {
      SameEntry(dir.tables, m.tables, entries[i], addresses[i], entries[j], addresses[j]);
    }
  }

  lemma NoneVisited()
    ensures forall n :: !Visited([], n)
  {
  }

  lemma SlotCount(slots: seq<int>, ts: Tables)
    requires WellFormed(slots, ts)
    ensures |slots| == ENTRIES
  {
  }
}
