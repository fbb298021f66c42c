/** The mapping loops of initialise_paging in src/memory/paging.c. */
module Boot {
  import opened Frames
  import opened Paging

  const KHEAP_START := 0xC0000000
  const KHEAP_INITIAL_SIZE := 0x100000
  const HEAP_PAGES := 256
  const HEAP_SLOT := 768
  const HEAP_FIRST := 0xC0000

  /** A page mapped by alloc_frame(page, 0, 0). */
  function Mapped(frame: int): Page {
    Page(true, false, true, false, false, frame)
  }

  /** Exactly the first `n` frames are taken. */
  ghost predicate TakenBelow(used: set<int>, n: int) {
    forall f :: f in used <==> 0 <= f < n
  }

  /** How many tables the first `n` pages take. */
  function LowTables(n: int): int {
    (n + ENTRIES - 1) / ENTRIES
  }

  /** Updating the entry that page number `n` lives in changes that page and no other. */
  lemma FlatUpdate(slots: seq<int>, ts: Tables, n: int, page: Page)
    requires WellFormed(slots, ts) && 0 <= n < PAGES && slots[n / ENTRIES] != 0
    ensures var t := slots[n / ENTRIES]; var ts' := ts[t := ts[t][n % ENTRIES := page]];
            && WellFormed(slots, ts')
            && forall k :: 0 <= k < PAGES ==>
                 FlatPage(slots, ts', k) == if k == n then Some(page) else FlatPage(slots, ts, k)
  {
  }

  /** Which tables exist once the first `n` pages are mapped. */
  ghost predicate Slots(slots: seq<int>, n: int) {
    |slots| == ENTRIES && forall k :: 0 <= k < ENTRIES ==> (slots[k] != 0 <==> k < LowTables(n) || k == HEAP_SLOT)
  }

  /** Low pages below `n` are mapped to themselves, `h` heap pages to the frames from `base` on, no other page yet. */
  ghost predicate PagesSet(slots: seq<int>, ts: Tables, n: int, base: int, h: int)
    requires WellFormed(slots, ts)
  {
    forall k :: 0 <= k < PAGES && slots[k / ENTRIES] != 0 ==>
      FlatPage(slots, ts, k) == Some(Expected(k, n, base, h))
  }

  function Expected(k: int, n: int, base: int, h: int): Page {
    if k < n then Mapped(k) else if HEAP_FIRST <= k < HEAP_FIRST + h then Mapped(base + k - HEAP_FIRST) else ZERO_PAGE
  }

  /** Lines 105-108: the table for the heap, made before the identity mapping. */
  method MakeHeapTable(m: Memory, dir: Directory)
    requires m.Valid() && !m.heapUp && m.tables == map[] && m.frames.Used() == {}
    requires dir.tables == seq(ENTRIES, _ => 0) && |dir.physical| == ENTRIES
    modifies m`placement, m`supply, m`tables, dir
    ensures m.Valid() && WellFormed(dir.tables, m.tables) && |dir.physical| == ENTRIES
    ensures m.placement == AlignUp(old(m.placement)) + PAGE_SIZE
    ensures Slots(dir.tables, 0) && PagesSet(dir.tables, m.tables, 0, 0, 0)
  {
    var i := KHEAP_START;
    while i < KHEAP_START + KHEAP_INITIAL_SIZE
      invariant KHEAP_START <= i <= KHEAP_START + KHEAP_INITIAL_SIZE && i % PAGE_SIZE == 0
      invariant m.Valid() && WellFormed(dir.tables, m.tables) && |dir.physical| == ENTRIES && m.frames.Used() == {}
      invariant i == KHEAP_START ==> dir.tables == seq(ENTRIES, _ => 0) && m.placement == old(m.placement)
      invariant i > KHEAP_START ==>
                  && m.placement == AlignUp(old(m.placement)) + PAGE_SIZE
                  && Slots(dir.tables, 0) && PagesSet(dir.tables, m.tables, 0, 0, 0)
    {
      assert i / PAGE_SIZE / ENTRIES == HEAP_SLOT;
      var t, e := m.GetPage(i, true, dir);
      i := i + PAGE_SIZE;
    }
  }

  /** The page is zero, or will be when its table is made. */
  predicate Frameless(page: Option<Page>) {
    page == None || page == Some(ZERO_PAGE)
  }

  /** What mapping page number `at` to frame `next` does to all pages. */
  ghost predicate PageMapped(slots: seq<int>, ts: Tables, slots': seq<int>, ts': Tables, at: int, next: int)
    requires WellFormed(slots, ts) && WellFormed(slots', ts')
  {
    && (forall k :: 0 <= k < ENTRIES ==> (slots'[k] != 0 <==> slots[k] != 0 || k == at / ENTRIES))
    && forall k :: 0 <= k < PAGES ==>
         FlatPage(slots', ts', k)
         == (if k == at then Some(Mapped(next))
             else if FlatPage(slots, ts, k).None? && k / ENTRIES == at / ENTRIES then Some(ZERO_PAGE)
             else FlatPage(slots, ts, k))
  }

  lemma LowPageMapped(slots: seq<int>, ts: Tables, slots': seq<int>, ts': Tables, n: int)
    requires WellFormed(slots, ts) && WellFormed(slots', ts') && 0 <= n < FRAME_COUNT
    requires Slots(slots, n) && PagesSet(slots, ts, n, 0, 0) && PageMapped(slots, ts, slots', ts', n, n)
    ensures Slots(slots', n + 1) && PagesSet(slots', ts', n + 1, 0, 0)
  {
  }

  lemma HeapPageMapped(slots: seq<int>, ts: Tables, slots': seq<int>, ts': Tables, n: int, h: int)
    requires WellFormed(slots, ts) && WellFormed(slots', ts') && 0 <= n <= FRAME_COUNT && 0 <= h < HEAP_PAGES
    requires Slots(slots, n) && PagesSet(slots, ts, n, n, h)
    requires PageMapped(slots, ts, slots', ts', HEAP_FIRST + h, n + h)
    ensures Slots(slots', n) && PagesSet(slots', ts', n, n, h + 1)
  {
  }

  /** alloc_frame(get_page(address, 1, dir), 0, 0) for a page without a frame, when the first `next` frames are taken. */
  method MapPage(m: Memory, dir: Directory, address: int, ghost next: int)
    requires m.Valid() && !m.heapUp && WellFormed(dir.tables, m.tables) && |dir.physical| == ENTRIES
    requires 0 <= address < PAGES * PAGE_SIZE && TakenBelow(m.frames.Used(), next) && 0 <= next < FRAME_COUNT
    requires Frameless(FlatPage(dir.tables, m.tables, address / PAGE_SIZE))
    modifies m`placement, m`supply, m`tables, m.frames.words, dir
    ensures m.Valid() && WellFormed(dir.tables, m.tables) && |dir.physical| == ENTRIES
    ensures TakenBelow(m.frames.Used(), next + 1)
    ensures PageMapped(old(dir.tables), old(m.tables), dir.tables, m.tables, address / PAGE_SIZE, next)
    ensures m.placement == if old(dir.tables)[address / PAGE_SIZE / ENTRIES] == 0
                           then AlignUp(old(m.placement)) + PAGE_SIZE else old(m.placement)
  {
    hide Sound;
    var t, i := m.GetPage(address, true, dir);
    assert next !in m.frames.Used();
    assert FlatPage(dir.tables, m.tables, address / PAGE_SIZE) == Some(ZERO_PAGE);
    ghost var before := m.tables;
    m.AllocFrame(t, i, false, false);
    assert m.tables[t][i] == Mapped(next);
    FlatUpdate(dir.tables, before, address / PAGE_SIZE, Mapped(next));
  }

  /** Lines 112-117.  get_page moves the bound `placement + 0x1000` while the loop runs. */
  method IdentityMap(m: Memory, dir: Directory)
    requires m.Valid() && !m.heapUp && WellFormed(dir.tables, m.tables) && |dir.physical| == ENTRIES
    requires Slots(dir.tables, 0) && PagesSet(dir.tables, m.tables, 0, 0, 0) && TakenBelow(m.frames.Used(), 0)
    requires m.placement % PAGE_SIZE == 0 && 0 < m.placement && m.placement + 5 * PAGE_SIZE <= FRAME_COUNT * PAGE_SIZE
    modifies m`placement, m`supply, m`tables, m.frames.words, dir
    ensures m.Valid() && WellFormed(dir.tables, m.tables) && |dir.physical| == ENTRIES
    ensures m.placement % PAGE_SIZE == 0 && old(m.placement) <= m.placement <= old(m.placement) + 4 * PAGE_SIZE
    ensures var n := m.placement / PAGE_SIZE + 1;
            && Slots(dir.tables, n) && PagesSet(dir.tables, m.tables, n, 0, 0) && TakenBelow(m.frames.Used(), n)
            && m.placement == old(m.placement) + LowTables(n) * PAGE_SIZE
  {
    hide Sound;
    ghost var p := m.placement / PAGE_SIZE;
    var i := 0;
    ghost var n := 0;
    while i < m.placement + PAGE_SIZE
      invariant i == n * PAGE_SIZE && 0 <= n <= p + LowTables(n) + 1 && n <= FRAME_COUNT
      invariant m.Valid() && WellFormed(dir.tables, m.tables) && |dir.physical| == ENTRIES
      invariant m.placement == (p + LowTables(n)) * PAGE_SIZE
      invariant Slots(dir.tables, n) && PagesSet(dir.tables, m.tables, n, 0, 0) && TakenBelow(m.frames.Used(), n)
      decreases p + 5 - n
    {
      assert n < FRAME_COUNT;
      assert i / PAGE_SIZE == n;
      IdentityStep(n);
      ghost var slots, ts := dir.tables, m.tables;
      assert Frameless(FlatPage(slots, ts, n));
      MapPage(m, dir, i, n);
      LowPageMapped(slots, ts, dir.tables, m.tables, n);
      i := i + PAGE_SIZE;
      n := n + 1;
    }
  }

  lemma IdentityStep(n: int)
    requires 0 <= n < FRAME_COUNT
    ensures LowTables(n + 1) == if n % ENTRIES == 0 then LowTables(n) + 1 else LowTables(n)
    ensures n / ENTRIES < LowTables(n) <==> n % ENTRIES != 0
    ensures n / ENTRIES <= LowTables(n) <= LowTables(n + 1) <= 4 && LowTables(n + 1) == n / ENTRIES + 1
  {
  }

  /** Lines 120-122: the heap pages take the next 256 frames. */
  method MapHeap(m: Memory, dir: Directory, ghost n: int)
    requires m.Valid() && !m.heapUp && WellFormed(dir.tables, m.tables) && |dir.physical| == ENTRIES
    requires 0 < n && n + HEAP_PAGES <= FRAME_COUNT && TakenBelow(m.frames.Used(), n)
    requires Slots(dir.tables, n) && PagesSet(dir.tables, m.tables, n, n, 0)
    modifies m`placement, m`supply, m`tables, m.frames.words, dir
    ensures m.Valid() && WellFormed(dir.tables, m.tables) && |dir.physical| == ENTRIES
    ensures m.placement == old(m.placement) && Slots(dir.tables, n)
    ensures PagesSet(dir.tables, m.tables, n, n, HEAP_PAGES) && TakenBelow(m.frames.Used(), n + HEAP_PAGES)
  {
    hide Sound;
    var i := KHEAP_START;
    ghost var h := 0;
    while i < KHEAP_START + KHEAP_INITIAL_SIZE
      invariant i == KHEAP_START + h * PAGE_SIZE && 0 <= h <= HEAP_PAGES
      invariant m.Valid() && WellFormed(dir.tables, m.tables) && |dir.physical| == ENTRIES
      invariant m.placement == old(m.placement) && Slots(dir.tables, n)
      invariant PagesSet(dir.tables, m.tables, n, n, h) && TakenBelow(m.frames.Used(), n + h)
    {
      assert i / PAGE_SIZE == HEAP_FIRST + h && (HEAP_FIRST + h) / ENTRIES == HEAP_SLOT;
      ghost var slots, ts := dir.tables, m.tables;
      assert Frameless(FlatPage(slots, ts, HEAP_FIRST + h));
      MapPage(m, dir, i, n + h);
      HeapPageMapped(slots, ts, dir.tables, m.tables, n, h);
      i := i + PAGE_SIZE;
      h := h + 1;
    }
  }

  /**
   * Lines 96-122 of initialise_paging, from any placement address that leaves room in the 16MB for what
   * is placed, the page behind it, and the heap.  Every page up to there maps to itself; the heap pages
   * map to the frames behind those, and the page behind the heap to none.  Line 128 makes the kernel directory the
   * current one.
   */
  method InitialisePaging(m: Memory, dir: Directory) returns (current: Directory)
    requires m.Valid() && !m.heapUp && m.tables == map[] && m.frames.Used() == {}
    requires dir.tables == seq(ENTRIES, _ => 0) && |dir.physical| == ENTRIES
    requires AlignUp(m.placement) + (1 + 4 + 1 + HEAP_PAGES) * PAGE_SIZE <= FRAME_COUNT * PAGE_SIZE
    modifies m`placement, m`supply, m`tables, m.frames.words, dir
    ensures m.Valid() && WellFormed(dir.tables, m.tables)
    ensures m.placement
         == AlignUp(old(m.placement)) + (1 + LowTables(m.placement / PAGE_SIZE + 1)) * PAGE_SIZE >= old(m.placement)
    // present, not writable, user, not accessed, not dirty
    ensures forall k :: 0 <= k < PAGES && k * 0x1000 < m.placement + 0x1000 ==>
              FlatPage(dir.tables, m.tables, k) == Some(Page(true, false, true, false, false, k))
    ensures forall k :: 0xC0000 <= k < 0xC0100 ==>
              FlatPage(dir.tables, m.tables, k)
              == Some(Page(true, false, true, false, false, m.placement / 0x1000 + 1 + k - 0xC0000))
    ensures FlatPage(dir.tables, m.tables, HEAP_FIRST + HEAP_PAGES) == Some(ZERO_PAGE)
    ensures TakenBelow(m.frames.Used(), m.placement / PAGE_SIZE + 1 + HEAP_PAGES)
    ensures current == dir && |dir.physical| == ENTRIES
  {
    hide Sound, WellFormed, PagesSet, Slots, TakenBelow, FlatPage;
    MakeHeapTable(m, dir);
    NoneTaken(m.frames.Used());
    IdentityMap(m, dir);
    ghost var n := m.placement / PAGE_SIZE + 1;
    BeforeHeap(dir.tables, m.tables, n);
    MapHeap(m, dir, n);
    Finished(dir.tables, m.tables, n);
    forall k | 0 <= k < PAGES && k * PAGE_SIZE < m.placement + PAGE_SIZE ensures k < n {
    }
    current := dir;
  }

  /**
   * The room asked for at the start is exactly the room the final placement address needs: `p` pages
   * placed before the identity mapping, `n` pages mapped by it.
   */
  lemma RoomIsExact(p: int, n: int)
    requires 0 <= p && 0 <= n && n == p + LowTables(n) + 1
    ensures n + HEAP_PAGES <= FRAME_COUNT <==> p + 4 + 1 + HEAP_PAGES <= FRAME_COUNT
  {
  }

  lemma NoneTaken(used: set<int>)
    requires used == {}
    ensures TakenBelow(used, 0)
  {
  }

  lemma BeforeHeap(slots: seq<int>, ts: Tables, n: int)
    requires WellFormed(slots, ts) && PagesSet(slots, ts, n, 0, 0)
    ensures PagesSet(slots, ts, n, n, 0)
  {
  }

  lemma Finished(slots: seq<int>, ts: Tables, n: int)
    requires WellFormed(slots, ts) && Slots(slots, n) && PagesSet(slots, ts, n, n, HEAP_PAGES) && 0 < n <= FRAME_COUNT
    ensures forall k :: 0 <= k < n ==> FlatPage(slots, ts, k) == Some(Mapped(k))
    ensures forall k :: HEAP_FIRST <= k < HEAP_FIRST + HEAP_PAGES ==>
              FlatPage(slots, ts, k) == Some(Mapped(n + k - HEAP_FIRST))
    ensures FlatPage(slots, ts, HEAP_FIRST + HEAP_PAGES) == Some(ZERO_PAGE)
  {
  }
}
