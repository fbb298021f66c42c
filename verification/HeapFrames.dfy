/** HeapPages says of the page tables and the frame bitset what alloc_frame and free_frame do to them. */
module HeapFrames {
  import opened Frames
  import opened Paging
  import opened Boot
  import opened HeapPages

  function Unused(used: set<int>): set<int> {
    set f | 0 < f < FRAME_COUNT && f !in used
  }

  /** The same pages and frames. */
  ghost predicate Mirrors(ps: Pages, slots: seq<int>, ts: Tables, used: set<int>)
    requires WellFormed(slots, ts)
  {
    && (ps.zeroFree <==> 0 !in used) && ps.free == |Unused(used)|
    && (forall n :: 0 <= n < PAGES ==> MirrorsPage(ps, n * Frames.PAGE_SIZE, FlatPage(slots, ts, n)))
  }

  ghost predicate MirrorsPage(ps: Pages, p: int, page: Option<Page>) {
    match page
    case None => p !in ps.tabled && p !in ps.present && p !in ps.framed
    case Some(q) => p in ps.tabled && (p in ps.present <==> q.present) && (p in ps.framed <==> q.frame != 0)
  }

  lemma OneUsed(used: set<int>, f: int)
    requires 0 <= f < FRAME_COUNT && f !in used
    ensures |Unused(used + {f})| == |Unused(used)| - (if f == 0 then 0 else 1)
  {
    assert Unused(used + {f}) == Unused(used) - {f};
  }

  lemma SomeUnused(ps: Pages, used: set<int>)
    requires ps.Frames() > 0 && (ps.zeroFree <==> 0 !in used) && ps.free == |Unused(used)|
    ensures exists f :: 0 <= f < FRAME_COUNT && f !in used
  {
    if !ps.zeroFree {
      var f :| f in Unused(used);
    }
  }

  /** A changed entry is mirrored by a change at its page alone. */
  lemma EntryChanged(ps: Pages, ps': Pages, slots: seq<int>, ts: Tables, n: int, page: Page, used: set<int>, used': set<int>)
    requires WellFormed(slots, ts) && 0 <= n < PAGES && slots[n / ENTRIES] != 0 && Mirrors(ps, slots, ts, used)
    requires (ps'.zeroFree <==> 0 !in used') && ps'.free == |Unused(used')| && ps'.tabled == ps.tabled
    requires MirrorsPage(ps', n * Frames.PAGE_SIZE, Some(page))
    requires forall p :: p != n * Frames.PAGE_SIZE ==>
               (p in ps'.present <==> p in ps.present) && (p in ps'.framed <==> p in ps.framed)
    ensures var t := slots[n / ENTRIES]; var ts' := ts[t := ts[t][n % ENTRIES := page]];
            WellFormed(slots, ts') && Mirrors(ps', slots, ts', used')
  {
    var t := slots[n / ENTRIES];
    var ts' := ts[t := ts[t][n % ENTRIES := page]];
    hide WellFormed, FlatPage;
    FlatUpdate(slots, ts, n, page);
    forall k | 0 <= k < PAGES ensures MirrorsPage(ps', k * Frames.PAGE_SIZE, FlatPage(slots, ts', k)) {
      assert MirrorsPage(ps, k * Frames.PAGE_SIZE, FlatPage(slots, ts, k));
      assert k != n ==> k * Frames.PAGE_SIZE != n * Frames.PAGE_SIZE;
    }
  }

  /** alloc_frame(get_page(address, 1, dir), ..) on a page that has a table. */
  method FramePage(m: Memory, dir: Directory, address: int, isWriteable: bool, ghost ps: Pages)
    requires m.Valid() && WellFormed(dir.tables, m.tables) && |dir.physical| == ENTRIES && (m.heapUp ==> m.supply != [])
    requires 0 <= address < PAGES * Frames.PAGE_SIZE
    requires Mirrors(ps, dir.tables, m.tables, m.frames.Used()) && CanFrame(ps, PageOf(address))
    modifies m`placement, m`supply, m`tables, m.frames.words, dir
    ensures m.Valid() && WellFormed(dir.tables, m.tables) && dir.tables == old(dir.tables)
    ensures Mirrors(Framed(ps, PageOf(address)), dir.tables, m.tables, m.frames.Used())
  {
    hide Sound, WellFormed, FlatPage, Mirrors, Memory.FreshAddresses, FrameSet.Used;
    ghost var n := address / Frames.PAGE_SIZE;
    ghost var slots, ts, used := dir.tables, m.tables, m.frames.Used();
    MirrorsAt(ps, slots, ts, used, n);
    var t, i := m.GetPage(address, true, dir);
    if m.tables[t][i].frame == 0 {
      SomeUnused(ps, used);
    }
    m.AllocFrame(t, i, false, isWriteable);
    if ts[t][i].frame == 0 {
      ghost var page := m.tables[t][i];
      OneUsed(used, page.frame);
      LeastIsZero(used, page.frame);
      EntryChanged(ps, Framed(ps, n * Frames.PAGE_SIZE), slots, ts, n, page, used, m.frames.Used());
    }
  }

  lemma LeastIsZero(used: set<int>, f: int)
    requires 0 <= f && f !in used && forall g :: 0 <= g < f ==> g in used
    ensures f == 0 <==> 0 !in used
  {
  }

  lemma MirrorsAt(ps: Pages, slots: seq<int>, ts: Tables, used: set<int>, n: int)
    requires WellFormed(slots, ts) && Mirrors(ps, slots, ts, used) && 0 <= n < PAGES
    ensures (ps.zeroFree <==> 0 !in used) && ps.free == |Unused(used)|
    ensures |slots| == ENTRIES && (n * Frames.PAGE_SIZE in ps.tabled <==> slots[n / ENTRIES] != 0)
    ensures var t, i := slots[n / ENTRIES], n % ENTRIES;
            t != 0 ==> t in ts && MirrorsPage(ps, n * Frames.PAGE_SIZE, Some(ts[t][i]))
  {
    assert MirrorsPage(ps, n * Frames.PAGE_SIZE, FlatPage(slots, ts, n));
  }

  /** free_frame(get_page(address, 0, dir)). */
  method FreePage(m: Memory, dir: Directory, address: int, ghost ps: Pages)
    requires m.Valid() && WellFormed(dir.tables, m.tables) && |dir.physical| == ENTRIES && (m.heapUp ==> m.supply != [])
    requires 0 <= address < PAGES * Frames.PAGE_SIZE && PageOf(address) in ps.tabled
    requires Mirrors(ps, dir.tables, m.tables, m.frames.Used())
    modifies m`placement, m`supply, m`tables, m.frames.words, dir
    ensures m.Valid() && WellFormed(dir.tables, m.tables) && dir.tables == old(dir.tables)
    ensures Mirrors(GivenBack(ps, PageOf(address)), dir.tables, m.tables, m.frames.Used())
  {
    hide Sound, WellFormed, FlatPage, Mirrors, Memory.FreshAddresses, FrameSet.Used;
    ghost var n := address / Frames.PAGE_SIZE;
    ghost var slots, ts, used := dir.tables, m.tables, m.frames.Used();
    MirrorsAt(ps, slots, ts, used, n);
    var t, i := m.GetPage(address, false, dir);
    FrameBelow(ts, used, t, i) by { assert Sound(ts, used); }
    UsedWithin(m);
    m.FreeFrame(t, i);
    ghost var page := m.tables[t][i];
    NoneBack(used);
    EntryChanged(ps, GivenBack(ps, n * Frames.PAGE_SIZE), slots, ts, n, page, used, m.frames.Used());
  }

  lemma UsedWithin(m: Memory)
    requires m.Valid()
    ensures forall f :: f in m.frames.Used() ==> 0 <= f < FRAME_COUNT
  {
  }

  lemma FrameBelow(ts: Tables, used: set<int>, t: int, i: nat)
    requires Sound(ts, used) && t in ts && i < ENTRIES
    ensures ts[t][i].frame != 0 ==> ts[t][i].frame in used
  {
  }

  /** Clearing bit 0 frees no other frame. */
  lemma NoneBack(used: set<int>)
    ensures Unused(used - {0}) == Unused(used)
  {
  }
}
