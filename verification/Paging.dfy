/**
 * Page tables and directories of src/memory/paging.c.  A page table is found by its address, so two
 * directories share a table exactly when they hold the same address; address 0 is the null pointer.
 */
module Paging {
  import opened Frames

  const ENTRIES := 1024
  const PAGES := 0x100000

  datatype Page = Page(present: bool, rw: bool, user: bool, accessed: bool, dirty: bool, frame: int)

  const ZERO_PAGE := Page(false, false, false, false, false, 0)

  type Table = s: seq<Page> | |s| == ENTRIES witness seq(ENTRIES, _ => ZERO_PAGE)

  type Tables = map<int, Table>

  const ZERO_TABLE: Table := seq(ENTRIES, _ => ZERO_PAGE)

  /** Contents of one frame, as its 1024 words. */
  type Contents = s: seq<int> | |s| == ENTRIES witness seq(ENTRIES, _ => 0)

  // ---------------------------------------------------------------- who holds which frame

  /** Every frame a page holds has its bit set.  Frame number 0 in a page means that it holds none. */
  ghost predicate Owned(ts: Tables, used: set<int>) {
    forall t, i :: t in ts && 0 <= i < ENTRIES && ts[t][i].frame != 0 ==> ts[t][i].frame in used
  }

  /** No two pages hold the same frame. */
  ghost predicate Exclusive(ts: Tables) {
    forall t, i, u, j ::
      (t in ts && u in ts && 0 <= i < ENTRIES && 0 <= j < ENTRIES && ts[t][i].frame == ts[u][j].frame != 0) ==>
        t == u && i == j
  }

  ghost predicate Sound(ts: Tables, used: set<int>) {
    Owned(ts, used) && Exclusive(ts)
  }

  /** Giving a page a frame whose bit was clear. */
  lemma AllocKeepsSound(ts: Tables, used: set<int>, t: int, i: nat, page: Page)
    requires Sound(ts, used) && t in ts && i < ENTRIES && page.frame !in used
    ensures Sound(ts[t := ts[t][i := page]], used + {page.frame})
  {
  }

  /** Taking the frame away from a page.  Only bit 0 may be cleared for it. */
  lemma FreeKeepsSound(ts: Tables, used: set<int>, t: int, i: nat, page: Page)
    requires Sound(ts, used) && t in ts && i < ENTRIES && page.frame == 0
    ensures Sound(ts[t := ts[t][i := page]], used - {0})
  {
  }

  /** Changing only the flags of a page. */
  lemma FlagsKeepSound(ts: Tables, used: set<int>, t: int, i: nat, page: Page)
    requires Sound(ts, used) && t in ts && i < ENTRIES && page.frame == ts[t][i].frame
    ensures Sound(ts[t := ts[t][i := page]], used)
  {
  }

  /** A zeroed table at a new address. */
  lemma NewTableKeepsSound(ts: Tables, used: set<int>, t: int)
    requires Sound(ts, used) && t !in ts
    ensures Sound(ts[t := ZERO_TABLE], used)
  {
  }

  // ---------------------------------------------------------------- directories as flat maps

  /** tables[] and tables_physical[] of a page_directory_t. */
  class Directory {
    var tables: seq<int>
    var physical: seq<int>
    /** physical_address_of_tables_physical */
    var base: int

    /** A zeroed directory at physical address `phys`: tables_physical lies behind the 1024 pointers. */
    constructor (phys: int)
      ensures tables == seq(ENTRIES, _ => 0) && physical == seq(ENTRIES, _ => 0) && base == phys + 4 * ENTRIES
    {
      tables := seq(ENTRIES, _ => 0);
      physical := seq(ENTRIES, _ => 0);
      base := phys + 4 * ENTRIES;
    }
  }

  /** 1024 slots, each null or the address of a table, no table in two slots. */
  ghost predicate WellFormed(slots: seq<int>, ts: Tables) {
    && |slots| == ENTRIES && 0 !in ts
    && (forall k :: 0 <= k < ENTRIES && slots[k] != 0 ==> slots[k] in ts)
    && (forall k, l :: 0 <= k < l < ENTRIES && slots[k] != 0 ==> slots[k] != slots[l])
  }

  /** The page with number `n`, if its table exists. */
  ghost function FlatPage(slots: seq<int>, ts: Tables, n: int): Option<Page>
    requires WellFormed(slots, ts) && 0 <= n < PAGES
  {
    if slots[n / ENTRIES] == 0 then None else Some(ts[slots[n / ENTRIES]][n % ENTRIES])
  }

  /** Two addresses reach the same page_t exactly when they lie in the same page. */
  lemma SamePage(slots: seq<int>, ts: Tables, a: int, b: int)
    requires WellFormed(slots, ts) && 0 <= a < PAGES * PAGE_SIZE && 0 <= b < PAGES * PAGE_SIZE
    requires slots[a / PAGE_SIZE / ENTRIES] != 0
    ensures slots[a / PAGE_SIZE / ENTRIES] == slots[b / PAGE_SIZE / ENTRIES]
              && a / PAGE_SIZE % ENTRIES == b / PAGE_SIZE % ENTRIES
            <==> a / PAGE_SIZE == b / PAGE_SIZE
  {
  }

  /** The address a page-aligned placement allocation gets. */
  function AlignUp(a: int): int {
    if a % PAGE_SIZE != 0 then a / PAGE_SIZE * PAGE_SIZE + PAGE_SIZE else a
  }

  class Memory {
    const frames: FrameSet
    var placement: int
    /** False until create_heap has run. */
    var heapUp: bool
    /** Address and physical address of the blocks the kernel heap will hand out, once it is up. */
    var supply: seq<(int, int)>
    var tables: Tables
    var contents: seq<Contents>

    ghost predicate Valid()
      reads this, frames, frames.words
    {
      && frames.Valid() && |contents| == FRAME_COUNT
      && Sound(tables, frames.Used())
      && FreshAddresses()
    }

    /** New tables land on addresses where there is none. */
    ghost predicate FreshAddresses()
      reads this
    {
      if heapUp then
        && (forall k :: 0 <= k < |supply| ==> supply[k].0 > 0 && supply[k].0 !in tables)
        && (forall k, l :: 0 <= k < l < |supply| ==> supply[k].0 != supply[l].0)
      else placement > 0 && forall t :: t in tables ==> t < placement
    }

    constructor (start: int)
      requires start > 0
      ensures Valid() && frames.Used() == {} && placement == start && !heapUp && tables == map[]
      ensures fresh(frames) && fresh(frames.words)
    {
      frames := new FrameSet();
      placement, heapUp, supply, tables := start, false, [], map[];
      contents := seq(FRAME_COUNT, _ => seq(ENTRIES, _ => 0));
    }

    /** kmalloc_ap(0x1000, &phys): the placement branch of kmalloc_int, or a block of the heap. */
    method KmallocAP(size: int) returns (address: int, phys: int)
      requires Valid() && size >= 0 && (heapUp ==> supply != [])
      modifies this`placement, this`supply
      ensures address > 0 && address !in tables
      ensures !heapUp ==> address % 0x1000 == 0 && old(placement) <= address < old(placement) + 0x1000
      ensures heapUp ==> (address, phys) == old(supply)[0] && supply == old(supply)[1..] && placement == old(placement)
      ensures !heapUp ==>
                address == phys == AlignUp(old(placement)) && placement == address + size && supply == old(supply)
      ensures heapUp ==> FreshAddresses() && forall k :: 0 <= k < |supply| ==> supply[k].0 != address
    {
      if heapUp {
        address, phys := supply[0].0, supply[0].1;
        supply := supply[1..];
      } else {
        if placement % PAGE_SIZE != 0 {
          placement := placement / PAGE_SIZE * PAGE_SIZE;
          placement := placement + PAGE_SIZE;
        }
        phys := placement;
        address := placement;
        placement := placement + size;
      }
    }

    /** alloc_frame on entry `i` of the table at `t`. */
    method AllocFrame(t: int, i: nat, isKernel: bool, isWriteable: bool)
      requires Valid() && t in tables && i < ENTRIES
      requires tables[t][i].frame == 0 ==> exists f :: 0 <= f < FRAME_COUNT && f !in frames.Used()
      modifies this`tables, frames.words
      ensures Valid() && t in tables
      ensures old(tables)[t][i].frame != 0 ==> tables == old(tables) && frames.Used() == old(frames.Used())
      ensures old(tables)[t][i].frame == 0 ==>
                var page := tables[t][i];
                && 0 <= page.frame < FRAME_COUNT && page.frame !in old(frames.Used())
                && (forall f :: 0 <= f < page.frame ==> f in old(frames.Used()))
                && frames.Used() == old(frames.Used()) + {page.frame}
                && page == old(tables)[t][i].(present := true, rw := isWriteable, user := !isKernel, frame := page.frame)
                && tables == old(tables)[t := old(tables)[t][i := page]]
      // the page ends up holding a frame exactly when it had one, or the bit of frame 0 was set
      ensures tables[t][i].frame != 0 <==> old(tables)[t][i].frame != 0 || 0 in old(frames.Used())
    {
      hide Sound;
      if tables[t][i].frame != 0 {
        return;
      }
      var first := frames.First();
      assert first.Some? by {
        var f :| 0 <= f < FRAME_COUNT && f !in frames.Used();
      }
      var frame := first.value;
      ghost var used := frames.Used();
      frames.Set(frame * PAGE_SIZE);
      var page := tables[t][i];
      page := page.(present := true, rw := isWriteable, user := !isKernel, frame := frame);
      AllocKeepsSound(tables, used, t, i, page);
      tables := tables[t := tables[t][i := page]];
    }

    /** free_frame.  It hands the frame number to clear_frame, which takes an address: bit 0 is cleared. */
    method FreeFrame(t: int, i: nat)
      requires Valid() && t in tables && i < ENTRIES && 0 <= tables[t][i].frame < FRAME_COUNT
      modifies this`tables, frames.words
      ensures Valid()
      ensures tables == old(tables)[t := old(tables)[t][i := old(tables)[t][i].(frame := 0)]]
      ensures frames.Used() == if old(tables)[t][i].frame == 0 then old(frames.Used()) else old(frames.Used()) - {0}
      // the frame itself is never given back
      ensures old(tables)[t][i].frame != 0 ==> old(tables)[t][i].frame in frames.Used()
    {
      hide Exclusive;
      var frame := tables[t][i].frame;
      if frame == 0 {
        assert tables[t][i := tables[t][i].(frame := 0)] == tables[t];
        return;
      }
      ghost var used := frames.Used();
      frames.Clear(frame);
      FreeKeepsSound(tables, used, t, i, tables[t][i].(frame := 0));
      tables := tables[t := tables[t][i := tables[t][i].(frame := 0)]];
    }

    /** get_page: the table's address and the entry, or 0 for the null pointer. */
    method GetPage(address: int, make: bool, dir: Directory) returns (t: int, i: nat)
      requires Valid() && WellFormed(dir.tables, tables) && |dir.physical| == ENTRIES
      requires 0 <= address < PAGES * PAGE_SIZE && (heapUp ==> supply != [])
      modifies this`placement, this`supply, this`tables, dir
      ensures Valid() && WellFormed(dir.tables, tables) && |dir.physical| == ENTRIES
      ensures i == address / PAGE_SIZE % ENTRIES && t == dir.tables[address / PAGE_SIZE / ENTRIES]
      ensures make ==> t != 0
      // existing pages stay as they are; those of a new table start out zero
      ensures forall n :: 0 <= n < PAGES ==>
                FlatPage(dir.tables, tables, n)
                == (if make && old(FlatPage(dir.tables, tables, n)).None?
                       && n / ENTRIES == address / PAGE_SIZE / ENTRIES
                    then Some(ZERO_PAGE) else old(FlatPage(dir.tables, tables, n)))
      ensures forall u :: u in old(tables) ==> u in tables && tables[u] == old(tables)[u]
      ensures !make || old(dir.tables)[address / PAGE_SIZE / ENTRIES] != 0 ==>
                placement == old(placement) && supply == old(supply) && tables == old(tables)
                && dir.tables == old(dir.tables) && dir.physical == old(dir.physical)
      ensures make && old(dir.tables)[address / PAGE_SIZE / ENTRIES] == 0 ==>
                && t !in old(tables) && tables == old(tables)[t := ZERO_TABLE]
                && dir.tables == old(dir.tables)[address / PAGE_SIZE / ENTRIES := t]
                && (!heapUp ==> t == AlignUp(old(placement)) && placement == t + PAGE_SIZE)
                && (heapUp ==> supply == old(supply)[1..])
                && dir.physical == old(dir.physical)[address / PAGE_SIZE / ENTRIES := PhysicalEntry(if heapUp then old(supply)[0].1 else t)]
                // present, read-write and user, in front of the number of the table's frame
                && var phys, entry := if heapUp then old(supply)[0].1 else t, dir.physical[address / PAGE_SIZE / ENTRIES];
                   phys % 0x1000 == 0 ==> entry == phys + 1 + 2 + 4 && entry / 0x1000 == phys / 0x1000
    {
      hide Sound, PhysicalEntry;
      var pageIndex := address / PAGE_SIZE;
      var tableIndex := pageIndex / ENTRIES;
      i := pageIndex % ENTRIES;
      t := dir.tables[tableIndex];
      if t == 0 && make {
        var tmp;
        t, tmp := KmallocAP(PAGE_SIZE);
        NewTableKeepsSound(tables, frames.Used(), t);
        dir.tables := dir.tables[tableIndex := t];
        tables := tables[t := ZERO_TABLE];
        dir.physical := dir.physical[tableIndex := PhysicalEntry(tmp)];
        EntryBits(tmp);
      }
    }
  }

  /** physical address | 0x7: present, read-write, user. */
  function PhysicalEntry(phys: int): int {
    phys / 8 * 8 + 7
  }

  lemma EntryBits(p: int)
    ensures p % 0x1000 == 0 ==> PhysicalEntry(p) == p + 1 + 2 + 4 && PhysicalEntry(p) / 0x1000 == p / 0x1000
  {
  }
}
