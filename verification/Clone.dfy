/** clone_table and clone_directory of src/memory/paging.c, and copy_page_physical of src/process/process.s. */
module Clone {
  import opened Frames
  import opened Paging

  /** How many of the entries i .. 1023 hold a frame. */
  function Demand(t: Table, i: nat): nat
    requires i <= ENTRIES
    decreases ENTRIES - i
  {
    if i == ENTRIES then 0 else (if t[i].frame != 0 then 1 else 0) + Demand(t, i + 1)
  }

  /** Frames needed for the slots i .. 1023: those of the tables that the kernel directory does not share. */
  function DirDemand(src: seq<int>, kernel: seq<int>, ts: Tables, i: nat): nat
    requires |src| == |kernel| == ENTRIES && i <= ENTRIES
    decreases ENTRIES - i
  {
    if i == ENTRIES then 0
    else (if Private(src, kernel, i) && src[i] in ts then Demand(ts[src[i]], 0) else 0) + DirDemand(src, kernel, ts, i + 1)
  }

  /** How many tables have to be made for the slots i .. 1023. */
  function PrivateCount(src: seq<int>, kernel: seq<int>, i: nat): nat
    requires |src| == |kernel| == ENTRIES && i <= ENTRIES
    decreases ENTRIES - i
  {
    if i == ENTRIES then 0 else (if Private(src, kernel, i) then 1 else 0) + PrivateCount(src, kernel, i + 1)
  }

  predicate Private(src: seq<int>, kernel: seq<int>, i: nat)
    requires |src| == |kernel| == ENTRIES && i < ENTRIES
  {
    src[i] != 0 && kernel[i] != src[i]
  }

  ghost function FreeFrames(used: set<int>): set<int> {
    set f: int | 0 <= f < FRAME_COUNT && f !in used
  }

  lemma OneLess(used: set<int>, f: int)
    requires 0 <= f < FRAME_COUNT && f !in used
    ensures |FreeFrames(used + {f})| == |FreeFrames(used)| - 1
  {
    assert FreeFrames(used + {f}) == FreeFrames(used) - {f};
  }

  lemma SomeFree(used: set<int>)
    requires |FreeFrames(used)| > 0
    ensures exists f :: 0 <= f < FRAME_COUNT && f !in used
  {
  }

  /** The copy of a page that holds a frame: another frame, the same flags but present and user set. */
  ghost predicate PageCopied(from: Page, to: Page, used: set<int>, was: seq<Contents>, now: seq<Contents>) {
    if from.frame == 0 then to == ZERO_PAGE
    else
      && to == from.(present := true, user := true, frame := to.frame)
      && to.frame != 0 && to.frame !in used
      && 0 <= from.frame < |was| && 0 <= to.frame < |now| && now[to.frame] == was[from.frame]
  }

  /** The first `n` entries are copies. */
  ghost predicate Copied(src: Table, dst: Table, n: nat, used: set<int>, was: seq<Contents>, now: seq<Contents>) {
    forall i :: 0 <= i < n && i < ENTRIES ==> PageCopied(src[i], dst[i], used, was, now)
  }

  /** Frames that were taken keep their contents. */
  ghost predicate Preserved(used: set<int>, was: seq<Contents>, now: seq<Contents>) {
    |was| == |now| && forall f :: f in used && 0 <= f < |was| ==> now[f] == was[f]
  }

  /** Tables that existed keep their entries. */
  ghost predicate TablesKept(was: Tables, now: Tables) {
    forall t :: t in was ==> t in now && now[t] == was[t]
  }

  /** The word loop of copy_page_physical. */
  method CopyPagePhysical(m: Memory, src: int, dst: int)
    requires |m.contents| == FRAME_COUNT && 0 <= src < FRAME_COUNT && 0 <= dst < FRAME_COUNT
    modifies m`contents
    ensures m.contents == old(m.contents)[dst := old(m.contents)[src]]
  {
    var left, k := ENTRIES, 0;
    while left != 0
      invariant 0 <= k == ENTRIES - left <= ENTRIES
      invariant |m.contents| == FRAME_COUNT
      invariant forall f :: 0 <= f < FRAME_COUNT && f != dst ==> m.contents[f] == old(m.contents)[f]
      invariant forall j :: 0 <= j < k ==> m.contents[dst][j] == old(m.contents)[src][j]
      invariant forall j :: k <= j < ENTRIES ==> m.contents[dst][j] == old(m.contents)[dst][j]
    {
      m.contents := m.contents[dst := m.contents[dst][k := m.contents[src][k]]];
      k, left := k + 1, left - 1;
    }
    assert m.contents[dst] == old(m.contents)[src];
  }

  lemma HeldFrame(ts: Tables, used: set<int>, t: int, i: nat)
    requires Sound(ts, used) && t in ts && i < ENTRIES && ts[t][i].frame != 0
    ensures ts[t][i].frame in used
  {
  }

  /** Lines 209-213, on the page that alloc_frame(page, 0, 0) has just set up. */
  method CopyFlags(page: Page, from: Page) returns (page': Page)
    requires page == ZERO_PAGE.(present := true, user := true, frame := page.frame)
    ensures page' == from.(present := true, user := true, frame := page.frame)
  {
    page' := page;
    if from.present { page' := page'.(present := true); }
    if from.rw { page' := page'.(rw := true); }
    if from.user { page' := page'.(user := true); }
    if from.accessed { page' := page'.(accessed := true); }
    if from.dirty { page' := page'.(dirty := true); }
  }

  /** Lines 205-218 for one entry. */
  method ClonePage(m: Memory, src: int, t: int, i: nat)
    requires m.Valid() && src in m.tables && t in m.tables && src != t && i < ENTRIES
    requires m.tables[src][i].frame != 0 && m.tables[t][i] == ZERO_PAGE && 0 in m.frames.Used()
    requires |FreeFrames(m.frames.Used())| > 0
    modifies m`tables, m`contents, m.frames.words
    ensures m.Valid() && t in m.tables
    ensures OneCloned(old(m.tables)[src], t, i, old(m.tables), old(m.frames.Used()), old(m.contents),
                      m.tables, m.frames.Used(), m.contents)
  {
    hide Sound, FrameSet.Used;
    SomeFree(m.frames.Used());
    HeldFrame(m.tables, m.frames.Used(), src, i);
    m.AllocFrame(t, i, false, false);
    var from := m.tables[src][i];
    var page := CopyFlags(m.tables[t][i], from);
    FlagsKeepSound(m.tables, m.frames.Used(), t, i, page);
    m.tables := m.tables[t := m.tables[t][i := page]];
    assert m.tables[t] == old(m.tables)[t][i := page];
    assert m.tables == old(m.tables)[t := m.tables[t]];
    CopyPagePhysical(m, from.frame, page.frame);
  }

  method CloneTable(m: Memory, src: int) returns (t: int, phys: int)
    requires m.Valid() && m.heapUp && m.supply != [] && src in m.tables && 0 in m.frames.Used()
    requires Demand(m.tables[src], 0) <= |FreeFrames(m.frames.Used())|
    modifies m`placement, m`supply, m`tables, m`contents, m.frames.words
    ensures m.Valid() && (t, phys) == old(m.supply)[0] && m.supply == old(m.supply)[1..]
    ensures t > 0 && t !in old(m.tables) && t in m.tables && m.tables.Keys == old(m.tables).Keys + {t}
    ensures TablesKept(old(m.tables), m.tables)
    ensures Copied(old(m.tables)[src], m.tables[t], ENTRIES, old(m.frames.Used()), old(m.contents), m.contents)
    ensures Preserved(old(m.frames.Used()), old(m.contents), m.contents)
    ensures old(m.frames.Used()) <= m.frames.Used()
    ensures |FreeFrames(m.frames.Used())| == |FreeFrames(old(m.frames.Used()))| - Demand(old(m.tables)[src], 0)
  {
    hide Sound, Cloning, FrameSet.Used, Copied, Preserved, TablesKept, FreeFrames, Demand;
    ghost var used0, ts0, was := m.frames.Used(), m.tables, m.contents;
    t, phys := m.KmallocAP(PAGE_SIZE);
    NewTableKeepsSound(m.tables, used0, t);
    m.tables := m.tables[t := ZERO_TABLE];
    CloningStarts(ts0, src, t, used0, was);
    var i := 0;
    while i < ENTRIES
      invariant 0 <= i <= ENTRIES && m.Valid() && m.heapUp && m.supply == old(m.supply)[1..]
      invariant Cloning(ts0, src, t, used0, was, i, m.tables, m.frames.Used(), m.contents)
    {
      ghost var used, ts, now := m.frames.Used(), m.tables, m.contents;
      CloningReady(ts0, src, t, used0, was, i, ts, used, now);
      if m.tables[src][i].frame != 0 {
        ClonePage(m, src, t, i);
      }
      CloningStep(ts0, src, t, used0, was, i, ts, used, now, m.tables, m.frames.Used(), m.contents);
      i := i + 1;
    }
    CloningDone(ts0, src, t, used0, was, m.tables, m.frames.Used(), m.contents);
  }

  /** Where clone_table stands after `i` entries: the state then, against the state at the start. */
  ghost predicate Cloning(ts0: Tables, src: int, t: int, used0: set<int>, was: seq<Contents>, i: nat,
                          ts: Tables, used: set<int>, now: seq<Contents>)
  {
    && src in ts0 && t !in ts0 && t in ts && i <= ENTRIES && Sound(ts0, used0)
    && ts.Keys == ts0.Keys + {t} && TablesKept(ts0, ts)
    && 0 in used0 && used0 <= used && (forall f :: f in used ==> 0 <= f < FRAME_COUNT)
    && |was| == FRAME_COUNT && Preserved(used0, was, now)
    && Demand(ts0[src], 0) <= |FreeFrames(used0)|
    && |FreeFrames(used)| == |FreeFrames(used0)| - Demand(ts0[src], 0) + Demand(ts0[src], i)
    && Copied(ts0[src], ts[t], i, used0, was, now)
    && (forall j :: i <= j < ENTRIES ==> ts[t][j] == ZERO_PAGE)
  }

  lemma CloningStarts(ts0: Tables, src: int, t: int, used0: set<int>, was: seq<Contents>)
    requires src in ts0 && t !in ts0 && 0 in used0 && Sound(ts0, used0) && |was| == FRAME_COUNT
    requires (forall f :: f in used0 ==> 0 <= f < FRAME_COUNT) && Demand(ts0[src], 0) <= |FreeFrames(used0)|
    ensures Cloning(ts0, src, t, used0, was, 0, ts0[t := ZERO_TABLE], used0, was)
  {
    hide Sound, Copied, Preserved, TablesKept, FreeFrames, PageCopied;
    NothingCopied(ts0, t, ts0[src], used0, was);
  }

  lemma CloningReady(ts0: Tables, src: int, t: int, used0: set<int>, was: seq<Contents>, i: nat,
                     ts: Tables, used: set<int>, now: seq<Contents>)
    requires Cloning(ts0, src, t, used0, was, i, ts, used, now) && i < ENTRIES
    ensures src in ts && t in ts && src != t && ts[src] == ts0[src] && ts[t][i] == ZERO_PAGE && 0 in used
    ensures forall f :: f in used ==> 0 <= f < FRAME_COUNT
    ensures ts[src][i].frame != 0 ==> |FreeFrames(used)| > 0
  {
  }

  lemma CloningStep(ts0: Tables, src: int, t: int, used0: set<int>, was: seq<Contents>, i: nat,
                    ts: Tables, used: set<int>, now: seq<Contents>, ts': Tables, used': set<int>, now': seq<Contents>)
    requires Cloning(ts0, src, t, used0, was, i, ts, used, now) && i < ENTRIES && Sound(ts, used) && t in ts'
    requires if ts0[src][i].frame == 0 then ts' == ts && used' == used && now' == now
             else OneCloned(ts0[src], t, i, ts, used, now, ts', used', now')
    ensures Cloning(ts0, src, t, used0, was, i + 1, ts', used', now')
  {
    hide Sound, Copied, Preserved, TablesKept, FreeFrames, PageCopied;
    if ts0[src][i].frame == 0 {
      CopiedNone(ts0[src], ts[t], i, used0, was, now);
    } else {
      HeldFrame(ts0, used0, src, i);
      SameLength(used0, was, now);
      CopiedOne(ts, ts', t, used, now, now', ts0, ts0[src], i, used0, was);
      OneLess(used, ts'[t][i].frame);
    }
  }

  lemma SameLength(used: set<int>, was: seq<Contents>, now: seq<Contents>)
    requires Preserved(used, was, now)
    ensures |was| == |now|
  {
  }

  /** The effect of ClonePage. */
  ghost predicate OneCloned(src: Table, t: int, i: nat, ts: Tables, used: set<int>, now: seq<Contents>,
                            ts': Tables, used': set<int>, now': seq<Contents>)
    requires t in ts && t in ts' && i < ENTRIES
  {
    var page, from := ts'[t][i], src[i];
    && page == from.(present := true, user := true, frame := page.frame)
    && page.frame != 0 && page.frame !in used && 0 <= page.frame < FRAME_COUNT && 0 <= from.frame < FRAME_COUNT
    && ts' == ts[t := ts[t][i := page]] && used' == used + {page.frame}
    && |now| == FRAME_COUNT && now' == now[page.frame := now[from.frame]]
  }

  lemma CloningDone(ts0: Tables, src: int, t: int, used0: set<int>, was: seq<Contents>,
                    ts: Tables, used: set<int>, now: seq<Contents>)
    requires Cloning(ts0, src, t, used0, was, ENTRIES, ts, used, now)
    ensures t in ts && ts.Keys == ts0.Keys + {t} && TablesKept(ts0, ts) && used0 <= used
    ensures src in ts0 && Copied(ts0[src], ts[t], ENTRIES, used0, was, now) && Preserved(used0, was, now)
    ensures |FreeFrames(used)| == |FreeFrames(used0)| - Demand(ts0[src], 0)
    ensures forall f :: f in used ==> 0 <= f < FRAME_COUNT
  {
  }

  lemma NothingCopied(ts: Tables, t: int, src: Table, used0: set<int>, was: seq<Contents>)
    requires t !in ts
    ensures TablesKept(ts, ts[t := ZERO_TABLE])
    ensures Copied(src, ZERO_TABLE, 0, used0, was, was) && Preserved(used0, was, was)
  {
  }

  lemma CopiedNone(src: Table, dst: Table, i: nat, used0: set<int>, was: seq<Contents>, now: seq<Contents>)
    requires i < ENTRIES && Copied(src, dst, i, used0, was, now) && src[i].frame == 0 && dst[i] == ZERO_PAGE
    ensures Copied(src, dst, i + 1, used0, was, now)
  {
  }

  lemma CopiedOne(ts: Tables, ts': Tables, t: int, used: set<int>, now: seq<Contents>, later: seq<Contents>,
                  ts0: Tables, src: Table, i: nat, used0: set<int>, was: seq<Contents>)
    requires t in ts && t in ts' && t !in ts0 && i < ENTRIES && Sound(ts, used) && used0 <= used
    requires TablesKept(ts0, ts) && Copied(src, ts[t], i, used0, was, now) && Preserved(used0, was, now)
    requires var page := ts'[t][i];
             && ts' == ts[t := ts[t][i := page]] && page == src[i].(present := true, user := true, frame := page.frame)
             && page.frame != 0 && page.frame !in used && 0 <= page.frame < |now| && 0 <= src[i].frame < |now|
             && src[i].frame != 0 && src[i].frame in used0 && later == now[page.frame := now[src[i].frame]]
    ensures TablesKept(ts0, ts') && Copied(src, ts'[t], i + 1, used0, was, later) && Preserved(used0, was, later)
  {
  }

  // ---------------------------------------------------------------- directories

  /** Slot `k` of the new directory, for slot `k` of the source. */
  ghost predicate SlotCopied(src: seq<int>, kernel: seq<int>, srcPhys: seq<int>, ts0: Tables, used0: set<int>,
                             was: seq<Contents>, grants: seq<(int, int)>, k: nat,
                             t: int, phys: int, ts: Tables, now: seq<Contents>)
    requires |src| == |kernel| == |srcPhys| == ENTRIES && k < ENTRIES
  {
    if src[k] == 0 then t == 0 && phys == 0
    else if kernel[k] == src[k] then t == src[k] && phys == srcPhys[k]
    else
      && t !in ts0 && t in ts && src[k] in ts0
      && (exists p :: (t, p) in grants && phys == PhysicalEntry(p))
      && Copied(ts0[src[k]], ts[t], ENTRIES, used0, was, now)
  }

  /** The directory after `i` slots. */
  ghost predicate DirCloning(src: seq<int>, kernel: seq<int>, srcPhys: seq<int>, ts0: Tables, used0: set<int>,
                             was: seq<Contents>, grants: seq<(int, int)>, i: nat,
                             slots: seq<int>, phys: seq<int>, ts: Tables, used: set<int>, now: seq<Contents>)
  {
    && |src| == |kernel| == |srcPhys| == |slots| == |phys| == ENTRIES && i <= ENTRIES
    && WellFormed(src, ts0) && Sound(ts0, used0) && 0 in used0 && used0 <= used && 0 !in ts
    && TablesKept(ts0, ts) && Preserved(used0, was, now)
    && DirDemand(src, kernel, ts0, i) <= |FreeFrames(used)|
    && (forall k :: 0 <= k < i ==> SlotCopied(src, kernel, srcPhys, ts0, used0, was, grants, k, slots[k], phys[k], ts, now))
    && (forall k :: i <= k < ENTRIES ==> slots[k] == 0 && phys[k] == 0)
    && WellFormed(slots, ts)
  }

  /** clone_directory. */
  method CloneDirectory(m: Memory, src: Directory, kernel: Directory) returns (dir: Directory)
    requires m.Valid() && m.heapUp && 0 in m.frames.Used()
    requires WellFormed(src.tables, m.tables) && |src.tables| == |src.physical| == |kernel.tables| == ENTRIES
    requires 1 + PrivateCount(src.tables, kernel.tables, 0) <= |m.supply|
    requires DirDemand(src.tables, kernel.tables, m.tables, 0) <= |FreeFrames(m.frames.Used())|
    modifies m`placement, m`supply, m`tables, m`contents, m.frames.words
    ensures fresh(dir) && m.Valid() && WellFormed(dir.tables, m.tables) && |dir.physical| == ENTRIES
    ensures dir.base == old(m.supply)[0].1 + 4 * ENTRIES
    ensures forall k :: 0 <= k < ENTRIES ==>
              SlotCopied(old(src.tables), old(kernel.tables), old(src.physical), old(m.tables), old(m.frames.Used()),
                         old(m.contents), old(m.supply), k, dir.tables[k], dir.physical[k], m.tables, m.contents)
    // a copied table is entered as present, read-write and user, in front of the number of its frame
    ensures forall k :: 0 <= k < ENTRIES && old(src.tables)[k] != 0 && old(src.tables)[k] != old(kernel.tables)[k] ==>
              exists g :: g in old(m.supply) && g.0 == dir.tables[k]
                && (g.1 % 0x1000 == 0 ==> dir.physical[k] == g.1 + 1 + 2 + 4 && dir.physical[k] / 0x1000 == g.1 / 0x1000)
    ensures TablesKept(old(m.tables), m.tables)
    ensures Preserved(old(m.frames.Used()), old(m.contents), m.contents)
  {
    hide Sound, DirCloning, SlotCopied, FrameSet.Used, Copied, Preserved, TablesKept, FreeFrames, DirDemand, WellFormed, Memory.FreshAddresses, Demand, PhysicalEntry;
    ghost var used0, ts0, was, grants := m.frames.Used(), m.tables, m.contents, m.supply;
    ghost var S, K, P := src.tables, kernel.tables, src.physical;
    var address, physical := m.KmallocAP(0x2004);
    dir := new Directory(physical);
    DirCloningStarts(S, K, P, ts0, used0, was, grants);
    var i := 0;
    while i < ENTRIES
      invariant 0 <= i <= ENTRIES && m.Valid() && m.heapUp && fresh(dir)
      invariant dir.base == old(m.supply)[0].1 + 4 * ENTRIES
      invariant PrivateCount(S, K, i) <= |m.supply| && forall g :: g in m.supply ==> g in grants
      invariant DirCloning(S, K, P, ts0, used0, was, grants, i, dir.tables, dir.physical, m.tables, m.frames.Used(), m.contents)
    {
      ghost var D, Q, ts, used, now := dir.tables, dir.physical, m.tables, m.frames.Used(), m.contents;
      DirReady(S, K, P, ts0, used0, was, grants, i, D, Q, ts, used, now);
      if src.tables[i] == 0 {
        SkipSlot(S, K, P, ts0, used0, was, grants, i, D, Q, ts, used, now);
      } else if kernel.tables[i] == src.tables[i] {
        dir.tables := dir.tables[i := src.tables[i]];
        dir.physical := dir.physical[i := src.physical[i]];
        ShareSlot(S, K, P, ts0, used0, was, grants, i, D, Q, ts, used, now);
      } else {
        var t, phys := CloneTable(m, src.tables[i]);
        dir.tables := dir.tables[i := t];
        dir.physical := dir.physical[i := PhysicalEntry(phys)];
        CopySlot(S, K, P, ts0, used0, was, grants, i, D, Q, ts, used, now, t, phys, m.tables, m.frames.Used(), m.contents);
      }
      i := i + 1;
    }
    DirDone(S, K, P, ts0, used0, was, grants, dir.tables, dir.physical, m.tables, m.frames.Used(), m.contents);
    EntriesPresent(S, K, P, ts0, used0, was, grants, dir.tables, dir.physical, m.tables, m.contents);
  }

  lemma DirCloningStarts(src: seq<int>, kernel: seq<int>, srcPhys: seq<int>, ts0: Tables, used0: set<int>,
                         was: seq<Contents>, grants: seq<(int, int)>)
    requires |src| == |kernel| == |srcPhys| == ENTRIES && WellFormed(src, ts0) && Sound(ts0, used0) && 0 in used0
    requires DirDemand(src, kernel, ts0, 0) <= |FreeFrames(used0)|
    ensures DirCloning(src, kernel, srcPhys, ts0, used0, was, grants, 0,
                       seq(ENTRIES, _ => 0), seq(ENTRIES, _ => 0), ts0, used0, was)
  {
    hide FreeFrames, DirDemand, Sound;
  }

  lemma DirReady(src: seq<int>, kernel: seq<int>, srcPhys: seq<int>, ts0: Tables, used0: set<int>,
                 was: seq<Contents>, grants: seq<(int, int)>, i: nat,
                 slots: seq<int>, phys: seq<int>, ts: Tables, used: set<int>, now: seq<Contents>)
    requires DirCloning(src, kernel, srcPhys, ts0, used0, was, grants, i, slots, phys, ts, used, now) && i < ENTRIES
    ensures |slots| == |phys| == |src| == |kernel| == |srcPhys| == ENTRIES && 0 in used
    ensures src[i] != 0 ==> src[i] in ts0 && src[i] in ts && ts[src[i]] == ts0[src[i]]
    ensures Private(src, kernel, i) ==> Demand(ts[src[i]], 0) <= |FreeFrames(used)|
  {
  }

  lemma SkipSlot(src: seq<int>, kernel: seq<int>, srcPhys: seq<int>, ts0: Tables, used0: set<int>,
                 was: seq<Contents>, grants: seq<(int, int)>, i: nat,
                 slots: seq<int>, phys: seq<int>, ts: Tables, used: set<int>, now: seq<Contents>)
    requires DirCloning(src, kernel, srcPhys, ts0, used0, was, grants, i, slots, phys, ts, used, now)
    requires i < ENTRIES && src[i] == 0
    ensures DirCloning(src, kernel, srcPhys, ts0, used0, was, grants, i + 1, slots, phys, ts, used, now)
  {
    hide FreeFrames, Preserved, Copied, TablesKept, WellFormed, Sound;
  }

  lemma ShareSlot(src: seq<int>, kernel: seq<int>, srcPhys: seq<int>, ts0: Tables, used0: set<int>,
                  was: seq<Contents>, grants: seq<(int, int)>, i: nat,
                  slots: seq<int>, phys: seq<int>, ts: Tables, used: set<int>, now: seq<Contents>)
    requires DirCloning(src, kernel, srcPhys, ts0, used0, was, grants, i, slots, phys, ts, used, now)
    requires i < ENTRIES && src[i] != 0 && kernel[i] == src[i]
    ensures DirCloning(src, kernel, srcPhys, ts0, used0, was, grants, i + 1,
                       slots[i := src[i]], phys[i := srcPhys[i]], ts, used, now)
  {
  }

  /** No earlier slot holds a table that the source has in slot `i`, or one that did not exist. */
  lemma SlotApart(src: seq<int>, kernel: seq<int>, srcPhys: seq<int>, ts0: Tables, used0: set<int>,
                  was: seq<Contents>, grants: seq<(int, int)>, i: nat,
                  slots: seq<int>, phys: seq<int>, ts: Tables, used: set<int>, now: seq<Contents>, t: int)
    requires DirCloning(src, kernel, srcPhys, ts0, used0, was, grants, i, slots, phys, ts, used, now) && i < ENTRIES
    requires t != 0 && (t == src[i] || t !in ts)
    ensures forall k :: 0 <= k < ENTRIES ==> slots[k] != t
  {
    hide FreeFrames, Preserved, Copied, DirDemand, TablesKept, Sound;
    forall k | 0 <= k < ENTRIES ensures slots[k] != t {
      if k < i {
        assert SlotCopied(src, kernel, srcPhys, ts0, used0, was, grants, k, slots[k], phys[k], ts, now);
        assert src[i] != 0 ==> src[i] in ts0;
      }
    }
  }

  lemma SlotStays(src: seq<int>, kernel: seq<int>, srcPhys: seq<int>, ts0: Tables, used0: set<int>,
                  was: seq<Contents>, grants: seq<(int, int)>, k: nat, t: int, phys: int,
                  ts: Tables, used: set<int>, now: seq<Contents>, ts': Tables, now': seq<Contents>)
    requires |src| == |kernel| == |srcPhys| == ENTRIES && k < ENTRIES && Sound(ts, used)
    requires SlotCopied(src, kernel, srcPhys, ts0, used0, was, grants, k, t, phys, ts, now)
    requires TablesKept(ts, ts') && Preserved(used, now, now')
    ensures SlotCopied(src, kernel, srcPhys, ts0, used0, was, grants, k, t, phys, ts', now')
  {
  }

  lemma CopySlot(src: seq<int>, kernel: seq<int>, srcPhys: seq<int>, ts0: Tables, used0: set<int>,
                 was: seq<Contents>, grants: seq<(int, int)>, i: nat,
                 slots: seq<int>, phys: seq<int>, ts: Tables, used: set<int>, now: seq<Contents>,
                 t: int, p: int, ts': Tables, used': set<int>, now': seq<Contents>)
    requires DirCloning(src, kernel, srcPhys, ts0, used0, was, grants, i, slots, phys, ts, used, now)
    requires i < ENTRIES && Private(src, kernel, i) && Sound(ts, used) && (t, p) in grants
    requires t > 0 && t !in ts && t in ts' && ts'.Keys == ts.Keys + {t} && TablesKept(ts, ts')
    requires src[i] in ts && Copied(ts[src[i]], ts'[t], ENTRIES, used, now, now')
    requires Preserved(used, now, now') && used <= used'
    requires |FreeFrames(used')| == |FreeFrames(used)| - Demand(ts[src[i]], 0)
    ensures DirCloning(src, kernel, srcPhys, ts0, used0, was, grants, i + 1,
                       slots[i := t], phys[i := PhysicalEntry(p)], ts', used', now')
  {
    hide FreeFrames, Copied, Preserved, Sound, SlotCopied, Demand;
    SlotApart(src, kernel, srcPhys, ts0, used0, was, grants, i, slots, phys, ts, used, now, t);
    PreservedTwice(used0, used, was, now, now');
    forall k | 0 <= k < i
      ensures SlotCopied(src, kernel, srcPhys, ts0, used0, was, grants, k, slots[k], phys[k], ts', now')
    {
      SlotStays(src, kernel, srcPhys, ts0, used0, was, grants, k, slots[k], phys[k], ts, used, now, ts', now');
    }
    CopiedFrom(ts0, used, src[i], ts'[t], used0, was, now, now');
    NewSlot(src, kernel, srcPhys, ts0, used0, was, grants, i, t, p, ts', now');
  }

  lemma NewSlot(src: seq<int>, kernel: seq<int>, srcPhys: seq<int>, ts0: Tables, used0: set<int>,
                was: seq<Contents>, grants: seq<(int, int)>, i: nat, t: int, p: int, ts: Tables, now: seq<Contents>)
    requires |src| == |kernel| == |srcPhys| == ENTRIES && i < ENTRIES && Private(src, kernel, i)
    requires t !in ts0 && t in ts && src[i] in ts0 && (t, p) in grants
    requires Copied(ts0[src[i]], ts[t], ENTRIES, used0, was, now)
    ensures SlotCopied(src, kernel, srcPhys, ts0, used0, was, grants, i, t, PhysicalEntry(p), ts, now)
  {
  }

  lemma PreservedTwice(used0: set<int>, used: set<int>, was: seq<Contents>, now: seq<Contents>, later: seq<Contents>)
    requires used0 <= used && Preserved(used0, was, now) && Preserved(used, now, later)
    ensures Preserved(used0, was, later)
  {
  }

  /** A copy of the source's pages as they are now is a copy of them as they were: their frames have not changed. */
  lemma CopiedFrom(ts: Tables, used: set<int>, s: int, dst: Table, used0: set<int>,
                   was: seq<Contents>, now: seq<Contents>, later: seq<Contents>)
    requires s in ts && Copied(ts[s], dst, ENTRIES, used, now, later) && Preserved(used0, was, now) && used0 <= used
    requires Sound(ts, used0)
    ensures Copied(ts[s], dst, ENTRIES, used0, was, later)
  {
  }

  lemma DirDone(src: seq<int>, kernel: seq<int>, srcPhys: seq<int>, ts0: Tables, used0: set<int>,
                was: seq<Contents>, grants: seq<(int, int)>,
                slots: seq<int>, phys: seq<int>, ts: Tables, used: set<int>, now: seq<Contents>)
    requires DirCloning(src, kernel, srcPhys, ts0, used0, was, grants, ENTRIES, slots, phys, ts, used, now)
    ensures |slots| == |phys| == |src| == |kernel| == |srcPhys| == ENTRIES && WellFormed(slots, ts)
    ensures TablesKept(ts0, ts) && Preserved(used0, was, now)
    ensures forall k :: 0 <= k < ENTRIES ==>
              SlotCopied(src, kernel, srcPhys, ts0, used0, was, grants, k, slots[k], phys[k], ts, now)
  {
  }

  /** The entries of copied tables. */
  lemma EntriesPresent(src: seq<int>, kernel: seq<int>, srcPhys: seq<int>, ts0: Tables, used0: set<int>,
                       was: seq<Contents>, grants: seq<(int, int)>, slots: seq<int>, phys: seq<int>, ts: Tables, now: seq<Contents>)
    requires |src| == |kernel| == |srcPhys| == |slots| == |phys| == ENTRIES
    requires forall k :: 0 <= k < ENTRIES ==> SlotCopied(src, kernel, srcPhys, ts0, used0, was, grants, k, slots[k], phys[k], ts, now)
    ensures forall k :: 0 <= k < ENTRIES && src[k] != 0 && src[k] != kernel[k] ==>
              exists g :: g in grants && g.0 == slots[k]
                && (g.1 % 0x1000 == 0 ==> phys[k] == g.1 + 1 + 2 + 4 && phys[k] / 0x1000 == g.1 / 0x1000)
  {
    hide Copied;
    forall k | 0 <= k < ENTRIES && src[k] != 0 && src[k] != kernel[k]
      ensures exists g :: g in grants && g.0 == slots[k]
                && (g.1 % 0x1000 == 0 ==> phys[k] == g.1 + 1 + 2 + 4 && phys[k] / 0x1000 == g.1 / 0x1000)
    {
      assert SlotCopied(src, kernel, srcPhys, ts0, used0, was, grants, k, slots[k], phys[k], ts, now);
      var p :| (slots[k], p) in grants && phys[k] == PhysicalEntry(p);
      if p % 0x1000 == 0 {
        EntryBits(p);
      }
      var g := (slots[k], p);
      assert g in grants && g.0 == slots[k];
    }
  }
}
