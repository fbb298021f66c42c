/** What clone_directory makes of the running stack: when a child gets a copy of its own. */
module ForkStack {
  import opened Frames
  import opened Paging
  import opened Clone
  import opened Boot

  /**
   * Slot by slot: the child gets another table if and only if the slot is in use and not the kernel directory's.
   * Otherwise it gets the very table of its parent.
   */
  lemma TableCopied(src: seq<int>, kernel: seq<int>, srcPhys: seq<int>, ts0: Tables, used0: set<int>,
                    was: seq<Contents>, grants: seq<(int, int)>, k: nat,
                    t: int, phys: int, ts: Tables, now: seq<Contents>)
    requires |src| == |kernel| == |srcPhys| == ENTRIES && k < ENTRIES && WellFormed(src, ts0)
    requires SlotCopied(src, kernel, srcPhys, ts0, used0, was, grants, k, t, phys, ts, now)
    ensures t != src[k] <==> Private(src, kernel, k)
    ensures Private(src, kernel, k) ==> t !in ts0 && t in ts && Copied(ts0[src[k]], ts[t], ENTRIES, used0, was, now)
  {
    hide Copied;
  }

  /**
   * clone_directory, seen from a page `n` of the stack that holds a frame.  The new directory has a page there with
   * the same contents, and it is in another frame if and only if the stack's slot is the task's own.
   */
  method CloneStack(m: Memory, src: Directory, kernel: Directory, ghost n: int) returns (dir: Directory)
    requires m.Valid() && m.heapUp && 0 in m.frames.Used() && 0 <= n < PAGES
    requires WellFormed(src.tables, m.tables) && |src.tables| == |src.physical| == |kernel.tables| == ENTRIES
    requires 1 + PrivateCount(src.tables, kernel.tables, 0) <= |m.supply|
    requires DirDemand(src.tables, kernel.tables, m.tables, 0) <= |FreeFrames(m.frames.Used())|
    requires var page := FlatPage(src.tables, m.tables, n); page.Some? && 0 < page.value.frame < FRAME_COUNT
    modifies m`placement, m`supply, m`tables, m`contents, m.frames.words
    ensures fresh(dir) && m.Valid() && WellFormed(dir.tables, m.tables) && FlatPage(dir.tables, m.tables, n).Some?
    ensures var was, now := old(FlatPage(src.tables, m.tables, n)).value, FlatPage(dir.tables, m.tables, n).value;
            && 0 < now.frame < |m.contents| && m.contents[now.frame] == old(m.contents)[was.frame]
            && (now.frame != was.frame <==> Private(old(src.tables), old(kernel.tables), n / ENTRIES))
  {
    hide Copied, SlotCopied, Preserved, TablesKept, Sound, FrameSet.Used, FreeFrames, DirDemand, Memory.FreshAddresses;
    ghost var S, K, P, k := src.tables, kernel.tables, src.physical, n / ENTRIES;
    ghost var ts0, used0, was, grants := m.tables, m.frames.Used(), m.contents, m.supply;
    FrameHeld(ts0, used0, S[k], n % ENTRIES);
    dir := CloneDirectory(m, src, kernel);
    TableCopied(S, K, P, ts0, used0, was, grants, k, dir.tables[k], dir.physical[k], m.tables, m.contents);
    if Private(S, K, k) {
      EntryCopied(ts0[S[k]], m.tables[dir.tables[k]], n % ENTRIES, used0, was, m.contents);
    } else {
      EntryShared(ts0, m.tables, S[k], n % ENTRIES, used0, was, m.contents);
    }
  }

  lemma FrameHeld(ts: Tables, used: set<int>, t: int, i: nat)
    requires Sound(ts, used) && t in ts && i < ENTRIES
    ensures ts[t][i].frame != 0 ==> ts[t][i].frame in used
  {
  }

  lemma EntryCopied(src: Table, dst: Table, i: nat, used: set<int>, was: seq<Contents>, now: seq<Contents>)
    requires Copied(src, dst, ENTRIES, used, was, now) && i < ENTRIES && src[i].frame != 0
    ensures dst[i].frame != 0 && dst[i].frame !in used
    ensures 0 <= src[i].frame < |was| && 0 <= dst[i].frame < |now| && now[dst[i].frame] == was[src[i].frame]
  {
    assert PageCopied(src[i], dst[i], used, was, now);
  }

  lemma EntryShared(ts0: Tables, ts: Tables, t: int, i: nat, used: set<int>, was: seq<Contents>, now: seq<Contents>)
    requires TablesKept(ts0, ts) && Preserved(used, was, now) && t in ts0 && i < ENTRIES
    requires ts0[t][i].frame in used && 0 <= ts0[t][i].frame < |was|
    ensures t in ts && ts[t] == ts0[t] && |now| == |was| && now[ts0[t][i].frame] == was[ts0[t][i].frame]
  {
  }

  /**
   * Booting leaves the kernel directory as the current one, move_stack builds the stack in it, and fork clones it:
   * every table is shared, the stack's with the others.
   */
  method CloneKernelDirectory(m: Memory, kernel: Directory) returns (dir: Directory)
    requires m.Valid() && m.heapUp && 0 in m.frames.Used() && m.supply != []
    requires WellFormed(kernel.tables, m.tables) && |kernel.tables| == |kernel.physical| == ENTRIES
    modifies m`placement, m`supply, m`tables, m`contents, m.frames.words
    ensures fresh(dir) && m.Valid() && dir.tables == kernel.tables == old(kernel.tables)
    ensures forall k :: 0 <= k < ENTRIES ==> !Private(kernel.tables, kernel.tables, k)
  {
    hide Copied, Preserved, TablesKept, Sound, FrameSet.Used, FreeFrames, Memory.FreshAddresses;
    NothingPrivate(kernel.tables, m.tables, 0);
    dir := CloneDirectory(m, kernel, kernel);
  }

  lemma {:induction false} NothingPrivate(slots: seq<int>, ts: Tables, i: nat)
    requires WellFormed(slots, ts) && i <= ENTRIES
    ensures PrivateCount(slots, slots, i) == 0 && DirDemand(slots, slots, ts, i) == 0
    decreases ENTRIES - i
  {
    if i < ENTRIES {
      NothingPrivate(slots, ts, i + 1);
    }
  }
}
