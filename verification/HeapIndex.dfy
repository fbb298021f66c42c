/** How many holes a heap can have, and what happens when the index of src/memory/kheap.c is full. */
module HeapIndex {
  import opened Ram
  import opened HeapSpec
  import opened HeapBytes
  import opened HeapPages
  import opened HeapRuns
  import opened HeapReplay

  // ---------------------------------------------------------------- how many holes there can be

  function Holes(cs: seq<Chunk>): nat {
    if cs == [] then 0 else (if cs[0].hole then 1 else 0) + Holes(cs[1..])
  }

  lemma {:induction false} HolesConcat(cs: seq<Chunk>, ds: seq<Chunk>)
    ensures Holes(cs + ds) == Holes(cs) + Holes(ds)
  {
    if cs == [] {
      assert cs + ds == ds;
    } else {
      HolesConcat(cs[1..], ds);
      assert (cs + ds)[1..] == cs[1..] + ds;
    }
  }

  lemma CountFirst(idx: seq<int>)
    requires idx != []
    ensures Count(idx, idx[0]) > 0
  {
  }

  /** The index is as long as there are holes. */
  lemma {:induction false} ListedLength(cs: seq<Chunk>, idx: seq<int>)
    requires Listed(cs, idx)
    ensures |idx| == Holes(cs)
    decreases |cs|
  {
    if cs == [] {
      if idx != [] {
        CountFirst(idx);
      }
    } else if !cs[0].hole {
      ListedLength(cs[1..], idx);
    } else {
      var a := cs[0].addr;
      assert Count(idx, a) == HoleCount(cs, a) > 0;
      CountMember(idx, a);
      var pos :| 0 <= pos < |idx| && idx[pos] == a;
      var rest := idx[..pos] + idx[pos + 1..];
      forall x ensures Count(rest, x) == HoleCount(cs[1..], x) {
        RemovedCount(idx, pos, x);
        assert Count(idx, x) == HoleCount(cs, x);
      }
      ListedLength(cs[1..], rest);
    }
  }

  /** Holes do not touch, so between two of them there is a block, and neither is smaller than 20 bytes. */
  lemma {:induction false} HolesNeedRoom(cs: seq<Chunk>, lo: int, hi: int)
    requires Tiled(cs, lo, hi) && NoTouchingHoles(cs)
    ensures hi - lo >= 40 * Holes(cs) - (if cs[|cs| - 1].hole then 20 else 0)
    decreases |cs|
  {
    var n := |cs| - 1;
    assert cs == cs[..n] + [cs[n]];
    HolesConcat(cs[..n], [cs[n]]);
    if n > 0 {
      assert cs[n - 1].End() == cs[n].addr;
      HolesNeedRoom(cs[..n], lo, cs[n].addr);
    }
  }

  /** The number of holes is bounded by the length of the heap. */
  lemma IndexBound(s: State)
    requires Inv(s)
    ensures 40 * |s.index| - 20 <= s.end - s.start
  {
    ListedLength(s.chunks, s.index);
    HolesNeedRoom(s.chunks, s.start, s.end);
  }

  /** In every run in a heap that cannot grow to 5 MB the index has room. */
  lemma RoomInSmallHeap(ps: Pages, ss: seq<State>, es: seq<Event>)
    requires Run(ps, ss, es) && ss[0].max - ss[0].start < 40 * (HEAP_INDEX_SIZE - 1) - 20
    ensures IndexRoom(ss)
  {
    hide Inv, Step, Supplied;
    forall i | 0 <= i < |ss| ensures |ss[i].index| + 1 < HEAP_INDEX_SIZE {
      LimitsStay(ps, ss, es, i);
      IndexBound(ss[i]);
      EndAligned(ss[i]);
    }
  }

  lemma {:induction false} LimitsStay(ps: Pages, ss: seq<State>, es: seq<Event>, i: nat)
    requires Run(ps, ss, es) && i < |ss|
    ensures Inv(ss[i]) && ss[i].start == ss[0].start && ss[i].max == ss[0].max
  {
    hide Inv, Step, Supplied;
    if i > 0 {
      LimitsStay(ps, ss, es, i - 1);
      assert Step(ss[i - 1], es[i - 1], ss[i]);
      StepLimits(ss[i - 1], es[i - 1], ss[i]);
    }
  }

  lemma StepLimits(s: State, e: Event, s': State)
    requires Step(s, e, s')
    ensures Inv(s') && s'.start == s.start && s'.max == s.max
  {
    hide Inv, FirstFit, IndexOf, FreedIndex, CarvedIndex;
    match e
    case Alloc(size) =>
      if !AllocFits(s, size) {
        LastEnds(s);
        GrowKeepsInv(s, size + OVERHEAD);
      }
    case Free(p) => FreeKeepsInv(s, BlockIndex(s, p));
    case Write(_, _) =>
  }

  // ---------------------------------------------------------------- a full index

  /** Where entry `n` of the index lies: create_heap puts the index right in front of the heap. */
  function SlotAddress(s: State, n: int): int {
    s.start - 4 * HEAP_INDEX_SIZE + 4 * n
  }

  /**
   * An insertion writes the entry behind the last one (lines 45-46 and 50-56 of src/utils/ordered_array.c), and does
   * not ask for max_size.  When the index is full that entry is the magic number of the first header: the heap
   * survives if and only if what is written happens to be that number.
   */
  lemma FullIndexOverflows(m: seq<byte>, s: State, entry: word)
    requires Inv(s) && Layout(m, s)
    ensures Layout(SetWord(m, SlotAddress(s, HEAP_INDEX_SIZE), entry), s) <==> entry == HEAP_MAGIC
  {
    hide SetWord, Load, Listed, Tiled;
    var m' := SetWord(m, s.start, entry);
    EndAligned(s);
    FirstHeader(m, s);
    SetWordReads(m, s.start, entry);
    if entry == HEAP_MAGIC {
      StoredIs(m, m, s.start, HEAP_MAGIC);
    } else if Layout(m', s) {
      FirstHeader(m', s);
    }
  }

  lemma FirstHeader(m: seq<byte>, s: State)
    requires Inv(s) && Layout(m, s)
    ensures |m| == WORD && 0 <= s.start <= WORD - HEADER_SIZE && Load(m, s.start) == HEAP_MAGIC
  {
    assert HeaderAt(m, s.chunks[0]);
  }

  /** Blocks and holes in turn, 20 bytes each. */
  function Alternating(lo: int, n: nat): seq<Chunk>
    decreases n
  {
    if n == 0 then [] else [Chunk(lo, OVERHEAD, false), Chunk(lo + OVERHEAD, OVERHEAD, true)] + Alternating(lo + 2 * OVERHEAD, n - 1)
  }

  function AlternatingHoles(lo: int, n: nat): seq<int>
    decreases n
  {
    if n == 0 then [] else [lo + OVERHEAD] + AlternatingHoles(lo + 2 * OVERHEAD, n - 1)
  }

  lemma {:induction false} AlternatingIs(lo: int, n: nat)
    ensures var cs := Alternating(lo, n);
            && |cs| == 2 * n && |AlternatingHoles(lo, n)| == n
            && forall i :: 0 <= i < |cs| ==> cs[i] == Chunk(lo + OVERHEAD * i, OVERHEAD, i % 2 == 1)
    decreases n
  {
    if n > 0 {
      AlternatingIs(lo + 2 * OVERHEAD, n - 1);
      var cs, rest := Alternating(lo, n), Alternating(lo + 2 * OVERHEAD, n - 1);
      forall i | 0 <= i < |cs| ensures cs[i] == Chunk(lo + OVERHEAD * i, OVERHEAD, i % 2 == 1) {
        assert i >= 2 ==> cs[i] == rest[i - 2];
      }
    }
  }

  lemma {:induction false} AlternatingCount(lo: int, n: nat, a: int)
    ensures Count(AlternatingHoles(lo, n), a) == HoleCount(Alternating(lo, n), a)
    decreases n
  {
    if n > 0 {
      AlternatingCount(lo + 2 * OVERHEAD, n - 1, a);
      var cs := Alternating(lo, n);
      assert cs[1..] == [Chunk(lo + OVERHEAD, OVERHEAD, true)] + Alternating(lo + 2 * OVERHEAD, n - 1);
      assert cs[1..][1..] == Alternating(lo + 2 * OVERHEAD, n - 1);
    }
  }

  /** A heap of 0x501000 bytes, some 5 MB, with a full index: the invariant of the chunks does not prevent it. */
  lemma FullIndexExists() returns (s: State)
    ensures Inv(s) && |s.index| == HEAP_INDEX_SIZE && s.end - s.start == 0x501000
  {
    var lo, n := 0xC0080000, HEAP_INDEX_SIZE;
    hide Alternating, AlternatingHoles;
    var cs := Alternating(lo, n);
    AlternatingIs(lo, n);
    var last := Chunk(lo + 40 * n, 0x501000 - 40 * n, false);
    s := State(lo, lo + 0x501000, 0xCFFFF000, cs + [last], AlternatingHoles(lo, n));
    forall a ensures Count(s.index, a) == HoleCount(s.chunks, a) {
      AlternatingCount(lo, n, a);
      HoleCountConcat(cs, [last], a);
      OneHoleCount(last, a);
    }
  }
}
