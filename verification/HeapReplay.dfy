/** The heap of bytes goes through the states of a run, from create_heap() on. */
module HeapReplay {
  import opened Ram
  import opened HeapSpec
  import opened HeapBytes
  import opened HeapPages
  import opened KernelHeap
  import opened HeapRuns

  /** A run that leaves room in the index: another hole always fits. */
  ghost predicate IndexRoom(ss: seq<State>) {
    forall i :: 0 <= i < |ss| ==> |ss[i].index| + 1 < HEAP_INDEX_SIZE
  }

  /** The event neither frees the block nor writes into it. */
  ghost predicate Spares(b: Chunk, e: Event) {
    match e
    case Alloc(_) => true
    case Free(p) => p != b.Payload()
    case Write(a, _) => !(b.addr <= a < b.End())
  }

  ghost predicate AllSpared(kept: set<Chunk>, es: seq<Event>) {
    forall b, t :: b in kept && 0 <= t < |es| ==> Spares(b, es[t])
  }

  /** What an allocation in a run asks for is within 32 bits, and so is the growth it may need. */
  lemma RequestFits(ps: Pages, s: State, size: int)
    requires Inv(s) && size >= 0 && Supplied(ps, s, Alloc(size))
    requires AllocFits(s, size) || GrownEnd(s, size + OVERHEAD) <= s.max
    ensures size + OVERHEAD < WORD
    ensures AllocFits(s, size) || Growable(ps, s.start, s.end, s.max, size + OVERHEAD, 1)
  {
    hide Listed, FirstFit, SizeOf, CanFrameRange, FramedRange;
    if AllocFits(s, size) {
      var pos := FirstFit(s.chunks, s.index, size + OVERHEAD);
      var j := FittingChunk(s, pos, size + OVERHEAD);
      TiledWithin(s.chunks, s.start, s.end, j);
    } else {
      assert Growable(GrownPages(ps, s, size + OVERHEAD), s.start, GrownEnd(s, size + OVERHEAD), s.max, size + OVERHEAD, 0);
    }
  }

  lemma FittingChunk(s: State, pos: nat, need: int) returns (j: nat)
    requires Inv(s) && pos < |s.index| && SizeOf(s.chunks, s.index[pos]) >= need
    ensures j < |s.chunks| && s.chunks[j].size >= need
  {
    j := Indexed(s, pos);
  }

  lemma BlockAddress(s: State, p: int)
    requires Inv(s) && BlockAt(s, p)
    ensures p != 0
  {
    hide Listed, IndexOf;
    TiledWithin(s.chunks, s.start, s.end, BlockIndex(s, p));
  }

  lemma StepKeepsBlocks(s: State, e: Event, s': State, kept: set<Chunk>)
    requires Step(s, e, s') && kept <= Blocks(s.chunks) && forall b :: b in kept ==> Spares(b, e)
    ensures kept <= Blocks(s'.chunks)
  {
    hide Step;
    forall b | b in kept ensures b in Blocks(s'.chunks) {
      assert b in Blocks(s.chunks);
      StepKeepsBlock(s, e, s', b);
    }
  }

  lemma Fewer(m: seq<byte>, m': seq<byte>, kept: set<Chunk>, blocks: set<Chunk>)
    requires Undisturbed(m, m', blocks) && kept <= blocks
    ensures Undisturbed(m, m', kept)
  {
  }

  /** A byte written into a payload. */
  lemma PayloadByte(m: seq<byte>, s: State, a: int, v: byte, kept: set<Chunk>)
    requires Inv(s) && Layout(m, s) && InPayload(s, a) && forall b :: b in kept ==> Spares(b, Write(a, v))
    ensures 0 <= a < |m| && |m| == WORD && SetByte(m, a, v) == m[a := v]
    ensures Layout(SetByte(m, a, v), s) && Undisturbed(m, SetByte(m, a, v), kept)
  {
    hide Layout, Listed, Tiled;
    var i :| 0 <= i < |s.chunks| && !s.chunks[i].hole && s.chunks[i].Payload() <= a < s.chunks[i].End() - FOOTER_SIZE;
    InvWithin(s, i);
    LayoutSize(m, s);
    PayloadWrites(m, SetByte(m, a, v), s, i);
  }

  lemma LayoutSize(m: seq<byte>, s: State)
    requires Layout(m, s)
    ensures |m| == WORD
  {
  }

  /** One event on the heap of bytes, with what frame 0 holds.  It stops the kernel exactly when it is one that halts. */
  method Perform(h: Heap, e: Event, zero: seq<byte>, ghost s': State, ghost kept: set<Chunk>) returns (halted: bool)
    requires h.Valid() && Step(h.St(), e, s') && Supplied(h.pages, h.St(), e) && h.index.size + 1 < HEAP_INDEX_SIZE
    requires |zero| == HEADER_SIZE && kept <= Blocks(h.chunks) && forall b :: b in kept ==> Spares(b, e)
    modifies h, h.index, h.index.items
    ensures halted <==> old(Halts(h.ram, h.pages, zero, h.St(), e))
    ensures !halted ==>
              && h.Valid() && h.St() == s' && h.ram == RamNext(old(h.ram), old(h.St()), e)
              && h.pages == PagesNext(old(h.pages), old(h.St()), e)
              && kept <= Blocks(h.chunks) && Undisturbed(old(h.ram), h.ram, kept)
  {
    hide Inv, Layout, Blocks, Undisturbed, FreeNext, AllocNext, FreeClean, GrownEnd, IndexOf, HeaderBeyond, HolesSound, BlockAt, AllocRam, FreedRam, AllocPages, FreedPages, InPayload, SetByte, Growable, Apart, AllPresent, Searchable, Supplied;
    ghost var s, m := h.St(), h.ram;
    StepKeepsBlocks(s, e, s', kept);
    match e
    case Alloc(size) =>
      RequestFits(h.pages, s, size);
      ghost var expansions;
      var r;
      r, expansions := h.Alloc(size);
      Fewer(m, h.ram, kept, Blocks(s.chunks));
      halted := false;
    case Free(p) =>
      BlockAddress(s, p);
      halted := h.Free(p, zero, if p == 0 then 0 else BlockIndex(h.St(), p));
      if !halted {
        Fewer(m, h.ram, kept, Blocks(h.chunks));
      }
    case Write(a, v) =>
      PayloadByte(m, s, a, v, kept);
      h.ram := h.ram[a := v];
      halted := false;
  }

  /**
   * A whole run; `zero` is what frame 0 holds at each event.  The kernel stops exactly when some event of the run
   * halts, and then at the first one.  Otherwise the heap arrives in the run's last state with headers, footers and
   * index in order, memory and pages are what the run says, and every byte of every block that was neither freed nor
   * written is as it was.
   */
  method Replay(h: Heap, es: seq<Event>, zero: seq<seq<byte>>, ghost ss: seq<State>, ghost kept: set<Chunk>)
    returns (halted: bool, ghost stop: nat)
    requires h.Valid() && Run(h.pages, ss, es) && ss[0] == h.St() && IndexRoom(ss)
    requires kept <= Blocks(h.chunks) && AllSpared(kept, es)
    modifies h, h.index, h.index.items
    ensures var w := World(old(h.ram), old(h.pages), zero);
            && (halted <==> exists i :: 0 <= i < |es| && HaltsAt(w, ss, es, i))
            && stop <= |es| && (halted <==> stop < |es|)
            && (forall i :: 0 <= i < stop ==> !HaltsAt(w, ss, es, i))
            && (halted ==> HaltsAt(w, ss, es, stop))
    ensures !halted ==>
              && h.Valid() && h.St() == ss[|es|] && h.ram == RamAt(old(h.ram), ss, es, |es|)
              && h.pages == PagesAt(old(h.pages), ss, es, |es|)
              && kept <= Blocks(h.chunks) && Undisturbed(old(h.ram), h.ram, kept)
  {
    hide Inv, Layout, Blocks, Undisturbed, Step, Halts, RamNext, PagesNext, Supplied, AllPresent;
    var w := World(h.ram, h.pages, zero);
    SameToStart(w.ram, kept);
    var i := 0;
    while i < |es|
      invariant 0 <= i <= |es| && h.Valid() && h.St() == ss[i]
      invariant h.ram == RamAt(w.ram, ss, es, i) && h.pages == PagesAt(w.pages, ss, es, i)
      invariant forall j :: 0 <= j < i ==> !HaltsAt(w, ss, es, j)
      invariant kept <= Blocks(h.chunks) && Undisturbed(w.ram, h.ram, kept)
    {
      ghost var m := h.ram;
      halted := Perform(h, es[i], w.Zero(i), ss[i + 1], kept);
      assert halted <==> HaltsAt(w, ss, es, i);
      if halted {
        return true, i;
      }
      UndisturbedTwice(w.ram, m, h.ram, kept);
      i := i + 1;
    }
    return false, |es|;
  }

  lemma SameToStart(m: seq<byte>, kept: set<Chunk>)
    ensures Undisturbed(m, m, kept)
  {
  }

  /** The same from create_heap(), with the memory `m0` that it leaves. */
  method FromCreation(start: int, end: int, max: int, m: seq<byte>, ps: Pages, es: seq<Event>, zero: seq<seq<byte>>,
                      ghost ss: seq<State>)
    returns (h: Heap, halted: bool, ghost m0: seq<byte>, ghost stop: nat)
    requires |m| == WORD && PAGE_SIZE <= start && end <= max <= 0xFFFFF000
    requires start % PAGE_SIZE == 0 && end % PAGE_SIZE == 0
    requires start + 4 * HEAP_INDEX_SIZE + HEAP_MIN_SIZE <= end
    requires AllPresent(ps, start, end) && ps.framed <= ps.present
    requires Run(ps, ss, es) && IndexRoom(ss)
    requires var first := start + 4 * HEAP_INDEX_SIZE;
             ss[0] == State(first, end, max, [Chunk(first, end - first, true)], [first])
    ensures Created(ss[0]) && SameOutside(m, m0, start, ss[0].start + HEADER_SIZE)
    ensures var w := World(m0, ps, zero);
            && (halted <==> exists i :: 0 <= i < |es| && HaltsAt(w, ss, es, i))
            && stop <= |es| && (halted <==> stop < |es|)
            && (forall i :: 0 <= i < stop ==> !HaltsAt(w, ss, es, i))
            && (halted ==> HaltsAt(w, ss, es, stop))
    ensures !halted ==>
              && h.Valid() && h.St() == ss[|es|] && h.ram == RamAt(m0, ss, es, |es|) && h.pages == PagesAt(ps, ss, es, |es|)
  {
    hide Inv, Layout, Blocks, Undisturbed, Step, Run, HaltsAt, SameOutside, AllPresent, RamAt, PagesAt, IndexRoom, Created;
    CreatedStart(ps, ss, es);
    h := new Heap(start, end, max, m, ps);
    m0 := h.ram;
    halted, stop := Replay(h, es, zero, ss, {});
  }

  lemma CreatedStart(ps: Pages, ss: seq<State>, es: seq<Event>)
    requires Run(ps, ss, es)
    ensures |ss| == |es| + 1
    ensures ss[0].chunks == [Chunk(ss[0].start, ss[0].end - ss[0].start, true)] ==> Created(ss[0])
  {
    hide Inv, Step, Supplied;
  }

  /** The test of expand() on the kernel's own heap, asked for 1 GB, passes, with a new end that wraps to 0x101000. */
  method OneGigabyte(h: Heap) returns (ok: bool, newSize: word)
    requires h.Valid() && h.startAddress == 0xC0080000 && h.endAddress == 0xC0100000 && h.maxAddress == 0xCFFFF000
    ensures ok && (h.startAddress + newSize) % WORD == 0x101000
  {
    hide Inv, Layout, LimitMissed, ExpandedLength;
    HeapBounds(h.St());
    GigabyteMissed();
    ok, newSize := h.PassesTest(0x4008_0014);
  }

  /** The heap's length, 1 GB and the overhead. */
  lemma GigabyteMissed()
    ensures 0x80000 + 0x4000_0000 + OVERHEAD == 0x4008_0014
    ensures LimitMissed(0xC0080000, 0xCFFFF000, 0x4008_0014) && ExpandedLength(0x4008_0014) == 0x4008_1000
  {
  }

  lemma HeapBounds(s: State)
    requires Inv(s)
    ensures 0 <= s.start <= s.end < WORD && 0 <= s.max < WORD && s.start % PAGE_SIZE == 0 && s.end % PAGE_SIZE == 0
  {
  }

  /**
   * The sum of a request and its overhead is on 32 bits too.  A request for which it wraps fits every hole,
   * though no chunk is that large: alloc() is described for the others.
   */
  lemma RequestWraps(s: State, size: word)
    requires Inv(s) && size + OVERHEAD >= WORD
    ensures FirstFit(s.chunks, s.index, (size + OVERHEAD) % WORD) < |s.index| <==> s.index != []
    ensures forall i :: 0 <= i < |s.chunks| ==> s.chunks[i].size < size
  {
    hide Listed;
    forall i | 0 <= i < |s.chunks| ensures s.chunks[i].size < size {
      TiledWithin(s.chunks, s.start, s.end, i);
    }
    if s.index != [] {
      var j := Indexed(s, 0);
      assert SizeOf(s.chunks, s.index[0]) >= OVERHEAD;
    }
  }
}
