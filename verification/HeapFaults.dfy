/**
 * Runs of alloc() and free() from create_heap() on that reach the places where src/memory/kheap.c does less than
 * it is meant to: what the conditions of clean runs keep away.
 */
module HeapFaults {
  import opened Ram
  import opened HeapSpec
  import opened HeapBytes
  import opened HeapPages
  import opened HeapRuns

  /** The size of the kernel's own heap (src/memory/kheap.h). */
  const KERNEL_HEAP := 0x80000

  /**
   * A block of the heap's minimum size is allocated and freed twice, on the kernel's own heap.  The first
   * allocation leaves the header of the remaining hole at the address where the first free lets the heap end;
   * the page there keeps its frame; the second free finds the header, whatever else memory holds, and stops the
   * kernel.
   */
  lemma StaleHeaderHalts(w: World, s: State) returns (ss: seq<State>, p: int)
    requires Created(s) && s.end - s.start == KERNEL_HEAP && |w.ram| == WORD
    requires s.start + HEAP_MIN_SIZE in w.pages.framed
    ensures var es := [Alloc(0x6FFEC), Free(p), Alloc(0x6FFEC), Free(p)];
            && Run(w.pages, ss, es) && |ss| == 5 && ss[0] == s
            && !HaltsAt(w, ss, es, 0) && !HaltsAt(w, ss, es, 1) && !HaltsAt(w, ss, es, 2) && HaltsAt(w, ss, es, 3)
  {
    hide Inv, Step, HoleOnTop, AllocFits, GrowClean, GrownEnd, Halts, RamNext, PagesNext, Supplied, LooksLikeHole;
    var b := Chunk(s.start, HEAP_MIN_SIZE, false);
    p := b.Payload();
    var s1, s2, s3, s4 := StaleSteps(s, b);
    ss := [s, s1, s2, s3, s4];
    var es := [Alloc(0x6FFEC), Free(p), Alloc(0x6FFEC), Free(p)];
    forall i | 0 <= i < |es| ensures Supplied(PagesAt(w.pages, ss, es, i), ss[i], es[i]) {
      GoesOn(RamAt(w.ram, ss, es, i), PagesAt(w.pages, ss, es, i), w.Zero(i), ss[i], es[i]);
    }
    GoesOn(RamAt(w.ram, ss, es, 0), PagesAt(w.pages, ss, es, 0), w.Zero(0), s, es[0]);
    GoesOn(RamAt(w.ram, ss, es, 2), PagesAt(w.pages, ss, es, 2), w.Zero(2), s2, es[2]);
    StaleBytes(w.ram, s, s1, s2, b);
    assert RamAt(w.ram, ss, es, 0) == w.ram;
    assert RamAt(w.ram, ss, es, 1) == RamNext(w.ram, s, Alloc(0x6FFEC));
    assert RamAt(w.ram, ss, es, 2) == RamNext(RamAt(w.ram, ss, es, 1), s1, Free(p));
    assert RamAt(w.ram, ss, es, 3) == RamNext(RamAt(w.ram, ss, es, 2), s2, Alloc(0x6FFEC));
    assert PagesAt(w.pages, ss, es, 0) == w.pages;
    assert PagesAt(w.pages, ss, es, 1) == PagesNext(w.pages, s, Alloc(0x6FFEC));
    assert PagesAt(w.pages, ss, es, 2) == PagesNext(PagesAt(w.pages, ss, es, 1), s1, Free(p));
    assert PagesAt(w.pages, ss, es, 3) == PagesNext(PagesAt(w.pages, ss, es, 2), s2, Alloc(0x6FFEC));
    StalePage(w.pages, s, s1, s2, b);
    LastBlockHalts(RamAt(w.ram, ss, es, 3), PagesAt(w.pages, ss, es, 3), w.Zero(3), s3, b);
  }

  /** The page where the heap will end keeps its frame. */
  lemma StalePage(ps: Pages, s: State, s1: State, s2: State, b: Chunk)
    requires b == Chunk(s.start, HEAP_MIN_SIZE, false) && b.End() in ps.framed
    requires HoleOnTop(s1, [b], b.End()) && s1.start == s.start && AllocFits(s, 0x6FFEC) && AllocFits(s2, 0x6FFEC)
    requires BlockAt(s1, b.Payload()) && BlockIndex(s1, b.Payload()) == 0
    ensures b.End() in PagesNext(PagesNext(PagesNext(ps, s, Alloc(0x6FFEC)), s1, Free(b.Payload())), s2, Alloc(0x6FFEC)).framed
  {
    hide AllocFits, IndexOf, BlockAt, Listed;
    assert s1.chunks[0] == b;
    SettledAtMinimum(s1);
  }

  lemma SettledAtMinimum(s: State)
    requires |s.chunks| == 2 && s.chunks[0].addr == s.start && s.chunks[1].hole
    ensures SettledEnd(s, 0) == s.start + HEAP_MIN_SIZE
  {
  }

  /**
   * The whole heap as one block, then freed: line 311 reads the first bytes behind the heap.  That stops the kernel
   * if and only if nothing is mapped there or the bytes look like the header of a hole.
   */
  lemma WholeHeapFreed(w: World, s: State) returns (ss: seq<State>, p: int)
    requires Created(s)
    ensures var es := [Alloc(s.end - s.start - OVERHEAD), Free(p)];
            && Run(w.pages, ss, es) && |ss| == 3 && ss[0] == s && !HaltsAt(w, ss, es, 0)
            && (HaltsAt(w, ss, es, 1) <==>
                  s.end !in w.pages.present
                  || LooksLikeHole(Seen(RamAt(w.ram, ss, es, 1), w.pages, w.Zero(1), s.end, s.end), 0))
  {
    hide Inv, Step, HoleOnTop, AllocFits, Halts, RamNext, Supplied, LooksLikeHole, Seen;
    var b := Chunk(s.start, s.end - s.start, false);
    var size := s.end - s.start - OVERHEAD;
    p := b.Payload();
    OnlyHole(s);
    var s1 := PushAll(s, [], s.start, size);
    assert [] + [b] == [b];
    var s2 := PopAll(s1, b);
    ss := [s, s1, s2];
    var es := [Alloc(size), Free(p)];
    forall i | 0 <= i < |es| ensures Supplied(PagesAt(w.pages, ss, es, i), ss[i], es[i]) {
      GoesOn(RamAt(w.ram, ss, es, i), PagesAt(w.pages, ss, es, i), w.Zero(i), ss[i], es[i]);
    }
    GoesOn(RamAt(w.ram, ss, es, 0), PagesAt(w.pages, ss, es, 0), w.Zero(0), s, es[0]);
    assert PagesAt(w.pages, ss, es, 0) == w.pages;
    FittingPages(w.pages, s, size);
    assert PagesAt(w.pages, ss, es, 1) == w.pages;
    OnlyBlockHalts(RamAt(w.ram, ss, es, 1), w.pages, w.Zero(1), s1, b);
  }

  lemma FittingPages(ps: Pages, s: State, size: int)
    requires AllocFits(s, size)
    ensures PagesNext(ps, s, Alloc(size)) == ps
  {
    hide AllocFits;
  }

  lemma OnlyBlockHalts(m: seq<byte>, ps: Pages, zero: seq<byte>, s: State, b: Chunk)
    requires Inv(s) && s.chunks == [b] && !b.hole
    ensures Halts(m, ps, zero, s, Free(b.Payload())) <==>
            s.end !in ps.present || LooksLikeHole(Seen(m, ps, zero, s.end, s.end), 0)
  {
    hide Inv, Seen, LooksLikeHole;
  }

  lemma StaleSteps(s: State, b: Chunk) returns (s1: State, s2: State, s3: State, s4: State)
    requires Created(s) && s.end - s.start == KERNEL_HEAP && b == Chunk(s.start, HEAP_MIN_SIZE, false)
    ensures HoleOnTop(s, [], s.start) && HoleOnTop(s1, [b], b.End()) && HoleOnTop(s2, [], s.start)
    ensures Step(s, Alloc(0x6FFEC), s1) && Step(s1, Free(b.Payload()), s2)
    ensures Step(s2, Alloc(0x6FFEC), s3) && Step(s3, Free(b.Payload()), s4)
    ensures s1.start == s2.start == s3.start == s.start && s1.end == s.end && s2.end == s3.end == b.End()
    ensures Inv(s3) && s3.chunks == [b] && AllocFits(s, 0x6FFEC) && AllocFits(s2, 0x6FFEC)
    ensures BlockAt(s1, b.Payload()) && BlockIndex(s1, b.Payload()) == 0
    ensures forall m, ps, zero :: !Halts(m, ps, zero, s1, Free(b.Payload()))
  {
    hide Inv, Step, HoleOnTop, Halts, BlockAt, AllocFits;
    OnlyHole(s);
    s1 := Push(s, [], s.start, 0x6FFEC);
    assert [] + [b] == [b];
    s2 := Pop(s1, [], b);
    s3 := PushAll(s2, [], s.start, 0x6FFEC);
    s4 := PopAll(s3, b);
  }

  /** A block that is the whole heap is freed. */
  lemma PopAll(s: State, b: Chunk) returns (s': State)
    requires Inv(s) && s.chunks == [b] && !b.hole
    ensures Step(s, Free(b.Payload()), s')
  {
    hide Listed;
    assert b.addr == s.start;
    s' := FreeNext(s, 0);
  }

  lemma LastBlockHalts(m: seq<byte>, ps: Pages, zero: seq<byte>, s: State, b: Chunk)
    requires Inv(s) && s.chunks == [b] && !b.hole && LooksLikeHole(m, s.end) && s.end in ps.framed
    ensures Halts(m, ps, zero, s, Free(b.Payload()))
  {
    hide Inv, Seen, LooksLikeHole;
    EndAligned(s);
    SeenHeader(m, ps, zero, s.end, s.end) by { assert 0 <= s.end <= |m| - HEADER_SIZE by { LooksWithin(m, s.end); } }
  }

  lemma LooksWithin(m: seq<byte>, a: int)
    requires LooksLikeHole(m, a)
    ensures 0 <= a <= |m| - HEADER_SIZE
  {
  }

  /** The stale header stays where it is. */
  lemma StaleBytes(m: seq<byte>, s: State, s1: State, s2: State, b: Chunk)
    requires |m| == WORD && Inv(s) && b == Chunk(s.start, HEAP_MIN_SIZE, false)
    requires HoleOnTop(s, [], s.start) && HoleOnTop(s1, [b], b.End()) && HoleOnTop(s2, [], s.start)
    requires s.end == s1.end == s.start + KERNEL_HEAP && s1.start == s2.start == s.start && s2.end == b.End()
    ensures var m1 := RamNext(m, s, Alloc(0x6FFEC));
            var m2 := RamNext(m1, s1, Free(b.Payload()));
            LooksLikeHole(RamNext(m2, s2, Alloc(0x6FFEC)), b.End())
  {
    hide Inv, WithChunk, HeaderAt, FooterAt, Resized, SetWord, SetByte, LooksLikeHole, HoleOnTop, RamNext;
    var m1 := RamNext(m, s, Alloc(0x6FFEC));
    var m2 := RamNext(m1, s1, Free(b.Payload()));
    var rest := Chunk(b.End(), 0x10000, true);
    StartBounds(s);
    PushRam(m, s, [], s.start, 0x6FFEC);
    WithChunkReads(m, b);
    WithChunkReads(WithChunk(m, b), rest);
    assert Split(Chunk(s.start, KERNEL_HEAP, true), HEAP_MIN_SIZE) == [b, rest];
    assert m1 == WithChunk(WithChunk(m, b), rest);
    HoleLooks(m1, rest);
    PopRam(m1, s1, b);
    LooksStays(m1, m2, b.End(), b.addr);
    PushRam(m2, s2, [], s.start, 0x6FFEC);
    assert Split(Chunk(s.start, HEAP_MIN_SIZE, true), HEAP_MIN_SIZE) == [b];
    WithChunkReads(m2, b);
    LooksStays(m2, WithChunk(m2, b), b.End(), b.addr);
  }

  lemma StartBounds(s: State)
    requires Inv(s)
    ensures PAGE_SIZE <= s.start < s.end <= 0xFFFFF000
  {
  }

  lemma HoleLooks(m: seq<byte>, c: Chunk)
    requires |m| == WORD && HeaderAt(m, c) && c.hole
    ensures LooksLikeHole(m, c.addr)
  {
  }

  lemma LooksStays(m: seq<byte>, m': seq<byte>, a: int, lo: int)
    requires SameOutside(m, m', lo, a) && LooksLikeHole(m, a)
    ensures LooksLikeHole(m', a)
  {
    LoadFrame(m, m', a);
  }

  /** Freeing a block of the minimum size, with a hole behind it, writes nothing at or above the new end. */
  lemma PopRam(m: seq<byte>, s: State, b: Chunk)
    requires |m| == WORD && HoleOnTop(s, [b], b.End()) && !b.hole && b == Chunk(s.start, HEAP_MIN_SIZE, false)
    ensures |RamNext(m, s, Free(b.Payload()))| == WORD
    ensures SameOutside(m, RamNext(m, s, Free(b.Payload())), b.addr, b.End())
  {
    hide Listed, SetWord;
    StartBounds(s);
    IndexOfAt(s.chunks, s.start, s.end, 0);
    assert s.chunks[0] == b && s.chunks[1].hole;
    var m1 := SetByte(m, b.addr + 4, 1);
    SetWordFrame(m1, b.addr + 8, s.end - s.start);
    var m2 := SetWord(m1, b.addr + 8, s.end - s.start);
    var h := FreedHole(s, 0);
    assert h == Chunk(s.start, HEAP_MIN_SIZE, true);
    SizeResized(m2, h);
    assert RamNext(m, s, Free(b.Payload())) == Resized(m2, h);
  }

  // ---------------------------------------------------------------- states in which the next call is unsound

  /**
   * A small hole with a block behind it that reaches the end.  The next larger request has to expand the heap,
   * and the small hole is what grows.
   */
  lemma BlockBehindHole(w: World, s: State) returns (ss: seq<State>, a: int, rest: int)
    requires Created(s)
    ensures CleanRun(w, ss, [Alloc(8), Alloc(rest), Free(a)]) && |ss| == 4 && ss[0] == s
    ensures !AllocFits(ss[3], 100) && !GrowClean(ss[3])
  {
    hide Inv, Step, HoleOnTop, Halts, BlockAt, RamAt, PagesAt, AllocFits, Supplied;
    var x := Chunk(s.start, 28, false);
    a := x.Payload();
    rest := s.end - s.start - 48;
    OnlyHole(s);
    var s1 := Push(s, [], s.start, 8);
    assert [] + [x] == [x];
    var s2 := PushAll(s1, [x], s.start + 28, rest);
    var y := Chunk(s.start + 28, s.end - s.start - 28, false);
    assert s2.chunks == [x, y];
    var s3 := FreeFirst(s2, x, y);
    ss := [s, s1, s2, s3];
    var es := [Alloc(8), Alloc(rest), Free(a)];
    forall i | 0 <= i < |es|
      ensures !HaltsAt(w, ss, es, i) && Supplied(PagesAt(w.pages, ss, es, i), ss[i], es[i])
    {
      GoesOn(RamAt(w.ram, ss, es, i), PagesAt(w.pages, ss, es, i), w.Zero(i), ss[i], es[i]);
    }
  }

  lemma FreeFirst(s: State, x: Chunk, y: Chunk) returns (s': State)
    requires Inv(s) && s.chunks == [x, y] && !x.hole && !y.hole && x.size == 28
    ensures Step(s, Free(x.Payload()), s') && !AllocFits(s', 100) && !GrowClean(s')
    ensures forall m, ps, zero :: !Halts(m, ps, zero, s, Free(x.Payload()))
  {
    hide Listed;
    IndexOfAt(s.chunks, s.start, s.end, 0);
    assert s.chunks[0] == x && s.chunks[1] == y;
    NoneListed(s);
    s' := FreeNext(s, 0);
    FreeKeepsInv(s, 0);
    assert s'.chunks == [x.(hole := true), y];
    assert s'.index == [x.addr];
    IndexOfAt(s'.chunks, s'.start, s'.end, 0);
  }

  lemma NoneListed(s: State)
    requires Inv(s) && forall i :: 0 <= i < |s.chunks| ==> !s.chunks[i].hole
    ensures s.index == []
  {
    if s.index != [] {
      var j := Indexed(s, 0);
      assert false;
    }
  }

  /** A hole between blocks.  Freeing the block before it absorbs the hole and leaves its footer behind. */
  lemma HoleBetweenBlocks(w: World, s: State) returns (ss: seq<State>, a: int, b: int)
    requires Created(s)
    ensures CleanRun(w, ss, [Alloc(8), Alloc(8), Alloc(8), Free(b)]) && |ss| == 5 && ss[0] == s
    ensures BlockAt(ss[4], a) && !FreeClean(ss[4], BlockIndex(ss[4], a))
  {
    hide Inv, Step, HoleOnTop, Halts, BlockAt, RamAt, PagesAt, AllocFits, Supplied, FreeClean;
    var x, y, z := Chunk(s.start, 28, false), Chunk(s.start + 28, 28, false), Chunk(s.start + 56, 28, false);
    a, b := x.Payload(), y.Payload();
    OnlyHole(s);
    var s1 := Push(s, [], s.start, 8);
    assert [] + [x] == [x] && [x] + [y] == [x, y] && [x, y] + [z] == [x, y, z];
    var s2 := Push(s1, [x], s.start + 28, 8);
    var s3 := Push(s2, [x, y], s.start + 56, 8);
    var s4 := FreeSecond(s3, x, y, z);
    ss := [s, s1, s2, s3, s4];
    var es := [Alloc(8), Alloc(8), Alloc(8), Free(b)];
    forall i | 0 <= i < |es|
      ensures !HaltsAt(w, ss, es, i) && Supplied(PagesAt(w.pages, ss, es, i), ss[i], es[i])
    {
      GoesOn(RamAt(w.ram, ss, es, i), PagesAt(w.pages, ss, es, i), w.Zero(i), ss[i], es[i]);
    }
  }

  lemma FreeSecond(s: State, x: Chunk, y: Chunk, z: Chunk) returns (s': State)
    requires HoleOnTop(s, [x, y, z], z.End()) && !x.hole && !y.hole && !z.hole
    ensures Step(s, Free(y.Payload()), s') && BlockAt(s', x.Payload()) && !FreeClean(s', BlockIndex(s', x.Payload()))
    ensures forall m, ps, zero :: !Halts(m, ps, zero, s, Free(y.Payload()))
  {
    hide Listed, FreedIndex;
    IndexOfAt(s.chunks, s.start, s.end, 1);
    assert s.chunks[0] == x && s.chunks[1] == y && s.chunks[2] == z;
    s' := FreeNext(s, 1);
    FreeKeepsInv(s, 1);
    assert s'.chunks == [x, y.(hole := true), z, s.chunks[3]];
    IndexOfAt(s'.chunks, s'.start, s'.end, 0);
  }

  /** A block above the heap's minimum size, with the rest of the heap free.  Freeing it cuts its hole off. */
  lemma BlockAboveMinimum(w: World, s: State) returns (ss: seq<State>, b: int)
    requires Created(s) && s.end - s.start == KERNEL_HEAP
    ensures CleanRun(w, ss, [Alloc(0x6FFEC), Alloc(8)]) && |ss| == 3 && ss[0] == s
    ensures BlockAt(ss[2], b) && !FreeClean(ss[2], BlockIndex(ss[2], b))
  {
    hide Inv, Step, HoleOnTop, Halts, BlockAt, RamAt, PagesAt, AllocFits, Supplied, FreeClean;
    var x, y := Chunk(s.start, HEAP_MIN_SIZE, false), Chunk(s.start + HEAP_MIN_SIZE, 28, false);
    b := y.Payload();
    OnlyHole(s);
    var s1 := Push(s, [], s.start, 0x6FFEC);
    assert [] + [x] == [x] && [x] + [y] == [x, y];
    var s2 := Push(s1, [x], x.End(), 8);
    HighBlock(s2, x, y);
    ss := [s, s1, s2];
    var es := [Alloc(0x6FFEC), Alloc(8)];
    forall i | 0 <= i < |es|
      ensures !HaltsAt(w, ss, es, i) && Supplied(PagesAt(w.pages, ss, es, i), ss[i], es[i])
    {
      GoesOn(RamAt(w.ram, ss, es, i), PagesAt(w.pages, ss, es, i), w.Zero(i), ss[i], es[i]);
    }
  }

  lemma HighBlock(s: State, x: Chunk, y: Chunk)
    requires HoleOnTop(s, [x, y], y.End()) && !x.hole && !y.hole && y.addr == s.start + HEAP_MIN_SIZE
    ensures BlockAt(s, y.Payload()) && !FreeClean(s, BlockIndex(s, y.Payload()))
  {
    hide Listed;
    IndexOfAt(s.chunks, s.start, s.end, 1);
    assert s.chunks[0] == x && s.chunks[1] == y;
  }
}
