/** Properties of whole sequences of alloc() and free() calls on the kernel heap. */
module HeapRuns {
  import opened Ram
  import opened HeapSpec
  import opened HeapBytes
  import opened HeapPages

  /** A call of alloc() or free(), or a byte written by the owner of a block. */
  datatype Event = Alloc(size: int) | Free(p: int) | Write(a: int, v: byte)

  ghost predicate InPayload(s: State, a: int) {
    exists i :: 0 <= i < |s.chunks| && !s.chunks[i].hole && s.chunks[i].Payload() <= a < s.chunks[i].End() - FOOTER_SIZE
  }

  /** What a step does to the chunks: the conditions are those that keep the heap sound. */
  ghost predicate Step(s: State, e: Event, s': State) {
    && Inv(s)
    && match e
       case Alloc(size) =>
         && size >= 0 && (AllocFits(s, size) || (GrowClean(s) && GrownEnd(s, size + OVERHEAD) <= s.max))
         && s' == AllocNext(s, size)
       case Free(p) =>
         BlockAt(s, p) && FreeClean(s, BlockIndex(s, p)) && s' == FreeNext(s, BlockIndex(s, p))
       case Write(a, v) => InPayload(s, a) && s' == s
  }

  /** What a step does to memory. */
  ghost function RamNext(m: seq<byte>, s: State, e: Event): seq<byte> {
    match e
    case Alloc(size) => AllocRam(m, s, size)
    case Free(p) => if BlockAt(s, p) then FreedRam(m, s, BlockIndex(s, p)) else m
    case Write(a, v) => SetByte(m, a, v)
  }

  /** What a step does to the pages. */
  ghost function PagesNext(ps: Pages, s: State, e: Event): Pages {
    match e
    case Alloc(size) => AllocPages(ps, s, size)
    case Free(p) => if BlockAt(s, p) then FreedPages(ps, s, BlockIndex(s, p)) else ps
    case Write(_, _) => ps
  }

  /** Memory and pages at the start, and what frame 0 will hold at each event. */
  datatype World = World(ram: seq<byte>, pages: Pages, zero: seq<seq<byte>>) {
    function Zero(i: nat): (z: seq<byte>)
      ensures |z| == HEADER_SIZE
    {
      if i < |zero| && |zero[i]| == HEADER_SIZE then zero[i] else seq(HEADER_SIZE, _ => 0)
    }
  }

  /** Memory before event `i`. */
  ghost function RamAt(m: seq<byte>, ss: seq<State>, es: seq<Event>, i: nat): seq<byte>
    requires i <= |es| < |ss|
  {
    if i == 0 then m else RamNext(RamAt(m, ss, es, i - 1), ss[i - 1], es[i - 1])
  }

  /** The pages before event `i`. */
  ghost function PagesAt(ps: Pages, ss: seq<State>, es: seq<Event>, i: nat): Pages
    requires i <= |es| < |ss|
  {
    if i == 0 then ps else PagesNext(PagesAt(ps, ss, es, i - 1), ss[i - 1], es[i - 1])
  }

  /** free() stops the kernel: nothing is mapped behind the heap, or it takes what it sees there for a hole. */
  ghost predicate Halts(m: seq<byte>, ps: Pages, zero: seq<byte>, s: State, e: Event) {
    e.Free? && BlockAt(s, e.p) && HeaderBeyond(m, ps, zero, s, BlockIndex(s, e.p))
  }

  ghost predicate HaltsAt(w: World, ss: seq<State>, es: seq<Event>, i: nat)
    requires i < |es| < |ss|
  {
    Halts(RamAt(w.ram, ss, es, i), PagesAt(w.pages, ss, es, i), w.Zero(i), ss[i], es[i])
  }

  /** An allocation that has to expand the heap finds a frame for every new page. */
  ghost predicate Supplied(ps: Pages, s: State, e: Event) {
    e.Alloc? && !AllocFits(s, e.size) ==> CanFrameRange(ps, s.end, PageCount(s.end, GrownEnd(s, e.size + OVERHEAD)))
  }

  ghost predicate Run(ps: Pages, ss: seq<State>, es: seq<Event>) {
    && |ss| == |es| + 1 && Inv(ss[0])
    && (forall i :: 0 <= i < |es| ==> Step(ss[i], es[i], ss[i + 1]))
    && (forall i :: 0 <= i < |es| ==> Supplied(PagesAt(ps, ss, es, i), ss[i], es[i]))
  }

  /** A run in which no free() stops the kernel. */
  ghost predicate CleanRun(w: World, ss: seq<State>, es: seq<Event>) {
    Run(w.pages, ss, es) && forall i :: 0 <= i < |es| ==> !HaltsAt(w, ss, es, i)
  }

  lemma {:induction false} RunKeepsInv(w: World, ss: seq<State>, es: seq<Event>, i: nat)
    requires CleanRun(w, ss, es) && i < |ss|
    ensures Inv(ss[i])
  {
    if i > 0 {
      assert Step(ss[i - 1], es[i - 1], ss[i]);
      if es[i - 1].Free? {
        FreeKeepsInv(ss[i - 1], BlockIndex(ss[i - 1], es[i - 1].p));
      }
    }
  }

  /** Distinct blocks never share a byte. */
  lemma BlocksDisjoint(s: State, i: nat, j: nat)
    requires Inv(s) && i < |s.chunks| && j < |s.chunks| && i != j
    ensures s.chunks[i].End() <= s.chunks[j].addr || s.chunks[j].End() <= s.chunks[i].addr
  {
    if i < j {
      TiledOrder(s.chunks, s.start, s.end, i, j);
    } else {
      TiledOrder(s.chunks, s.start, s.end, j, i);
    }
  }

  // ---------------------------------------------------------------- blocks stay where they are

  lemma ReplaceKeeps(cs: seq<Chunk>, a: nat, b: nat, mid: seq<Chunk>, i: nat)
    requires a <= b <= |cs| && i < |cs| && !(a <= i < b)
    ensures cs[i] in Replace(cs, a, b, mid)
  {
  }

  lemma CarveKeepsBlock(s: State, need: int, pos: nat, b: Chunk)
    requires Inv(s) && pos < |s.index| && IndexOf(s.chunks, s.index[pos]) < |s.chunks|
    requires b in s.chunks && !b.hole
    ensures b in CarveNext(s, need, pos).chunks
  {
    hide Tiled, Listed, CarvedIndex, Split;
    var j := Indexed(s, pos);
    var i :| 0 <= i < |s.chunks| && s.chunks[i] == b;
    ReplaceKeeps(s.chunks, j, j + 1, Split(s.chunks[j], need), i);
  }

  lemma GrowKeepsBlock(s: State, need: int, b: Chunk)
    requires Inv(s) && GrowClean(s) && b in s.chunks && !b.hole
    ensures b in GrowNext(s, need).chunks
  {
  }

  /** One step leaves every block but the freed one in place, size included. */
  lemma StepKeepsBlock(s: State, e: Event, s': State, b: Chunk)
    requires Step(s, e, s') && b in s.chunks && !b.hole && e != Free(b.Payload())
    ensures b in s'.chunks
  {
    hide Inv, IndexOf, FirstFit, CarveNext, GrowNext, FreedIndex;
    match e
    case Alloc(size) =>
      var need := size + OVERHEAD;
      if AllocFits(s, size) {
        var pos := FirstFit(s.chunks, s.index, need);
        CarveKeepsInv(s, need, pos);
        CarveKeepsBlock(s, need, pos, b);
      } else {
        GrowKeepsInv(s, need);
        GrowKeepsBlock(s, need, b);
        var g := GrowNext(s, need);
        var pos := FirstFit(g.chunks, g.index, need);
        CarveKeepsInv(g, need, pos);
        CarveKeepsBlock(g, need, pos, b);
      }
    case Free(p) =>
      var k := BlockIndex(s, p);
      var i :| 0 <= i < |s.chunks| && s.chunks[i] == b;
      ReplaceKeeps(s.chunks, MergeLo(s.chunks, k), MergeHi(s.chunks, k), [s'.chunks[MergeLo(s.chunks, k)]], i);
    case Write(a, v) =>
  }

  /** In a run a block keeps its place and size until it is freed itself. */
  lemma {:induction false} RunKeepsBlock(w: World, ss: seq<State>, es: seq<Event>, i: nat, j: nat, b: Chunk)
    requires CleanRun(w, ss, es) && i <= j < |ss| && b in ss[i].chunks && !b.hole
    requires forall t :: i <= t < j ==> es[t] != Free(b.Payload())
    ensures b in ss[j].chunks
    decreases j
  {
    hide Step, Inv, Supplied, HaltsAt, PagesAt;
    if i < j {
      RunKeepsBlock(w, ss, es, i, j - 1, b);
      RunStep(w, ss, es, j - 1);
      StepKeepsBlock(ss[j - 1], es[j - 1], ss[j], b);
    }
  }

  /** The address alloc() returns heads a block of at least the requested size that was not there before. */
  lemma AllocatedBlock(s: State, size: int, s': State) returns (b: Chunk)
    requires Step(s, Alloc(size), s')
    ensures b in s'.chunks && !b.hole && b.Payload() == AllocAddress(s, size) && b.size >= size + OVERHEAD
    ensures b !in s.chunks
  {
    hide FirstFit, GrowNext, Listed, Tiled;
    var need := size + OVERHEAD;
    if AllocFits(s, size) {
      b := CarvedBlock(s, need, FirstFit(s.chunks, s.index, need));
      CarvedNew(s, need, FirstFit(s.chunks, s.index, need), b);
    } else {
      GrowKeepsInv(s, need);
      var g := GrowNext(s, need);
      b := CarvedBlock(g, need, FirstFit(g.chunks, g.index, need));
      CarvedNew(g, need, FirstFit(g.chunks, g.index, need), b);
      if b in s.chunks {
        GrowKeepsBlock(s, need, b);
      }
    }
  }

  lemma CarvedBlock(s: State, need: int, pos: nat) returns (b: Chunk)
    requires Inv(s) && OVERHEAD <= need && pos < |s.index| && SizeOf(s.chunks, s.index[pos]) >= need
    ensures IndexOf(s.chunks, s.index[pos]) < |s.chunks|
    ensures b in CarveNext(s, need, pos).chunks && !b.hole && b.addr == s.index[pos] && b.size >= need
  {
    hide Tiled, Listed, CarvedIndex;
    var j := Indexed(s, pos);
    b := Split(s.chunks[j], need)[0];
    assert CarveNext(s, need, pos).chunks[j] == b;
  }

  lemma CarvedNew(s: State, need: int, pos: nat, b: Chunk)
    requires Inv(s) && pos < |s.index| && b.addr == s.index[pos] && !b.hole
    ensures b !in s.chunks
  {
    var j := Indexed(s, pos);
    if b in s.chunks {
      var i :| 0 <= i < |s.chunks| && s.chunks[i] == b;
      BlocksDisjoint(s, i, j);
    }
  }

  // ---------------------------------------------------------------- last in, first out

  /** Blocks from the bottom up, and at most one hole, on top. */
  ghost predicate StackShaped(s: State) {
    |s.chunks| > 0 && forall i :: 0 <= i < |s.chunks| - 1 ==> !s.chunks[i].hole
  }

  ghost function Stack(s: State): seq<Chunk>
    requires StackShaped(s)
  {
    var n := |s.chunks|;
    if s.chunks[n - 1].hole then s.chunks[..n - 1] else s.chunks
  }

  /** Where the next block goes. */
  ghost function Top(s: State): int
    requires StackShaped(s)
  {
    if Stack(s) == [] then s.start else Stack(s)[|Stack(s)| - 1].End()
  }

  lemma TopOfHole(s: State)
    requires Inv(s) && StackShaped(s)
    ensures var n := |s.chunks|;
            if s.chunks[n - 1].hole then s.chunks[n - 1].addr == Top(s) && s.index == [Top(s)]
            else s.index == [] && s.end == Top(s)
  {
    var n := |s.chunks|;
    assert n > 1 ==> s.chunks[n - 2].End() == s.chunks[n - 1].addr;
    if |s.index| > 0 {
      var j := Indexed(s, 0);
      assert j == n - 1;
    }
    if |s.index| > 1 {
      var j := Indexed(s, 1);
      IndexedOnce(s, 0, 1);
    }
    if s.chunks[n - 1].hole {
      var pos := HoleListed(s, n - 1);
    }
  }

  lemma LifoCarve(s: State, need: int, pos: nat)
    requires Inv(s) && StackShaped(s) && OVERHEAD <= need && pos < |s.index| && SizeOf(s.chunks, s.index[pos]) >= need
    ensures IndexOf(s.chunks, s.index[pos]) < |s.chunks|
    ensures var s' := CarveNext(s, need, pos);
            && StackShaped(s') && |Stack(s')| == |Stack(s)| + 1 && Stack(s')[..|Stack(s)|] == Stack(s)
            && s.index[pos] == Top(s) && s'.start == s.start
            && Stack(s')[|Stack(s)|].addr == Top(s)
  {
    hide Listed, CarvedIndex;
    TopOfHole(s);
    var j := Indexed(s, pos);
    var n := |s.chunks|;
    assert j == n - 1;
    assert s.chunks[n..] == [];
    assert CarveNext(s, need, pos).chunks == s.chunks[..n - 1] + Split(s.chunks[n - 1], need);
  }

  lemma LifoGrow(s: State, need: int)
    requires Inv(s) && StackShaped(s) && GrowClean(s) && need >= OVERHEAD && GrownEnd(s, need) <= s.max
    ensures var g := GrowNext(s, need);
            StackShaped(g) && Stack(g) == Stack(s) && Top(g) == Top(s) && g.start == s.start
  {
    hide Listed;
    TopOfHole(s);
    var g, n := GrowNext(s, need), |s.chunks|;
    if s.index == [] {
      assert g.chunks[..n] == s.chunks;
    } else {
      assert g.chunks[..n - 1] == s.chunks[..n - 1];
    }
  }

  /** An allocation pushes a block, at the top. */
  lemma LifoAlloc(s: State, size: int, s': State)
    requires Step(s, Alloc(size), s') && StackShaped(s)
    ensures StackShaped(s') && |Stack(s')| == |Stack(s)| + 1 && Stack(s')[..|Stack(s)|] == Stack(s)
    ensures AllocAddress(s, size) == Top(s) + HEADER_SIZE == Stack(s')[|Stack(s)|].Payload()
  {
    hide Inv, FirstFit, CarveNext, GrowNext, StackShaped, Top, Stack;
    var need := size + OVERHEAD;
    if AllocFits(s, size) {
      LifoCarve(s, need, FirstFit(s.chunks, s.index, need));
    } else {
      GrowKeepsInv(s, need);
      LifoGrow(s, need);
      var g := GrowNext(s, need);
      LifoCarve(g, need, FirstFit(g.chunks, g.index, need));
    }
  }

  /** Freeing the topmost block pops it. */
  lemma LifoFree(s: State, p: int, s': State)
    requires Step(s, Free(p), s') && StackShaped(s) && Stack(s) != [] && Stack(s)[|Stack(s)| - 1].Payload() == p
    ensures StackShaped(s') && Stack(s') == Stack(s)[..|Stack(s)| - 1] && s'.start == s.start
  {
    hide Listed, FreedIndex, IndexOf;
    var d, k := |Stack(s)| - 1, BlockIndex(s, p);
    if k < d {
      BlocksDisjoint(s, k, d);
    }
    assert k == d;
    assert MergeLo(s.chunks, k) == k && MergeHi(s.chunks, k) == |s.chunks|;
    assert s'.chunks == s.chunks[..k] + [s'.chunks[k]];
  }

  /** Every free is of the most recent block still live. */
  ghost predicate LifoRun(w: World, ss: seq<State>, es: seq<Event>) {
    && CleanRun(w, ss, es) && StackShaped(ss[0])
    && forall i :: 0 <= i < |es| && es[i].Free? ==>
         StackShaped(ss[i]) && Stack(ss[i]) != [] && Stack(ss[i])[|Stack(ss[i])| - 1].Payload() == es[i].p
  }

  lemma {:induction false} LifoShape(w: World, ss: seq<State>, es: seq<Event>, i: nat)
    requires LifoRun(w, ss, es) && i < |ss|
    ensures StackShaped(ss[i]) && Inv(ss[i])
    decreases i
  {
    hide Inv, Step, Stack, StackShaped;
    RunKeepsInv(w, ss, es, i);
    if i > 0 {
      LifoShape(w, ss, es, i - 1);
      RunStep(w, ss, es, i - 1);
      LifoStep(ss[i - 1], es[i - 1], ss[i]);
    }
  }

  lemma LifoStep(s: State, e: Event, s': State)
    requires Step(s, e, s') && StackShaped(s)
    requires e.Free? ==> Stack(s) != [] && Stack(s)[|Stack(s)| - 1].Payload() == e.p
    ensures StackShaped(s') && s'.start == s.start
    ensures match e
            case Alloc(_) => |Stack(s')| == |Stack(s)| + 1 && Stack(s')[..|Stack(s)|] == Stack(s)
            case Free(_) => Stack(s') == Stack(s)[..|Stack(s)| - 1]
            case Write(_, _) => s' == s
  {
    hide Inv, StackShaped, Stack, CarveNext, GrowNext, FreeNext, IndexOf;
    match e
    case Alloc(size) => LifoAlloc(s, size, s'); AllocStart(s, size);
    case Free(p) => LifoFree(s, p, s');
    case Write(a, v) =>
  }

  lemma AllocStart(s: State, size: int)
    requires Inv(s) && size >= 0
    requires AllocFits(s, size) || (GrowClean(s) && GrownEnd(s, size + OVERHEAD) <= s.max)
    ensures AllocNext(s, size).start == s.start
  {
  }

  /** As long as the stack stays at least `d` high, its lowest `d` blocks do not change. */
  lemma {:induction false} LifoPrefix(w: World, ss: seq<State>, es: seq<Event>, i: nat, j: nat, d: nat)
    requires LifoRun(w, ss, es) && i <= j < |ss|
    requires |ss| == |es| + 1 && forall t :: i <= t <= j ==> StackShaped(ss[t]) && d <= |Stack(ss[t])|
    ensures Stack(ss[j])[..d] == Stack(ss[i])[..d] && ss[j].start == ss[i].start
    decreases j
  {
    hide Inv, Step, Stack, StackShaped, CleanRun;
    if i < j {
      LifoPrefix(w, ss, es, i, j - 1, d);
      RunStep(w, ss, es, j - 1);
      LifoStep(ss[j - 1], es[j - 1], ss[j]);
      var a, b := Stack(ss[j - 1]), Stack(ss[j]);
      if es[j - 1].Alloc? {
        assert b[..d] == b[..|a|][..d];
      } else if es[j - 1].Free? {
        assert b[..d] == a[..d];
      }
    }
  }

  lemma RunStep(w: World, ss: seq<State>, es: seq<Event>, i: nat)
    requires CleanRun(w, ss, es) && i < |es|
    ensures |ss| == |es| + 1 && Step(ss[i], es[i], ss[i + 1])
  {
    hide Step, Inv, Supplied, HaltsAt;
  }

  /**
   * Freeing back to an earlier depth restores the blocks and the place of the next one: whatever is
   * asked for next gets the address that the next request at the earlier time got.
   */
  lemma LifoRestores(w: World, ss: seq<State>, es: seq<Event>, i: nat, j: nat, size: int, size': int)
    requires LifoRun(w, ss, es) && i <= j < |es| && es[i] == Alloc(size) && es[j] == Alloc(size')
    requires StackShaped(ss[i]) && forall t :: i <= t <= j ==> StackShaped(ss[t]) && |Stack(ss[i])| <= |Stack(ss[t])|
    requires |Stack(ss[j])| == |Stack(ss[i])|
    ensures Stack(ss[j]) == Stack(ss[i]) && Top(ss[j]) == Top(ss[i])
    ensures Step(ss[i], Alloc(size), ss[i + 1]) && Step(ss[j], Alloc(size'), ss[j + 1])
    ensures AllocAddress(ss[j], size') == AllocAddress(ss[i], size)
  {
    hide Inv, Step, CleanRun, Stack, StackShaped;
    RunStep(w, ss, es, i);
    RunStep(w, ss, es, j);
    var d := |Stack(ss[i])|;
    LifoPrefix(w, ss, es, i, j, d);
    assert Stack(ss[j])[..d] == Stack(ss[j]) && Stack(ss[i])[..d] == Stack(ss[i]);
    LifoAlloc(ss[i], size, ss[i + 1]);
    LifoAlloc(ss[j], size', ss[j + 1]);
  }

  // ---------------------------------------------------------------- what a stack of blocks needs

  /**
   * Of the conditions on runs little is left for a stack of blocks: it can always be expanded, freeing the
   * topmost block keeps the heap sound if and only if that block starts low enough, and that free stops the
   * kernel if and only if no hole is on top, and nothing is mapped behind the heap or it looks like a hole there.
   */
  lemma LifoClean(m: seq<byte>, ps: Pages, zero: seq<byte>, s: State, k: nat)
    requires Inv(s) && StackShaped(s) && k == |Stack(s)| - 1
    ensures GrowClean(s)
    ensures k < |s.chunks| && (FreeClean(s, k) <==> s.chunks[k].addr - s.start <= HEAP_MIN_SIZE - OVERHEAD)
    ensures HeaderBeyond(m, ps, zero, s, k) <==>
            !s.chunks[|s.chunks| - 1].hole
            && (s.end !in ps.present || LooksLikeHole(Seen(m, ps, zero, s.end, s.end), 0))
  {
    hide Listed;
    TopOfHole(s);
    assert MergeLo(s.chunks, k) == k && MergeHi(s.chunks, k) == |s.chunks|;
  }

  /** One hole behind the stacked blocks. */
  ghost predicate HoleOnTop(s: State, blocks: seq<Chunk>, top: int) {
    && Inv(s) && s.chunks == blocks + [Chunk(top, s.end - top, true)]
    && forall i :: 0 <= i < |blocks| ==> !blocks[i].hole
  }

  /** A request that leaves room for another hole gets exactly what it asks for. */
  lemma Push(s: State, blocks: seq<Chunk>, top: int, size: nat) returns (s': State)
    requires HoleOnTop(s, blocks, top) && s.end - top >= size + 2 * OVERHEAD
    ensures Step(s, Alloc(size), s') && AllocFits(s, size) && s'.start == s.start && s'.end == s.end
    ensures HoleOnTop(s', blocks + [Chunk(top, size + OVERHEAD, false)], top + size + OVERHEAD)
  {
    hide Listed, IndexOf;
    var n, need := |blocks|, size + OVERHEAD;
    TopOfHole(s);
    IndexOfAt(s.chunks, s.start, s.end, n);
    assert FirstFit(s.chunks, s.index, need) == 0;
    s' := AllocNext(s, size);
    assert s'.chunks == s.chunks[..n] + Split(s.chunks[n], need) + s.chunks[n + 1..];
    assert s'.chunks == blocks + [Chunk(top, need, false)] + [Chunk(top + need, s.end - top - need, true)];
  }

  /** A request that leaves no room for another hole gets the whole hole. */
  lemma PushAll(s: State, blocks: seq<Chunk>, top: int, size: nat) returns (s': State)
    requires HoleOnTop(s, blocks, top) && size + OVERHEAD <= s.end - top < size + 2 * OVERHEAD
    ensures Step(s, Alloc(size), s') && AllocFits(s, size) && s'.start == s.start && s'.end == s.end
    ensures Inv(s') && s'.chunks == blocks + [Chunk(top, s.end - top, false)]
  {
    hide Listed, IndexOf;
    var n, need := |blocks|, size + OVERHEAD;
    TopOfHole(s);
    IndexOfAt(s.chunks, s.start, s.end, n);
    assert FirstFit(s.chunks, s.index, need) == 0;
    s' := AllocNext(s, size);
    assert s'.chunks == s.chunks[..n] + Split(s.chunks[n], need) + s.chunks[n + 1..];
  }

  /** What an allocation from the hole on top writes. */
  lemma PushRam(m: seq<byte>, s: State, blocks: seq<Chunk>, top: int, size: nat)
    requires HoleOnTop(s, blocks, top) && s.end - top >= size + OVERHEAD
    ensures RamNext(m, s, Alloc(size)) == CarvedRam(m, Chunk(top, s.end - top, true), size + OVERHEAD)
  {
    hide Listed, IndexOf, CarvedRam;
    TopOfHole(s);
    IndexOfAt(s.chunks, s.start, s.end, |blocks|);
    assert FirstFit(s.chunks, s.index, size + OVERHEAD) == 0;
  }

  /**
   * Freeing the topmost block, with a hole above it, leaves a hole in its place, up to the heap's minimum
   * size; this never stops the kernel.
   */
  lemma Pop(s: State, blocks: seq<Chunk>, b: Chunk) returns (s': State)
    requires !b.hole && HoleOnTop(s, blocks + [b], b.End()) && b.addr - s.start <= HEAP_MIN_SIZE - OVERHEAD
    ensures Step(s, Free(b.Payload()), s') && s'.start == s.start && s'.end == s.start + HEAP_MIN_SIZE
    ensures HoleOnTop(s', blocks, b.addr)
    ensures BlockAt(s, b.Payload()) && BlockIndex(s, b.Payload()) == |blocks|
    ensures forall m, ps, zero :: !Halts(m, ps, zero, s, Free(b.Payload()))
  {
    hide Listed, FreedIndex, IndexOf;
    var k := |blocks|;
    assert s.chunks[k] == b;
    assert Stack(s) == blocks + [b];
    LifoClean([], Pages({}, {}, {}, false, 0), [], s, k);
    IndexOfAt(s.chunks, s.start, s.end, k);
    FreeKeepsInv(s, k);
    s' := FreeNext(s, k);
    assert MergeLo(s.chunks, k) == k && MergeHi(s.chunks, k) == |s.chunks|;
    assert s'.chunks == s.chunks[..k] + [Chunk(b.addr, s'.end - b.addr, true)] + s.chunks[k + 2..];
    assert s.chunks[..k] == blocks && s.chunks[k + 2..] == [];
    assert BlockAt(s, b.Payload()) && BlockIndex(s, b.Payload()) == k;
  }

  /** The heap as create_heap leaves it: one hole. */
  ghost predicate Created(s: State) {
    Inv(s) && s.chunks == [Chunk(s.start, s.end - s.start, true)]
  }

  lemma OnlyHole(s: State)
    requires Created(s)
    ensures HoleOnTop(s, [], s.start) && s.end - s.start >= HEAP_MIN_SIZE
  {
  }

  /**
   * test_heap of src/kernel.c, on the heap as create_heap leaves it: b and c are allocated and freed in
   * reverse order, and d, though larger, lands on b.
   */
  lemma TestHeap(w: World, s: State) returns (ss: seq<State>, b: int, c: int)
    requires Created(s)
    ensures CleanRun(w, ss, [Alloc(8), Alloc(8), Free(c), Free(b), Alloc(12)]) && |ss| == 6 && ss[0] == s
    ensures Step(ss[0], Alloc(8), ss[1]) && Step(ss[1], Alloc(8), ss[2]) && Step(ss[4], Alloc(12), ss[5])
    ensures b == AllocAddress(ss[0], 8) && c == AllocAddress(ss[1], 8) == b + 28
    ensures AllocAddress(ss[4], 12) == b
  {
    hide Inv, Step, HoleOnTop, AllocFits, GrowClean, GrownEnd, Halts, RamAt, RamNext, PagesAt, Supplied;
    var x, y := Chunk(s.start, 28, false), Chunk(s.start + 28, 28, false);
    var s1, s2, s3, s4, s5 := TestSteps(s, x, y);
    b, c := x.Payload(), y.Payload();
    ss := [s, s1, s2, s3, s4, s5];
    PushedAddress(s, s1, [], s.start, 8);
    PushedAddress(s1, s2, [x], s.start + 28, 8);
    PushedAddress(s4, s5, [], s.start, 12);
    var es := [Alloc(8), Alloc(8), Free(c), Free(b), Alloc(12)];
    forall i | 0 <= i < |es|
      ensures !HaltsAt(w, ss, es, i) && Supplied(PagesAt(w.pages, ss, es, i), ss[i], es[i])
    {
      GoesOn(RamAt(w.ram, ss, es, i), PagesAt(w.pages, ss, es, i), w.Zero(i), ss[i], es[i]);
    }
  }

  /** Allocations do not halt, and only those that do not fit need frames. */
  lemma GoesOn(m: seq<byte>, ps: Pages, zero: seq<byte>, s: State, e: Event)
    ensures !e.Free? ==> !Halts(m, ps, zero, s, e)
    ensures !e.Alloc? || AllocFits(s, e.size) ==> Supplied(ps, s, e)
  {
    hide AllocFits;
  }

  lemma TestSteps(s: State, x: Chunk, y: Chunk) returns (s1: State, s2: State, s3: State, s4: State, s5: State)
    requires Created(s) && x == Chunk(s.start, 28, false) && y == Chunk(s.start + 28, 28, false)
    ensures HoleOnTop(s, [], s.start) && HoleOnTop(s1, [x], s.start + 28) && HoleOnTop(s4, [], s.start)
    ensures Step(s, Alloc(8), s1) && Step(s1, Alloc(8), s2) && Step(s2, Free(y.Payload()), s3)
    ensures Step(s3, Free(x.Payload()), s4) && Step(s4, Alloc(12), s5) && s4.start == s1.start == s.start
    ensures AllocFits(s, 8) && AllocFits(s1, 8) && AllocFits(s4, 12)
    ensures forall m, ps, zero :: !Halts(m, ps, zero, s2, Free(y.Payload())) && !Halts(m, ps, zero, s3, Free(x.Payload()))
  {
    hide Inv, Step, HoleOnTop, Halts, BlockAt, AllocFits;
    OnlyHole(s);
    s1 := Push(s, [], s.start, 8);
    assert [] + [x] == [x];
    s2 := Push(s1, [x], s.start + 28, 8);
    s3 := Pop(s2, [x], y);
    s4 := Pop(s3, [], x);
    s5 := Push(s4, [], s.start, 12);
  }

  lemma PushedAddress(s: State, s': State, blocks: seq<Chunk>, top: int, size: nat)
    requires HoleOnTop(s, blocks, top) && Step(s, Alloc(size), s')
    ensures AllocAddress(s, size) == top + HEADER_SIZE
  {
    hide Listed, FirstFit, IndexOf;
    LifoAlloc(s, size, s');
    TopOfHole(s);
  }
}
