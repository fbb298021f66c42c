/** The order of the hole index, what find_smallest_hole finds in it, and how often alloc() has to expand. */
module HeapSearch {
  import opened Ram
  import opened HeapSpec
  import opened HeapBytes
  import opened HeapRuns

  /** Smallest hole first. */
  ghost predicate Sorted(cs: seq<Chunk>, idx: seq<int>) {
    forall p, q :: 0 <= p < q < |idx| ==> SizeOf(cs, idx[p]) <= SizeOf(cs, idx[q])
  }

  // ---------------------------------------------------------------- what the search returns

  /** -1 exactly when no hole is large enough, whatever the order of the index. */
  lemma NoneFits(s: State, need: int)
    requires Inv(s)
    ensures FirstFit(s.chunks, s.index, need) == |s.index| <==>
            forall j :: 0 <= j < |s.chunks| && s.chunks[j].hole ==> s.chunks[j].size < need
  {
    var r := FirstFit(s.chunks, s.index, need);
    if r < |s.index| {
      var j := Indexed(s, r);
    } else {
      forall j | 0 <= j < |s.chunks| && s.chunks[j].hole ensures s.chunks[j].size < need {
        var pos := HoleListed(s, j);
        IndexOfAt(s.chunks, s.start, s.end, j);
      }
    }
  }

  /** In a sorted index the first fit is a best fit. */
  lemma SmallestFits(s: State, need: int)
    requires Inv(s) && Sorted(s.chunks, s.index) && FirstFit(s.chunks, s.index, need) < |s.index|
    ensures var a := s.index[FirstFit(s.chunks, s.index, need)];
            && SizeOf(s.chunks, a) >= need
            && forall j :: 0 <= j < |s.chunks| && s.chunks[j].hole && s.chunks[j].size >= need ==>
                 SizeOf(s.chunks, a) <= s.chunks[j].size
  {
    var r := FirstFit(s.chunks, s.index, need);
    forall j | 0 <= j < |s.chunks| && s.chunks[j].hole && s.chunks[j].size >= need
      ensures SizeOf(s.chunks, s.index[r]) <= s.chunks[j].size
    {
      var pos := HoleListed(s, j);
      IndexOfAt(s.chunks, s.start, s.end, j);
      assert pos >= r;
    }
  }

  // ---------------------------------------------------------------- when the order is kept

  lemma PlacedSorted(cs: seq<Chunk>, idx: seq<int>, a: int)
    requires Sorted(cs, idx)
    ensures Sorted(cs, Placed(cs, idx, a))
  {
    hide SizeOf;
    var k, out := PlaceOf(cs, idx, a), Placed(cs, idx, a);
    forall p, q | 0 <= p < q < |out| ensures SizeOf(cs, out[p]) <= SizeOf(cs, out[q]) {
      var p', q' := if p < k then p else p - 1, if q < k then q else q - 1;
      assert p != k ==> out[p] == idx[p'];
      assert q != k ==> out[q] == idx[q'];
      assert p == k ==> out[p] == a;
      assert q == k ==> out[q] == a;
    }
  }

  lemma RemovedSorted(cs: seq<Chunk>, idx: seq<int>, pos: nat)
    requires Sorted(cs, idx) && pos < |idx|
    ensures Sorted(cs, idx[..pos] + idx[pos + 1..])
  {
  }

  /** The order depends only on the sizes of the listed holes. */
  lemma SortedFrame(cs: seq<Chunk>, cs': seq<Chunk>, idx: seq<int>)
    requires Sorted(cs, idx) && forall a :: a in idx ==> SizeOf(cs', a) == SizeOf(cs, a)
    ensures Sorted(cs', idx)
  {
  }

  /** A chunk outside the replaced stretch keeps its size. */
  lemma SizeKept(s: State, s': State, a: nat, b: nat, mid: seq<Chunk>, i: nat)
    requires Inv(s) && Inv(s') && a <= b <= |s.chunks| && s'.chunks == Replace(s.chunks, a, b, mid)
    requires i < |s.chunks| && !(a <= i < b)
    ensures SizeOf(s'.chunks, s.chunks[i].addr) == SizeOf(s.chunks, s.chunks[i].addr) == s.chunks[i].size
  {
    hide Listed, IndexOf, SizeOf;
    var i' := if i < a then i else i - b + a + |mid|;
    assert s'.chunks[i'] == s.chunks[i];
    IndexOfAt(s.chunks, s.start, s.end, i);
    IndexOfAt(s'.chunks, s'.start, s'.end, i');
  }

  /** An allocation that needs no expansion keeps the index sorted. */
  lemma AllocKeepsSorted(s: State, size: int)
    requires Inv(s) && size >= 0 && AllocFits(s, size) && Sorted(s.chunks, s.index)
    ensures Sorted(AllocNext(s, size).chunks, AllocNext(s, size).index)
  {
    hide Listed, FirstFit, Split, SizeOf, Sorted, Inv, IndexOf;
    var need := size + OVERHEAD;
    var pos := FirstFit(s.chunks, s.index, need);
    CarveKeepsInv(s, need, pos);
    CarveKeepsSorted(s, need, pos);
  }

  lemma CarveKeepsSorted(s: State, need: int, pos: nat)
    requires Inv(s) && pos < |s.index| && Sorted(s.chunks, s.index) && IndexOf(s.chunks, s.index[pos]) < |s.chunks|
    requires Inv(CarveNext(s, need, pos))
    ensures Sorted(CarveNext(s, need, pos).chunks, CarveNext(s, need, pos).index)
  {
    hide Split, SizeOf, Sorted, Inv, IndexOf, Placed;
    var j := Indexed(s, pos);
    var s' := CarveNext(s, need, pos);
    var rest := s.index[..pos] + s.index[pos + 1..];
    forall a | a in rest ensures SizeOf(s'.chunks, a) == SizeOf(s.chunks, a) {
      var q :| 0 <= q < |s.index| && q != pos && s.index[q] == a;
      var i := Indexed(s, q);
      if q < pos {
        IndexedOnce(s, q, pos);
      } else {
        IndexedOnce(s, pos, q);
      }
      SizeKept(s, s', j, j + 1, Split(s.chunks[j], need), i);
    }
    RemovedSorted(s.chunks, s.index, pos);
    SortedFrame(s.chunks, s'.chunks, rest);
    PlacedSorted(s'.chunks, rest, s.chunks[j].addr + need);
  }

  lemma WithoutSorted(cs: seq<Chunk>, idx: seq<int>, a: int) returns (pos: nat)
    requires Sorted(cs, idx) && a in idx
    ensures Sorted(cs, Without(idx, a))
    ensures pos < |idx| && idx[pos] == a && Without(idx, a) == idx[..pos] + idx[pos + 1..]
  {
    pos := WithoutPosition(idx, a);
    RemovedSorted(cs, idx, pos);
  }

  lemma {:induction false} WithoutPosition(idx: seq<int>, a: int) returns (pos: nat)
    requires a in idx
    ensures pos < |idx| && idx[pos] == a && Without(idx, a) == idx[..pos] + idx[pos + 1..]
  {
    if idx[0] == a {
      pos := 0;
    } else {
      var p := WithoutPosition(idx[1..], a);
      pos := p + 1;
      assert idx[..pos] + idx[pos + 1..] == [idx[0]] + (idx[1..][..p] + idx[1..][p + 1..]);
    }
  }

  /** A listed hole other than the ones merged away keeps its size. */
  lemma FreeKeepsSize(s: State, k: nat, a: int)
    requires Inv(s) && k < |s.chunks| && !s.chunks[k].hole && FreeClean(s, k) && Inv(FreeNext(s, k))
    requires a in s.index && (HoleAfter(s.chunks, k) ==> a != s.chunks[k + 1].addr)
    requires HoleBefore(s.chunks, k) ==> a != s.chunks[k - 1].addr
    ensures SizeOf(FreeNext(s, k).chunks, a) == SizeOf(s.chunks, a)
  {
    hide SizeOf, Inv, IndexOf, FreedIndex;
    var pos :| 0 <= pos < |s.index| && s.index[pos] == a;
    var i := Indexed(s, pos);
    var s' := FreeNext(s, k);
    var lo, hi := MergeLo(s.chunks, k), MergeHi(s.chunks, k);
    SizeKept(s, s', lo, hi, [s'.chunks[lo]], i);
  }

  /** A free that does not merge to the left keeps the index sorted. */
  lemma FreeKeepsSorted(s: State, k: nat)
    requires Inv(s) && k < |s.chunks| && !s.chunks[k].hole && FreeClean(s, k)
    requires !HoleBefore(s.chunks, k) && Sorted(s.chunks, s.index)
    ensures Sorted(FreeNext(s, k).chunks, FreeNext(s, k).index)
  {
    hide SizeOf, Sorted, Inv, IndexOf, Placed;
    FreeKeepsInv(s, k);
    var s' := FreeNext(s, k);
    var rest := if HoleAfter(s.chunks, k) then Without(s.index, s.chunks[k + 1].addr) else s.index;
    var gone := 0;
    if HoleAfter(s.chunks, k) {
      var pos := HoleListed(s, k + 1);
      gone := WithoutSorted(s.chunks, s.index, s.chunks[k + 1].addr);
    }
    forall a | a in rest ensures SizeOf(s'.chunks, a) == SizeOf(s.chunks, a) {
      if HoleAfter(s.chunks, k) {
        RestOthers(s, gone, a);
      }
      FreeKeepsSize(s, k, a);
    }
    SortedFrame(s.chunks, s'.chunks, rest);
    PlacedSorted(s'.chunks, rest, s.chunks[k].addr);
  }

  lemma RestOthers(s: State, pos: nat, a: int)
    requires Inv(s) && pos < |s.index| && a in s.index[..pos] + s.index[pos + 1..]
    ensures a in s.index && a != s.index[pos]
  {
    var q :| 0 <= q < |s.index| && q != pos && s.index[q] == a;
    if q < pos {
      IndexedOnce(s, q, pos);
    } else {
      IndexedOnce(s, pos, q);
    }
  }

  /** Hole `q` of the index is the one behind chunk `k`. */
  predicate Absorbed(s: State, k: nat, q: nat)
    requires q < |s.index|
  {
    HoleAfter(s.chunks, k) && s.index[q] == s.chunks[k + 1].addr
  }

  /** Apart from the absorbed one, no hole listed after position `pos` is smaller than `size`, and none before it is larger. */
  ghost predicate Surrounded(s: State, k: nat, pos: nat, size: int) {
    && (forall q :: 0 <= q < |s.index| && q > pos && !Absorbed(s, k, q) ==> size <= SizeOf(s.chunks, s.index[q]))
    && (forall q :: 0 <= q < |s.index| && q < pos && !Absorbed(s, k, q) ==> SizeOf(s.chunks, s.index[q]) <= size)
  }

  /**
   * A merge to the left changes the left hole in place and does not move it in the index.  The order
   * holds afterwards exactly when the new size, that of FreedHole, still fits between the holes listed around it.
   */
  lemma LeftMergeOrder(s: State, k: nat) returns (pos: nat)
    requires Inv(s) && k < |s.chunks| && !s.chunks[k].hole && FreeClean(s, k)
    requires HoleBefore(s.chunks, k) && Sorted(s.chunks, s.index)
    ensures pos < |s.index| && s.index[pos] == s.chunks[k - 1].addr
    ensures Sorted(FreeNext(s, k).chunks, FreeNext(s, k).index) <==> Surrounded(s, k, pos, FreedHole(s, k).size)
  {
    hide SizeOf, Inv, IndexOf, Placed, Sorted, Bounded, Surrounded;
    FreeKeepsInv(s, k);
    var s' := FreeNext(s, k);
    var rest, size := s'.index, FreedHole(s, k).size;
    pos := HoleListed(s, k - 1);
    var gone := |s.index|;
    if HoleAfter(s.chunks, k) {
      var p := HoleListed(s, k + 1);
      gone := WithoutSorted(s.chunks, s.index, s.chunks[k + 1].addr);
    }
    var pos' := Moved(s, s', k, pos, gone);
    IndexOfInv(s', k - 1);
    forall q | 0 <= q < |rest| && q != pos'
      ensures SizeOf(s'.chunks, rest[q]) == SizeOf(s.chunks, rest[q])
    {
      if q < pos' {
        IndexedOnce(s', q, pos');
      } else {
        IndexedOnce(s', pos', q);
      }
      if HoleAfter(s.chunks, k) {
        RestOthers(s, gone, rest[q]);
      }
      FreeKeepsSize(s, k, rest[q]);
    }
    OrderAround(s.chunks, s'.chunks, rest, pos', size);
    SurroundedRest(s, k, rest, pos, pos', gone, size);
  }

  /** Where the left hole is listed after the free. */
  lemma Moved(s: State, s': State, k: nat, pos: nat, gone: nat) returns (pos': nat)
    requires Inv(s) && k < |s.chunks| && HoleBefore(s.chunks, k) && FreeClean(s, k) && s' == FreeNext(s, k)
    requires pos < |s.index| && s.index[pos] == s.chunks[k - 1].addr
    requires if HoleAfter(s.chunks, k)
             then gone < |s.index| && s.index[gone] == s.chunks[k + 1].addr && s'.index == s.index[..gone] + s.index[gone + 1..]
             else gone == |s.index| && s'.index == s.index
    ensures pos' == (if pos < gone then pos else pos - 1) && pos != gone && pos' < |s'.index|
    ensures s'.index[pos'] == s.index[pos] == s'.chunks[k - 1].addr
    ensures s'.chunks[k - 1].size == FreedHole(s, k).size
  {
    hide Listed, FreedIndex, Tiled;
    if HoleAfter(s.chunks, k) {
      TiledOrder(s.chunks, s.start, s.end, k - 1, k + 1);
      SomeSize(s, k - 1);
    }
    var idx := s.index;
    pos' := if pos < gone then pos else pos - 1;
    if HoleAfter(s.chunks, k) {
      assert (idx[..gone] + idx[gone + 1..])[pos'] == idx[pos];
    }
    assert MergeLo(s.chunks, k) == k - 1;
    assert s'.chunks[k - 1].addr == s.chunks[k - 1].addr;
  }

  lemma SomeSize(s: State, i: nat)
    requires Inv(s) && i < |s.chunks|
    ensures s.chunks[i].size > 0
  {
  }

  /** Leaving the absorbed hole out of the list is leaving it out of the comparison. */
  lemma SurroundedRest(s: State, k: nat, rest: seq<int>, pos: nat, pos': nat, gone: nat, size: int)
    requires Inv(s) && pos < |s.index| && pos != gone && pos' == (if pos < gone then pos else pos - 1)
    requires if HoleAfter(s.chunks, k)
             then gone < |s.index| && s.index[gone] == s.chunks[k + 1].addr && rest == s.index[..gone] + s.index[gone + 1..]
             else gone == |s.index| && rest == s.index
    ensures Bounded(s.chunks, rest, pos', size) <==> Surrounded(s, k, pos, size)
  {
    hide SizeOf, Inv;
    forall q | 0 <= q < |s.index| && q != gone ensures !Absorbed(s, k, q) {
      if HoleAfter(s.chunks, k) {
        if q < gone {
          IndexedOnce(s, q, gone);
        } else {
          IndexedOnce(s, gone, q);
        }
      }
    }
    if Bounded(s.chunks, rest, pos', size) {
      forall q | 0 <= q < |s.index| && q != pos && !Absorbed(s, k, q)
        ensures if q > pos then size <= SizeOf(s.chunks, s.index[q]) else SizeOf(s.chunks, s.index[q]) <= size
      {
        assert rest[if q < gone then q else q - 1] == s.index[q];
      }
    }
    if Surrounded(s, k, pos, size) {
      forall q | 0 <= q < |rest| && q != pos'
        ensures if q > pos' then size <= SizeOf(s.chunks, rest[q]) else SizeOf(s.chunks, rest[q]) <= size
      {
        var p := if q < gone then q else q + 1;
        assert rest[q] == s.index[p] && !Absorbed(s, k, p);
      }
    }
  }

  ghost predicate Bounded(cs: seq<Chunk>, idx: seq<int>, pos: nat, size: int) {
    && (forall q :: 0 <= q < |idx| && q < pos ==> SizeOf(cs, idx[q]) <= size)
    && (forall q :: 0 <= q < |idx| && q > pos ==> size <= SizeOf(cs, idx[q]))
  }

  lemma IndexOfInv(s: State, i: nat)
    requires Inv(s) && i < |s.chunks|
    ensures SizeOf(s.chunks, s.chunks[i].addr) == s.chunks[i].size
  {
    IndexOfAt(s.chunks, s.start, s.end, i);
  }

  /** A list that is sorted but for one entry that has changed. */
  lemma OrderAround(cs: seq<Chunk>, cs': seq<Chunk>, idx: seq<int>, pos: nat, size: int)
    requires Sorted(cs, idx) && pos < |idx| && SizeOf(cs', idx[pos]) == size
    requires forall q :: 0 <= q < |idx| && q != pos ==> SizeOf(cs', idx[q]) == SizeOf(cs, idx[q])
    ensures Sorted(cs', idx) <==> Bounded(cs, idx, pos, size)
  {
  }

  /** A heap in which that order is lost. */
  lemma LeftMergeLosesOrder() returns (s: State, k: nat)
    ensures Inv(s) && k < |s.chunks| && !s.chunks[k].hole && FreeClean(s, k) && HoleBefore(s.chunks, k)
    ensures Sorted(s.chunks, s.index) && !Sorted(FreeNext(s, k).chunks, FreeNext(s, k).index)
  {
    var b := 0x10000;
    var cs := [Chunk(b, 32, true), Chunk(b + 32, 64, false), Chunk(b + 96, 32, false), Chunk(b + 128, 48, true),
               Chunk(b + 176, 0x70000 - 176, false)];
    s, k := State(b, b + 0x70000, b + 0x80000, cs, [b, b + 128]), 1;
    ExampleListed(cs, b);
    IndexOfAt(cs, b, b + 0x70000, 0);
    IndexOfAt(cs, b, b + 0x70000, 3);
    assert Inv(s);
    assert SizeOf(cs, s.index[0]) == 32 && SizeOf(cs, s.index[1]) == 48;
    var pos := LeftMergeOrder(s, 1);
    assert FreeNext(s, 1).index == s.index;
    assert FreeNext(s, 1).chunks[0].size == 96;
  }

  lemma ExampleListed(cs: seq<Chunk>, b: int)
    requires |cs| == 5 && cs[0].hole && !cs[1].hole && !cs[2].hole && cs[3].hole && !cs[4].hole
    requires cs[0].addr == b && cs[3].addr == b + 128
    ensures Listed(cs, [b, b + 128])
  {
    forall a ensures Count([b, b + 128], a) == HoleCount(cs, a) {
      assert [b, b + 128] == [b] + [b + 128];
      CountConcat([b], [b + 128], a);
      assert cs == cs[..1] + cs[1..3] + cs[3..4] + cs[4..];
      HoleCountConcat(cs[..1] + cs[1..3] + cs[3..4], cs[4..], a);
      HoleCountConcat(cs[..1] + cs[1..3], cs[3..4], a);
      HoleCountConcat(cs[..1], cs[1..3], a);
      HoleCountMember(cs[1..3], a);
    }
  }

  /**
   * An expansion enlarges the hole at the end in place as well.  It happens when no hole fits, and leaves
   * the order as it should be exactly when that hole was the last one listed.
   */
  lemma GrowOrder(s: State, need: int)
    requires Inv(s) && Sorted(s.chunks, s.index) && need >= OVERHEAD && GrowClean(s) && GrownEnd(s, need) <= s.max
    requires FirstFit(s.chunks, s.index, need) == |s.index| > 0
    ensures |s.chunks| > 0
    ensures Sorted(GrowNext(s, need).chunks, GrowNext(s, need).index)
            <==> s.index[|s.index| - 1] == s.chunks[|s.chunks| - 1].addr
  {
    hide Inv, SizeOf, IndexOf, FirstFit;
    var pos := GrownHole(s, need);
    var g, n := GrowNext(s, need), |s.chunks|;
    GrownEndFits(s, need);
    assert g.index == s.index && g.chunks[n - 1].size > need;
    forall q | 0 <= q < |s.index| && q != pos
      ensures SizeOf(g.chunks, s.index[q]) == SizeOf(s.chunks, s.index[q]) < need
    {
      GrowKeepsSize(s, need, pos, q);
      NotFitting(s, need, q);
    }
    OrderAround(s.chunks, g.chunks, s.index, pos, g.chunks[n - 1].size);
  }

  lemma NotFitting(s: State, need: int, q: nat)
    requires FirstFit(s.chunks, s.index, need) == |s.index| && q < |s.index|
    ensures SizeOf(s.chunks, s.index[q]) < need
  {
  }

  /** The other holes keep their size. */
  lemma GrowKeepsSize(s: State, need: int, pos: nat, q: nat)
    requires Inv(s) && need >= OVERHEAD && GrowClean(s) && GrownEnd(s, need) <= s.max && s.index != []
    requires pos < |s.index| && s.index[pos] == s.chunks[|s.chunks| - 1].addr && q < |s.index| && q != pos
    ensures SizeOf(GrowNext(s, need).chunks, s.index[q]) == SizeOf(s.chunks, s.index[q])
  {
    hide Listed, IndexOf, SizeOf;
    GrowKeepsInv(s, need);
    var g := GrowNext(s, need);
    if q < pos {
      IndexedOnce(s, q, pos);
    } else {
      IndexedOnce(s, pos, q);
    }
    var j := Indexed(s, q);
    assert g.chunks[j] == s.chunks[j];
    IndexOfInv(s, j);
    IndexOfInv(g, j);
  }

  // ---------------------------------------------------------------- whole runs

  /** No step expands the heap or merges to the left. */
  ghost predicate OrderlyRun(w: World, ss: seq<State>, es: seq<Event>) {
    && CleanRun(w, ss, es) && Sorted(ss[0].chunks, ss[0].index)
    && forall i :: 0 <= i < |es| ==>
         match es[i]
         case Write(_, _) => true
         case Alloc(size) => AllocFits(ss[i], size)
         case Free(p) => BlockAt(ss[i], p) && !HoleBefore(ss[i].chunks, BlockIndex(ss[i], p))
  }

  lemma {:induction false} RunKeepsSorted(w: World, ss: seq<State>, es: seq<Event>, i: nat)
    requires OrderlyRun(w, ss, es) && i < |ss|
    ensures Inv(ss[i]) && Sorted(ss[i].chunks, ss[i].index)
  {
    hide Inv, Sorted, AllocFits, FreeClean, HoleBefore, IndexOf, AllocNext, FreeNext;
    RunKeepsInv(w, ss, es, i);
    if i > 0 {
      RunKeepsSorted(w, ss, es, i - 1);
      var s := ss[i - 1];
      assert Step(s, es[i - 1], ss[i]);
      match es[i - 1]
      case Write(_, _) =>
      case Alloc(size) => AllocKeepsSorted(s, size);
      case Free(p) => FreeKeepsSorted(s, BlockIndex(s, p));
    }
  }

  /** In such a run every allocation is a best fit: it goes into a smallest hole of those large enough. */
  lemma RunAllocatesBestFit(w: World, ss: seq<State>, es: seq<Event>, i: nat, size: int)
    requires OrderlyRun(w, ss, es) && i < |es| && es[i] == Alloc(size)
    ensures Step(ss[i], es[i], ss[i + 1])
    ensures var s, at := ss[i], AllocAddress(ss[i], size) - HEADER_SIZE;
            && at in s.index && SizeOf(s.chunks, at) >= size + OVERHEAD
            && forall j :: 0 <= j < |s.chunks| && s.chunks[j].hole && s.chunks[j].size >= size + OVERHEAD ==>
                 SizeOf(s.chunks, at) <= s.chunks[j].size
  {
    hide Inv, Sorted, FreeClean, HoleBefore, IndexOf, AllocNext, FreeNext, SizeOf;
    RunKeepsSorted(w, ss, es, i);
    assert AllocFits(ss[i], size);
    SmallestFits(ss[i], size + OVERHEAD);
  }

  // ---------------------------------------------------------------- page-aligned requests

  /** The hole that grows: the one at the end, or the one made there. */
  lemma GrownHole(s: State, need: int) returns (pos: nat)
    requires Inv(s) && need >= OVERHEAD && GrowClean(s) && GrownEnd(s, need) <= s.max
    ensures |s.chunks| > 0
    ensures var g := GrowNext(s, need); var n := |g.chunks|;
            && Inv(g) && GrowClean(g) && g.index != [] && g.chunks[n - 1].hole
            && g.chunks[n - 1].size >= GrownEnd(s, need) - s.end
            && (s.index != [] ==> n == |s.chunks| && s.chunks[n - 1].hole
                                  && g.chunks[n - 1].size == s.chunks[n - 1].size + GrownEnd(s, need) - s.end)
            && pos < |g.index| && g.index[pos] == g.chunks[n - 1].addr
            && SizeOf(g.chunks, g.index[pos]) == g.chunks[n - 1].size
  {
    hide Listed, FirstFit, IndexOf, SizeOf;
    GrowKeepsInv(s, need);
    var g := GrowNext(s, need);
    pos := HoleListed(g, |g.chunks| - 1);
    IndexOfAt(g.chunks, g.start, g.end, |g.chunks| - 1);
  }

  /**
   * One expansion is always enough for a request without alignment.  The holes need not be sound; the highest may
   * reach `slack` bytes past the end, as long as growing it does not pass 2^32.
   */
  lemma UnalignedExpandsOnce(m: seq<byte>, s: State, m': seq<byte>, s': State, need: int, slack: nat)
    requires Searchable(m, s) && Below(m, s, slack) && s.max + slack < WORD
    requires need >= OVERHEAD && GrownEnd(s, need) <= s.max && GrowthOf(m, s, m', s', need)
    ensures Searchable(m', s') && Below(m', s', slack) && SomeFits(m', s'.index, need, false)
  {
    hide Searchable, Below, GrowthOf, SizeField, GrownEnd;
    var q := GrowthFits(m, s, m', s', need, slack);
    SizePositive(m, if s.index == [] then 0 else s.index[q]);
    assert FitsAt(m', s'.index, q, need, false);
  }

  lemma SizePositive(m: seq<byte>, a: int)
    ensures SizeField(m, a) >= 0
  {
  }

  /** Two expansions are always enough for a page-aligned one, as long as no size reaches 2 GB. */
  lemma AlignedExpandsTwice(m: seq<byte>, s: State, m': seq<byte>, s': State, m'': seq<byte>, s'': State, need: int, slack: nat)
    requires Searchable(m, s) && Below(m, s, slack) && OVERHEAD <= need < 0x8000_0000 && s.max + slack - s.start < 0x8000_0000
    requires GrownEnd(s, need) <= s.max && GrowthOf(m, s, m', s', need) && s.max + slack < WORD
    requires GrownEnd(s', need) <= s.max && GrowthOf(m', s', m'', s'', need)
    ensures Searchable(m'', s'') && SomeFits(m'', s''.index, need, true)
  {
    hide GrowthOf, SizeField, Searchable, Below, GrownEnd;
    GrowthStays(m, s, m', s', need);
    GrowthStays(m', s', m'', s'', need);
    var q := GrowthFits(m, s, m', s', need, slack);
    var q' := GrowthFits(m', s', m'', s'', need, slack);
    assert s'.index[q'] == s'.index[q];
    SizePositive(m, if s.index == [] then 0 else s.index[q]);
    BelowLimit(m'', s'', q', slack);
    assert FitsAt(m'', s''.index, q', need, true);
  }

  lemma GrowthStays(m: seq<byte>, s: State, m': seq<byte>, s': State, need: int)
    requires GrowthOf(m, s, m', s', need)
    ensures s'.max == s.max && s'.start == s.start && s'.end == GrownEnd(s, need) && s'.index != []
    ensures if s.index == [] then s'.index == [s.end] else s'.index == s.index
  {
  }

  lemma BelowLimit(m: seq<byte>, s: State, q: nat, slack: nat)
    requires Searchable(m, s) && Below(m, s, slack) && Highest(s.index, q)
    ensures s.index[q] >= s.start && SizeField(m, s.index[q]) <= s.max + slack - s.start
  {
  }

  /** In a heap without holes one expansion is enough exactly when the request ends within 12 bytes of a page. */
  lemma AlignedExpandsOnce(m: seq<byte>, s: State, m': seq<byte>, s': State, need: int)
    requires Searchable(m, s) && OVERHEAD <= need < 0x8000_0000 && s.max - s.start < 0x8000_0000 && s.index == []
    requires GrownEnd(s, need) <= s.max && GrowthOf(m, s, m', s', need) && s.end % PAGE_SIZE == 0
    ensures SomeFits(m', s'.index, need, true) <==> need % PAGE_SIZE <= HEADER_SIZE
  {
    hide GrowthOf, SizeField, Searchable, Below;
    GrowthStays(m, s, m', s', need);
    NoHoleBelow(m, s);
    SearchBounds(m, s, need);
    var q := GrowthFits(m, s, m', s', need, 0);
    assert q == 0 && s'.index == [s.end];
    BelowLimit(m', s', 0, 0);
    FreshDelta(m, s, need);
    assert FitsAt(m', s'.index, 0, need, true) <==> need % PAGE_SIZE <= HEADER_SIZE;
  }

  lemma NoHoleBelow(m: seq<byte>, s: State)
    requires Searchable(m, s) && s.index == []
    ensures Below(m, s, 0) && s.max < WORD
  {
  }

  lemma FreshDelta(m: seq<byte>, s: State, need: int)
    requires Searchable(m, s) && need >= OVERHEAD && s.end % PAGE_SIZE == 0
    ensures GrownEnd(s, need) - s.end == need / PAGE_SIZE * PAGE_SIZE + PAGE_SIZE
    ensures AlignOffset(s.end) == PAGE_SIZE - HEADER_SIZE
  {
    Rounded(s.end - s.start, need);
    AlignedEnd(s.end);
  }

  lemma Rounded(length: int, need: int)
    requires length % PAGE_SIZE == 0
    ensures RoundedUp(length + need) == length + RoundedUp(need)
  {
  }

  lemma AlignedEnd(a: int)
    requires a % PAGE_SIZE == 0
    ensures AlignOffset(a) == PAGE_SIZE - HEADER_SIZE
  {
  }
}
