/** The bytes of the kernel heap: headers and footers, what they have to say, and what each operation writes. */
module HeapBytes {
  import opened Ram
  import opened HeapSpec
  import opened HeapPages

  const HEAP_MAGIC: word := 0x123890AB

  function PageAligned(a: int): int {
    if a % PAGE_SIZE == 0 then a else a / PAGE_SIZE * PAGE_SIZE + PAGE_SIZE
  }

  // ---------------------------------------------------------------- reading headers and footers

  /** header_t of chunk `c`: magic at +0, is_hole at +4 (one byte), size at +8. */
  ghost predicate HeaderAt(m: seq<byte>, c: Chunk)
    requires |m| == WORD
  {
    && 0 <= c.addr <= WORD - HEADER_SIZE
    && Load(m, c.addr) == HEAP_MAGIC
    && m[c.addr + 4] == (if c.hole then 1 else 0)
    && Load(m, c.addr + 8) == c.size
  }

  /** footer_t in the last 8 bytes of chunk `c`: magic, then the address of the header. */
  ghost predicate FooterAt(m: seq<byte>, c: Chunk)
    requires |m| == WORD
  {
    && FOOTER_SIZE <= c.End() <= WORD
    && Load(m, c.End() - 8) == HEAP_MAGIC
    && Load(m, c.End() - 4) == c.addr
  }

  /** Memory describes the chunks of `s`.  Only a lone hole may lack its footer. */
  ghost predicate Layout(m: seq<byte>, s: State) {
    && |m| == WORD
    && 8 <= s.start <= WORD && Load(m, s.start - 8) != HEAP_MAGIC
    && (forall i :: 0 <= i < |s.chunks| ==> HeaderAt(m, s.chunks[i]))
    && (forall i :: 0 <= i < |s.chunks| && (|s.chunks| > 1 || !s.chunks[i].hole) ==> FooterAt(m, s.chunks[i]))
  }

  /** What less_than reads: the size field of the header at `a`. */
  function SizeField(m: seq<byte>, a: int): int {
    if 0 <= a <= |m| - HEADER_SIZE then Load(m, a + 8) else 0
  }

  /** What free() takes for the header of a hole. */
  predicate LooksLikeHole(m: seq<byte>, a: int) {
    0 <= a <= |m| - HEADER_SIZE && Load(m, a) == HEAP_MAGIC && m[a + 4] != 0
  }

  lemma HeaderFrame(m: seq<byte>, m': seq<byte>, c: Chunk)
    requires |m| == WORD && Same(m, m', c.addr, c.addr + HEADER_SIZE) && HeaderAt(m, c)
    ensures HeaderAt(m', c)
  {
  }

  lemma FooterFrame(m: seq<byte>, m': seq<byte>, c: Chunk)
    requires |m| == WORD && Same(m, m', c.End() - FOOTER_SIZE, c.End()) && FooterAt(m, c)
    ensures FooterAt(m', c)
  {
  }

  /** Rewriting only the bytes of the chunks a .. b-1 leaves the description of all other chunks alone. */
  lemma LayoutReplace(m: seq<byte>, m': seq<byte>, s: State, s': State, a: nat, b: nat, mid: seq<Chunk>, z: int)
    requires Inv(s) && Layout(m, s) && s'.start == s.start && a < b <= |s.chunks|
    requires s'.chunks == Replace(s.chunks, a, b, mid)
    requires SameOutside(m, m', s.chunks[a].addr, z) && (z == s.chunks[b - 1].End() || b == |s.chunks|)
    requires forall c :: c in mid ==> HeaderAt(m', c) && FooterAt(m', c)
    ensures Layout(m', s')
  {
    hide HeaderAt, FooterAt;
    TiledWithin(s.chunks, s.start, s.end, a);
    forall i | 0 <= i < |s'.chunks| && !(a <= i < a + |mid|)
      ensures HeaderAt(m', s'.chunks[i]) && FooterAt(m', s'.chunks[i])
    {
      var j := if i < a then i else i - a - |mid| + b;
      var c := s.chunks[j];
      assert s'.chunks[i] == c;
      assert c.size >= OVERHEAD;
      if j < a {
        TiledOrder(s.chunks, s.start, s.end, j, a);
      } else {
        TiledOrder(s.chunks, s.start, s.end, b - 1, j);
      }
      HeaderFrame(m, m', c);
      FooterFrame(m, m', c);
    }
    forall i | a <= i < a + |mid| ensures HeaderAt(m', s'.chunks[i]) && FooterAt(m', s'.chunks[i]) {
      assert s'.chunks[i] == mid[i - a] && mid[i - a] in mid;
    }
  }

  /** Blocks outside the rewritten stretch keep every byte. */
  ghost predicate Undisturbed(m: seq<byte>, m': seq<byte>, blocks: set<Chunk>) {
    forall c :: c in blocks ==> Same(m, m', c.addr, c.End())
  }

  ghost function Blocks(cs: seq<Chunk>): set<Chunk> {
    set c | c in cs && !c.hole
  }

  lemma BlocksReplace(cs: seq<Chunk>, a: nat, b: nat, mid: seq<Chunk>)
    requires a <= b <= |cs|
    ensures Blocks(cs) == Blocks(cs[..a]) + Blocks(cs[a..b]) + Blocks(cs[b..])
    ensures Blocks(Replace(cs, a, b, mid)) == Blocks(cs[..a]) + Blocks(mid) + Blocks(cs[b..])
  {
  }

  lemma SizeFieldAt(m: seq<byte>, s: State, a: int)
    requires Inv(s) && Layout(m, s) && a in s.index
    ensures SizeField(m, a) == SizeOf(s.chunks, a) && 0 <= a <= WORD - HEADER_SIZE
  {
    var pos :| 0 <= pos < |s.index| && s.index[pos] == a;
    var j := Indexed(s, pos);
    assert HeaderAt(m, s.chunks[j]);
  }

  lemma PlacedMembers(cs: seq<Chunk>, idx: seq<int>, a: int)
    ensures |Placed(cs, idx, a)| == |idx| + 1
    ensures forall x :: x in idx || x == a ==> x in Placed(cs, idx, a)
  {
  }

  ghost predicate SizesKnown(m: seq<byte>, cs: seq<Chunk>, idx: seq<int>, a: int) {
    forall x :: x in idx || x == a ==> SizeField(m, x) == SizeOf(cs, x)
  }

  lemma SizesAgree(m: seq<byte>, s: State)
    requires Inv(s) && Layout(m, s)
    ensures forall a :: a in s.index ==> SizeField(m, a) == SizeOf(s.chunks, a)
  {
    forall a | a in s.index ensures SizeField(m, a) == SizeOf(s.chunks, a) {
      SizeFieldAt(m, s, a);
    }
  }

  lemma OthersUndisturbed(m: seq<byte>, m': seq<byte>, s: State, a: nat, b: nat, z: int)
    requires Inv(s) && a < b <= |s.chunks|
    requires SameOutside(m, m', s.chunks[a].addr, z) && (z == s.chunks[b - 1].End() || b == |s.chunks|)
    ensures Undisturbed(m, m', Blocks(s.chunks[..a]) + Blocks(s.chunks[b..]))
  {
    forall c | c in Blocks(s.chunks[..a]) + Blocks(s.chunks[b..]) ensures Same(m, m', c.addr, c.End()) {
      if c in s.chunks[..a] {
        var i :| 0 <= i < a && s.chunks[i] == c;
        TiledOrder(s.chunks, s.start, s.end, i, a);
      } else {
        var i :| b <= i < |s.chunks| && s.chunks[i] == c;
        TiledOrder(s.chunks, s.start, s.end, b - 1, i);
      }
    }
  }

  /**
   * A listed address heads a proper hole: header with a size that covers header and footer, inside
   * the heap, footer pointing back (unless it is the whole heap), and no block inside it.
   */
  ghost predicate HoleSound(m: seq<byte>, h: int, start: int, end: int, blocks: set<Chunk>)
    requires |m| == WORD
  {
    var c := Chunk(h, SizeField(m, h), true);
    && HeaderAt(m, c) && c.size >= OVERHEAD && start <= h && c.End() <= end
    && (FooterAt(m, c) || (h == start && c.End() == end))
    && forall b :: b in blocks ==> b.End() <= h || c.End() <= b.addr
  }

  ghost predicate HolesSound(m: seq<byte>, idx: seq<int>, start: int, end: int, blocks: set<Chunk>)
    requires |m| == WORD
  {
    forall h :: h in idx ==> HoleSound(m, h, start, end, blocks)
  }

  lemma LayoutSound(m: seq<byte>, s: State)
    requires Inv(s) && Layout(m, s)
    ensures HolesSound(m, s.index, s.start, s.end, Blocks(s.chunks))
  {
    hide HeaderAt, FooterAt, Listed, SizeField;
    forall h | h in s.index ensures HoleSound(m, h, s.start, s.end, Blocks(s.chunks)) {
      var pos :| 0 <= pos < |s.index| && s.index[pos] == h;
      var j := Indexed(s, pos);
      SizeFieldAt(m, s, h);
      var c := s.chunks[j];
      assert HeaderAt(m, c) && (|s.chunks| > 1 ==> FooterAt(m, c));
      TiledWithin(s.chunks, s.start, s.end, j);
      forall b | b in Blocks(s.chunks) ensures b.End() <= h || c.End() <= b.addr {
        var i :| 0 <= i < |s.chunks| && s.chunks[i] == b;
        if i < j {
          TiledOrder(s.chunks, s.start, s.end, i, j);
        } else {
          TiledOrder(s.chunks, s.start, s.end, j, i);
        }
      }
    }
  }

  // ---------------------------------------------------------------- writing headers and footers

  lemma CarveSound(m: seq<byte>, m': seq<byte>, s: State, need: int, pos: nat, j: nat)
    requires Inv(s) && Layout(m, s) && pos < |s.index| && SizeOf(s.chunks, s.index[pos]) >= need >= OVERHEAD
    requires j == IndexOf(s.chunks, s.index[pos]) < |s.chunks| && |m'| == WORD && s.chunks[j].hole
    requires SameOutside(m, m', s.chunks[j].addr, s.chunks[j].End())
    requires forall c :: c in Split(s.chunks[j], need) ==> HeaderAt(m', c) && FooterAt(m', c)
    ensures var s' := CarveNext(s, need, pos);
            && Inv(s') && Layout(m', s')
            && CarvedShape(m', s, s', need, pos, s.chunks[j])
  {
    hide HeaderAt, FooterAt, Split, SizeField, SameOutside, Listed, Tiled, NoTouchingHoles, Placed, SizeOf;
    var s' := CarveNext(s, need, pos);
    CarveKeepsInv(s, need, pos);
    LayoutReplace(m, m', s, s', j, j + 1, Split(s.chunks[j], need), s.chunks[j].End());
    SizesAgree(m', s');
    PlacedMembers(s'.chunks, s.index[..pos] + s.index[pos + 1..], s.chunks[j].addr + need);
  }

  /** How the state after a carve depends on whether a hole is left over. */
  ghost predicate CarvedShape(m': seq<byte>, s: State, s': State, need: int, pos: nat, c: Chunk)
    requires pos < |s.index|
  {
    var rest := s.index[..pos] + s.index[pos + 1..];
    && s' == s.(chunks := s'.chunks, index := s'.index)
    && if c.size - need < OVERHEAD then s'.index == rest
       else s'.index == Placed(s'.chunks, rest, c.addr + need) && SizesKnown(m', s'.chunks, rest, c.addr + need)
  }

  /** Rewriting a hole disturbs no block. */
  lemma HoleUndisturbed(m: seq<byte>, m': seq<byte>, s: State, j: nat)
    requires Inv(s) && j < |s.chunks| && s.chunks[j].hole
    requires SameOutside(m, m', s.chunks[j].addr, s.chunks[j].End())
    ensures Undisturbed(m, m', Blocks(s.chunks))
  {
    OthersUndisturbed(m, m', s, j, j + 1, s.chunks[j].End());
    forall c | c in Blocks(s.chunks) ensures c in Blocks(s.chunks[..j]) + Blocks(s.chunks[j + 1..]) {
      var i :| 0 <= i < |s.chunks| && s.chunks[i] == c;
      if i < j {
        assert c == s.chunks[..j][i];
      } else {
        assert c == s.chunks[j + 1..][i - j - 1];
      }
    }
  }

  ghost predicate GrownBytes(m: seq<byte>, m': seq<byte>, s: State, s': State)
    requires |m'| == WORD
  {
    && |s'.chunks| > 0
    && var h := s'.chunks[|s'.chunks| - 1];
       SameOutside(m, m', h.addr, s'.end) && HeaderAt(m', h) && FooterAt(m', h)
  }

  /** Growing in the clean cases: behind a heap without holes, or in the hole at its end. */
  lemma GrowSound(m: seq<byte>, m': seq<byte>, s: State, need: int)
    requires Inv(s) && Layout(m, s) && GrowClean(s) && need >= OVERHEAD && GrownEnd(s, need) <= s.max && |m'| == WORD
    requires GrownBytes(m, m', s, GrowNext(s, need))
    ensures Inv(GrowNext(s, need)) && Layout(m', GrowNext(s, need))
    ensures Blocks(GrowNext(s, need).chunks) == Blocks(s.chunks)
    ensures Undisturbed(m, m', Blocks(s.chunks))
  {
    hide *;
    GrowKeepsInv(s, need);
    MidwayBounds(s, need);
    if s.index == [] {
      GrowSoundAppend(m, m', s, need);
    } else {
      GrowSoundLast(m, m', s, need);
    }
  }

  lemma GrowSoundAppend(m: seq<byte>, m': seq<byte>, s: State, need: int)
    requires Inv(s) && Layout(m, s) && |s.chunks| > 0 && GrowClean(s) && s.index == [] && |m'| == WORD
    requires GrownBytes(m, m', s, GrowNext(s, need))
    ensures Layout(m', GrowNext(s, need))
    ensures Blocks(GrowNext(s, need).chunks) == Blocks(s.chunks)
    ensures Undisturbed(m, m', Blocks(s.chunks))
  {
    hide HeaderAt, FooterAt, Listed, Layout, Inv, Tiled;
    var s', n := GrowNext(s, need), |s.chunks|;
    NoHoles(s);
    LayoutAppend(m, m', s, s');
    forall c | c in Blocks(s.chunks) ensures Same(m, m', c.addr, c.End()) {
      var i :| 0 <= i < n && s.chunks[i] == c;
      InvWithin(s, i);
    }
    assert s'.chunks[n].hole;
  }

  lemma InvWithin(s: State, i: nat)
    requires Inv(s) && i < |s.chunks|
    ensures s.start <= s.chunks[i].addr && s.chunks[i].End() <= s.end
  {
    TiledWithin(s.chunks, s.start, s.end, i);
  }

  lemma GrowSoundLast(m: seq<byte>, m': seq<byte>, s: State, need: int)
    requires Inv(s) && Layout(m, s) && |s.chunks| > 0 && GrowClean(s) && s.index != [] && |m'| == WORD
    requires GrownBytes(m, m', s, GrowNext(s, need))
    ensures Layout(m', GrowNext(s, need))
    ensures Blocks(GrowNext(s, need).chunks) == Blocks(s.chunks)
    ensures Undisturbed(m, m', Blocks(s.chunks))
  {
    hide HeaderAt, FooterAt, Listed, Layout, Inv, Tiled, SameOutside;
    var s', n := GrowNext(s, need), |s.chunks|;
    var h := s'.chunks[n - 1];
    assert s'.chunks == Replace(s.chunks, n - 1, n, [h]);
    LayoutReplace(m, m', s, s', n - 1, n, [h], s'.end);
    OthersUndisturbed(m, m', s, n - 1, n, s'.end);
    BlocksReplace(s.chunks, n - 1, n, [h]);
    assert s.chunks[n - 1..n] == [s.chunks[n - 1]];
    assert Blocks(s.chunks[n..]) == {} == Blocks(s.chunks[n - 1..n]) == Blocks([h]);
  }

  lemma NoHoles(s: State)
    requires Inv(s) && s.index == []
    ensures forall i :: 0 <= i < |s.chunks| ==> !s.chunks[i].hole
  {
    forall i | 0 <= i < |s.chunks| ensures !s.chunks[i].hole {
      if s.chunks[i].hole {
        var pos := HoleListed(s, i);
      }
    }
  }

  lemma LayoutAppend(m: seq<byte>, m': seq<byte>, s: State, s': State)
    requires Inv(s) && Layout(m, s) && |s.chunks| > 0 && !s.chunks[0].hole && s'.start == s.start && |s'.chunks| == |s.chunks| + 1
    requires s'.chunks[..|s.chunks|] == s.chunks
    requires SameOutside(m, m', s.end, s'.end)
    requires HeaderAt(m', s'.chunks[|s.chunks|]) && FooterAt(m', s'.chunks[|s.chunks|])
    ensures Layout(m', s')
  {
    hide HeaderAt, FooterAt;
    forall i | 0 <= i < |s.chunks| ensures HeaderAt(m', s'.chunks[i]) && FooterAt(m', s'.chunks[i]) {
      var c := s.chunks[i];
      assert s'.chunks[i] == s'.chunks[..|s.chunks|][i] == c;
      TiledWithin(s.chunks, s.start, s.end, i);
      HeaderFrame(m, m', c);
      FooterFrame(m, m', c);
    }
  }

  /** Growing a hole with a block behind it makes the hole reach into that block. */
  lemma GrowUnsound(m': seq<byte>, s: State, delta: int, pos: nat, end: int)
    requires Inv(s) && !GrowClean(s) && pos < |s.index| && delta > 0 && |m'| == WORD
    requires var j := IndexOf(s.chunks, s.index[pos]);
             j < |s.chunks| && s.chunks[j].hole && SizeField(m', s.index[pos]) == s.chunks[j].size + delta
    ensures !HolesSound(m', s.index, s.start, end, Blocks(s.chunks))
  {
    var h, j := s.index[pos], IndexOf(s.chunks, s.index[pos]);
    var b := s.chunks[j + 1];
    assert s.chunks[j].End() == b.addr;
    assert b in Blocks(s.chunks);
    assert !HoleSound(m', h, s.start, end, Blocks(s.chunks));
  }

  lemma HeaderOf(m: seq<byte>, s: State, j: nat)
    requires Layout(m, s) && j < |s.chunks|
    ensures HeaderAt(m, s.chunks[j])
  {
  }

  lemma HeaderSize(m: seq<byte>, c: Chunk)
    requires |m| == WORD && HeaderAt(m, c)
    ensures SizeField(m, c.addr) == c.size
  {
  }

  lemma FooterWritten(m: seq<byte>, c: Chunk)
    requires |m| == WORD && FOOTER_SIZE <= c.End() <= WORD
    requires Load(m, c.End() - 8) == HEAP_MAGIC && Load(m, c.End() - 4) == c.addr
    ensures FooterAt(m, c)
  {
  }

  lemma MidwayBounds(s: State, need: int)
    requires Inv(s) && need >= OVERHEAD && GrownEnd(s, need) <= s.max
    ensures 0 <= s.start < s.end && s.end + OVERHEAD < GrownEnd(s, need) <= s.max < WORD && |s.chunks| > 0
    ensures forall i :: 0 <= i < |s.chunks| ==> s.chunks[i].size >= OVERHEAD
  {
  }

  lemma HighestIsLast(s: State, pos: nat)
    requires Inv(s) && pos < |s.index| && s.chunks[|s.chunks| - 1].hole
    requires forall q :: 0 <= q < |s.index| ==> s.index[q] <= s.index[pos]
    ensures s.index[pos] == s.chunks[|s.chunks| - 1].addr && IndexOf(s.chunks, s.index[pos]) == |s.chunks| - 1
  {
    var last := |s.chunks| - 1;
    var q := HoleListed(s, last);
    var j := Indexed(s, pos);
    if j < last {
      TiledOrder(s.chunks, s.start, s.end, j, last);
    }
  }

  lemma InitialLayout(m: seq<byte>, m': seq<byte>, s: State)
    requires |m| == WORD && 8 <= s.start < s.end < WORD && s.chunks == [Chunk(s.start, s.end - s.start, true)]
    requires forall k :: s.start - 8 <= k < s.start ==> m[k] == 0
    requires SameOutside(m, m', s.start, s.start + HEADER_SIZE) && HeaderAt(m', s.chunks[0])
    ensures Layout(m', s) && SizeField(m', s.start) == SizeOf(s.chunks, s.start)
    ensures Placed(s.chunks, [], s.start) == [s.start]
  {
  }

  lemma InitialInv(s: State)
    requires PAGE_SIZE <= s.start < s.end <= s.max <= 0xFFFFF000 && s.start % PAGE_SIZE == 0 && s.end % PAGE_SIZE == 0
    requires s.end - s.start >= HEAP_MIN_SIZE
    requires s.chunks == [Chunk(s.start, s.end - s.start, true)] && s.index == [s.start]
    ensures Inv(s)
  {
  }

  // ---------------------------------------------------------------- freeing

  /** What free() has done before it looks at the heap's end (lines 291-324). */
  ghost predicate MergedBytes(m: seq<byte>, m': seq<byte>, s: State, k: nat)
    requires |m'| == WORD && k < |s.chunks|
  {
    var c := Merged(s.chunks, k);
    && SameOutside(m, m', c.addr, c.End()) && HeaderAt(m', c)
    && FOOTER_SIZE <= c.End() <= WORD && Load(m', c.End() - 8) == HEAP_MAGIC
    && Load(m', c.End() - 4) == (if HoleAfter(s.chunks, k) then s.chunks[k + 1].addr else c.addr)
  }

  function Rest(s: State, k: nat): seq<int>
    requires k < |s.chunks|
  {
    if HoleAfter(s.chunks, k) then Without(s.index, s.chunks[k + 1].addr) else s.index
  }

  lemma {:induction false} WithoutFirst(idx: seq<int>, a: int, pos: nat)
    requires pos < |idx| && idx[pos] == a && forall q :: 0 <= q < pos ==> idx[q] != a
    ensures Without(idx, a) == idx[..pos] + idx[pos + 1..]
  {
    if pos > 0 {
      WithoutFirst(idx[1..], a, pos - 1);
      assert idx[..pos] + idx[pos + 1..] == [idx[0]] + (idx[1..][..pos - 1] + idx[1..][pos..]);
    }
  }

  /** Freeing in the clean cases. */
  lemma FreeSound(m: seq<byte>, m': seq<byte>, s: State, k: nat)
    requires Inv(s) && Layout(m, s) && k < |s.chunks| && !s.chunks[k].hole && FreeClean(s, k) && |m'| == WORD
    requires SameOutside(m, m', Merged(s.chunks, k).addr, Merged(s.chunks, k).End())
    requires var h := FreeNext(s, k).chunks[MergeLo(s.chunks, k)]; HeaderAt(m', h) && FooterAt(m', h)
    ensures Inv(FreeNext(s, k)) && Layout(m', FreeNext(s, k))
    ensures Blocks(FreeNext(s, k).chunks) == Blocks(s.chunks) - {s.chunks[k]}
    ensures Undisturbed(m, m', Blocks(s.chunks) - {s.chunks[k]})
  {
    hide HeaderAt, FooterAt, Listed, Layout, Inv, Tiled, SameOutside, FreedIndex;
    var lo, hi, s' := MergeLo(s.chunks, k), MergeHi(s.chunks, k), FreeNext(s, k);
    FreeKeepsInv(s, k);
    LayoutReplace(m, m', s, s', lo, hi, [s'.chunks[lo]], Merged(s.chunks, k).End());
    OthersUndisturbed(m, m', s, lo, hi, Merged(s.chunks, k).End());
    FreedBlocks(s, k);
  }

  lemma FreedBlocks(s: State, k: nat)
    requires Inv(s) && k < |s.chunks| && !s.chunks[k].hole
    ensures var cs, lo, hi := s.chunks, MergeLo(s.chunks, k), MergeHi(s.chunks, k);
            && Blocks(cs) - {cs[k]} == Blocks(cs[..lo]) + Blocks(cs[hi..])
            && Blocks(FreeNext(s, k).chunks) == Blocks(cs) - {cs[k]}
  {
    hide Listed, FreedIndex, Inv, Blocks;
    var cs, lo, hi := s.chunks, MergeLo(s.chunks, k), MergeHi(s.chunks, k);
    var h := FreeNext(s, k).chunks[lo];
    BlocksReplace(cs, lo, hi, [h]);
    NoBlocks(h);
    MergedBlocks(cs, k);
    BlockOnce(s, k, lo, hi);
  }

  lemma NoBlocks(h: Chunk)
    requires h.hole
    ensures Blocks([h]) == {}
  {
  }

  lemma MergedBlocks(cs: seq<Chunk>, k: nat)
    requires k < |cs| && !cs[k].hole
    ensures Blocks(cs[MergeLo(cs, k)..MergeHi(cs, k)]) == {cs[k]}
  {
  }

  lemma BlockOnce(s: State, k: nat, lo: nat, hi: nat)
    requires Inv(s) && lo <= k < hi <= |s.chunks|
    ensures s.chunks[k] !in Blocks(s.chunks[..lo]) && s.chunks[k] !in Blocks(s.chunks[hi..])
  {
    var cs := s.chunks;
    forall i | 0 <= i < |cs| && i != k ensures cs[i] != cs[k] {
      if i < k {
        TiledOrder(cs, s.start, s.end, i, k);
      } else {
        TiledOrder(cs, s.start, s.end, k, i);
      }
    }
  }

  /** Absorbing a hole with a chunk behind it leaves a footer that points into the middle of the new hole. */
  lemma StaleFooter(m: seq<byte>, m': seq<byte>, s: State, k: nat, idx: seq<int>, blocks: set<Chunk>)
    requires Inv(s) && k < |s.chunks| && HoleAfter(s.chunks, k) && k + 2 < |s.chunks|
    requires |m'| == WORD && MergedBytes(m, m', s, k) && Merged(s.chunks, k).addr in idx
    ensures !HolesSound(m', idx, s.start, s.end, blocks)
  {
    var c := Merged(s.chunks, k);
    MergedSpan(s, k);
    HeaderSize(m', c);
    InvWithin(s, k + 2);
    assert s.chunks[k + 1].addr > c.addr;
    assert !HoleSound(m', c.addr, s.start, s.end, blocks);
  }

  /** contract() leaves less than a chunk's worth above the merged hole, or cuts below it. */
  lemma CutOff(m': seq<byte>, s: State, k: nat, idx: seq<int>, end: int, blocks: set<Chunk>)
    requires Inv(s) && k < |s.chunks| && |m'| == WORD && Merged(s.chunks, k).addr in idx
    requires end < Merged(s.chunks, k).addr + OVERHEAD
    ensures !HolesSound(m', idx, s.start, end, blocks)
  {
  }

  lemma HeaderReads(m: seq<byte>, c: Chunk)
    requires |m| == WORD && HeaderAt(m, c)
    ensures 0 <= c.addr <= WORD - HEADER_SIZE && Load(m, c.addr) == HEAP_MAGIC
    ensures m[c.addr + 4] == (if c.hole then 1 else 0) && Load(m, c.addr + 8) == c.size
  {
  }

  lemma FooterReads(m: seq<byte>, c: Chunk)
    requires |m| == WORD && FooterAt(m, c)
    ensures FOOTER_SIZE <= c.End() <= WORD && Load(m, c.End() - 8) == HEAP_MAGIC && Load(m, c.End() - 4) == c.addr
  {
  }

  lemma LoadFrame(m: seq<byte>, m': seq<byte>, a: int)
    requires 0 <= a <= |m| - 4 && Same(m, m', a, a + 4)
    ensures Load(m', a) == Load(m, a)
  {
  }

  lemma FooterOf(m: seq<byte>, s: State, j: nat)
    requires Layout(m, s) && j < |s.chunks| && (|s.chunks| > 1 || !s.chunks[j].hole)
    ensures FooterAt(m, s.chunks[j])
  {
  }

  /** The freed chunk and the hole before it, if there is one. */
  ghost function LeftMerged(cs: seq<Chunk>, k: nat): Chunk
    requires k < |cs|
  {
    var lo := cs[MergeLo(cs, k)];
    Chunk(lo.addr, cs[k].End() - lo.addr, true)
  }

  /** What the footer in front of a chunk says: a hole ends there exactly when the chunk before is one. */
  lemma FooterBefore(m: seq<byte>, m': seq<byte>, s: State, k: nat)
    requires Inv(s) && Layout(m, s) && k < |s.chunks|
    requires SameOutside(m, m', s.chunks[k].addr, s.chunks[k].End())
    ensures |m'| == WORD && 8 <= s.chunks[k].addr < s.chunks[k].End() <= s.end < WORD - HEADER_SIZE
    ensures k == 0 ==> Load(m', s.chunks[k].addr - 8) != HEAP_MAGIC
    ensures k > 0 ==>
              && s.chunks[k - 1].End() == s.chunks[k].addr && s.chunks[k - 1].size >= OVERHEAD
              && HeaderAt(m', s.chunks[k - 1]) && FooterAt(m', s.chunks[k - 1])
  {
    hide HeaderAt, FooterAt, Listed, Load;
    TiledWithin(s.chunks, s.start, s.end, k);
    if k == 0 {
      LoadFrame(m, m', s.start - 8);
    } else {
      var c := s.chunks[k - 1];
      assert c.End() == s.chunks[k].addr;
      HeaderFrame(m, m', c);
      FooterFrame(m, m', c);
    }
  }

  /**
   * The bytes of a header at `a` as the processor reads them: a page without a frame shows `zero`, the start of
   * frame 0.  Below `end` memory is the heap's own, whatever frame it is in.
   */
  function Seen(m: seq<byte>, ps: Pages, zero: seq<byte>, a: int, end: int): seq<byte> {
    if (a < end || PageOf(a) in ps.framed) && 0 <= a <= |m| - HEADER_SIZE then m[a..a + HEADER_SIZE] else zero
  }

  /** Behind the heap a page that never had a frame is not there. */
  predicate Faults(ps: Pages, a: int, end: int) {
    a >= end && PageOf(a) !in ps.present
  }

  /**
   * Freeing the last chunk stops the kernel: the page behind the heap never had a frame, or what the processor
   * sees there looks like the header of a hole.
   */
  ghost predicate HeaderBeyond(m: seq<byte>, ps: Pages, zero: seq<byte>, s: State, k: nat) {
    k + 1 == |s.chunks| && (s.end !in ps.present || LooksLikeHole(Seen(m, ps, zero, s.end, s.end), 0))
  }

  lemma SeenHeader(m: seq<byte>, ps: Pages, zero: seq<byte>, a: int, end: int)
    requires 0 <= a <= |m| - HEADER_SIZE && (a < end || PageOf(a) in ps.framed)
    ensures LooksLikeHole(Seen(m, ps, zero, a, end), 0) <==> LooksLikeHole(m, a)
    ensures |Seen(m, ps, zero, a, end)| == HEADER_SIZE && Load(Seen(m, ps, zero, a, end), 8) == Load(m, a + 8)
  {
    var b := m[a..a + HEADER_SIZE];
    assert b[0] == m[a] && b[1] == m[a + 1] && b[2] == m[a + 2] && b[3] == m[a + 3] && b[4] == m[a + 4];
    assert b[8] == m[a + 8] && b[9] == m[a + 9] && b[10] == m[a + 10] && b[11] == m[a + 11];
  }

  lemma SeenStays(m: seq<byte>, m': seq<byte>, ps: Pages, zero: seq<byte>, a: int, end: int)
    requires |m| == |m'| && Same(m, m', a, a + HEADER_SIZE)
    ensures Seen(m', ps, zero, a, end) == Seen(m, ps, zero, a, end)
  {
    if 0 <= a <= |m| - HEADER_SIZE {
      assert m'[a..a + HEADER_SIZE] == m[a..a + HEADER_SIZE];
    }
  }

  /** What lies behind the freed chunk after the left merge. */
  lemma HeaderBehind(m: seq<byte>, m': seq<byte>, s: State, k: nat)
    requires Inv(s) && Layout(m, s) && k < |s.chunks|
    requires SameOutside(m, m', LeftMerged(s.chunks, k).addr, s.chunks[k].End())
    ensures |m'| == WORD && 0 <= s.chunks[k].End() <= WORD - HEADER_SIZE
    ensures k + 1 == |s.chunks| ==>
              && s.chunks[k].End() == s.end
              && Load(m', s.end) == Load(m, s.end) && m'[s.end + 4] == m[s.end + 4]
    ensures k + 1 < |s.chunks| ==>
              && s.chunks[k].End() == s.chunks[k + 1].addr
              && HeaderAt(m', s.chunks[k + 1]) && FooterAt(m', s.chunks[k + 1])
  {
    hide HeaderAt, FooterAt, Listed, Load;
    TiledWithin(s.chunks, s.start, s.end, k);
    if k + 1 == |s.chunks| {
      LoadFrame(m, m', s.end);
    } else {
      var c := s.chunks[k + 1];
      assert c.addr == s.chunks[k].End();
      HeaderFrame(m, m', c);
      FooterFrame(m, m', c);
    }
  }

  lemma ChunkSize(s: State, k: nat)
    requires Inv(s) && k < |s.chunks|
    ensures s.chunks[k].size >= OVERHEAD && PAGE_SIZE <= s.start && 0 <= s.end <= WORD - HEADER_SIZE
  {
  }

  lemma RightNeighbour(m0: seq<byte>, m: seq<byte>, ps: Pages, zero: seq<byte>, s: State, k: nat)
    requires Inv(s) && Layout(m0, s) && k < |s.chunks| && !s.chunks[k].hole
    requires |m| == WORD && SameOutside(m0, m, LeftMerged(s.chunks, k).addr, s.chunks[k].End())
    requires HeaderAt(m, LeftMerged(s.chunks, k)) && FooterAt(m, LeftMerged(s.chunks, k))
    ensures |m0| == WORD && 0 <= s.chunks[k].End() <= WORD - HEADER_SIZE && 0 <= s.end <= WORD - HEADER_SIZE
    ensures var t := s.chunks[k].End();
            && (Faults(ps, t, s.end) || LooksLikeHole(Seen(m, ps, zero, t, s.end), 0)
                <==> HoleAfter(s.chunks, k) || HeaderBeyond(m0, ps, zero, s, k))
            && (HoleAfter(s.chunks, k) ==>
                  && !HeaderBeyond(m0, ps, zero, s, k) && !Faults(ps, t, s.end) && s.chunks[k + 1].addr == t
                  && |Seen(m, ps, zero, t, s.end)| == HEADER_SIZE
                  && Load(Seen(m, ps, zero, t, s.end), 8) == Load(m, t + 8) == s.chunks[k + 1].size)
            && (!HoleAfter(s.chunks, k) ==> MergedBytes(m0, m, s, k))
    ensures Merged(s.chunks, k).size < WORD && LeftMerged(s.chunks, k).size >= OVERHEAD
  {
    hide HeaderAt, FooterAt, Layout, Inv, Load, Seen, LooksLikeHole;
    HeaderBehind(m0, m, s, k);
    MergedSpan(s, k);
    ChunkSize(s, k);
    HeaderReads(m, LeftMerged(s.chunks, k));
    FooterReads(m, LeftMerged(s.chunks, k));
    EndAligned(s);
    if k + 1 < |s.chunks| {
      HeaderReads(m, s.chunks[k + 1]);
      InvWithin(s, k + 1);
      ChunkSize(s, k + 1);
      SeenHeader(m, ps, zero, s.chunks[k].End(), s.end);
      LooksIs(m, s.chunks[k + 1]);
    } else {
      LastEnds(s);
      SeenStays(m0, m, ps, zero, s.end, s.end);
    }
  }

  lemma LooksIs(m: seq<byte>, c: Chunk)
    requires |m| == WORD && 0 <= c.addr <= WORD - HEADER_SIZE && Load(m, c.addr) == HEAP_MAGIC
    requires m[c.addr + 4] == if c.hole then 1 else 0
    ensures LooksLikeHole(m, c.addr) <==> c.hole
  {
  }

  lemma EndAligned(s: State)
    requires Inv(s)
    ensures PageOf(s.end) == s.end && s.start % PAGE_SIZE == 0 && s.end % PAGE_SIZE == 0
    ensures PAGE_SIZE <= s.start && s.start + HEAP_MIN_SIZE <= s.end <= s.max <= 0xFFFFF000
  {
  }

  lemma BehindHeader(m: seq<byte>, m': seq<byte>, c: Chunk)
    requires |m| == WORD && SameOutside(m, m', c.addr + 8, c.addr + HEADER_SIZE)
    requires c.size >= OVERHEAD && 0 <= c.End() <= WORD - HEADER_SIZE
    ensures |m'| == WORD && Load(m', c.End() + 8) == Load(m, c.End() + 8)
  {
  }

  lemma RightMerged(m0: seq<byte>, m: seq<byte>, m': seq<byte>, s: State, k: nat)
    requires Inv(s) && Layout(m0, s) && k < |s.chunks| && HoleAfter(s.chunks, k) && |m| == |m'| == WORD
    requires SameOutside(m0, m, LeftMerged(s.chunks, k).addr, s.chunks[k].End())
    requires var c := LeftMerged(s.chunks, k);
             SameOutside(m, m', c.addr + 8, c.addr + HEADER_SIZE) && HeaderAt(m', c.(size := c.size + s.chunks[k + 1].size))
    ensures MergedBytes(m0, m', s, k)
  {
    hide HeaderAt, FooterAt, Layout, Inv, Load;
    HeaderBehind(m0, m, s, k);
    MergedSpan(s, k);
    ChunkSize(s, k);
    ChunkSize(s, k + 1);
    var c := s.chunks[k + 1];
    FooterReads(m, c);
    LoadFrame(m, m', c.End() - 8);
    LoadFrame(m, m', c.End() - 4);
  }

  lemma ListedBehind(s: State, k: nat)
    requires Inv(s) && k < |s.chunks|
    ensures s.chunks[k].End() in s.index <==> HoleAfter(s.chunks, k)
  {
    if HoleAfter(s.chunks, k) {
      var pos := HoleListed(s, k + 1);
      assert s.chunks[k].End() == s.chunks[k + 1].addr;
    }
    if s.chunks[k].End() in s.index {
      var pos :| 0 <= pos < |s.index| && s.index[pos] == s.chunks[k].End();
      var j := Indexed(s, pos);
      if j < k {
        TiledOrder(s.chunks, s.start, s.end, j, k);
      }
    }
  }

  lemma RestMember(s: State, k: nat)
    requires Inv(s) && k < |s.chunks| && HoleBefore(s.chunks, k)
    ensures Merged(s.chunks, k).addr in Rest(s, k)
  {
    var a := s.chunks[k - 1].addr;
    var pos := HoleListed(s, k - 1);
    if HoleAfter(s.chunks, k) {
      TiledOrder(s.chunks, s.start, s.end, k - 1, k + 1);
      CountMember(s.index, a);
      var pos' := HoleListed(s, k + 1);
      WithoutCount(s.index, s.chunks[k + 1].addr, a);
      CountMember(Rest(s, k), a);
    }
  }

  lemma RestShorter(s: State, k: nat)
    requires Inv(s) && k < |s.chunks|
    ensures |Rest(s, k)| <= |s.index| && s.chunks[k].End() !in Rest(s, k)
  {
    ListedBehind(s, k);
    if HoleAfter(s.chunks, k) {
      var pos := HoleListed(s, k + 1);
      var a := s.chunks[k + 1].addr;
      assert s.chunks[k].End() == a;
      WithoutShorter(s.index, a);
      WithoutCount(s.index, a, a);
      CountMember(Rest(s, k), a);
      HoleCountOnce(s.chunks, s.start, s.end, a);
      assert Count(s.index, a) == HoleCount(s.chunks, a);
    }
  }

  lemma {:induction false} WithoutShorter(idx: seq<int>, a: int)
    ensures |Without(idx, a)| <= |idx|
  {
    if idx != [] && idx[0] != a {
      WithoutShorter(idx[1..], a);
    }
  }

  /** Where contract() lets the heap end once the merged hole reaches its end. */
  ghost function SettledEnd(s: State, k: nat): int
    requires k < |s.chunks|
  {
    if MergeHi(s.chunks, k) == |s.chunks| then s.start + ContractedLength(Merged(s.chunks, k).addr - s.start) else s.end
  }

  /** The hole that a clean free() leaves: what was merged, up to the end that contract() gives the heap. */
  ghost function FreedHole(s: State, k: nat): Chunk
    requires k < |s.chunks|
  {
    var c := Merged(s.chunks, k);
    if MergeHi(s.chunks, k) == |s.chunks| then c.(size := s.start + HEAP_MIN_SIZE - c.addr) else c
  }

  lemma ReachesEnd(s: State, k: nat)
    requires Inv(s) && k < |s.chunks|
    ensures Merged(s.chunks, k).End() == s.end <==> MergeHi(s.chunks, k) == |s.chunks|
  {
    MergedSpan(s, k);
    if MergeHi(s.chunks, k) < |s.chunks| {
      InvWithin(s, MergeHi(s.chunks, k));
      ChunkSize(s, MergeHi(s.chunks, k));
    }
  }

  /** The new footer lands just below the new end, even when the new size has wrapped. */
  lemma FooterPlace(header: int, oldSize: int, start: int, oldLength: int, newLength: int, size: int)
    requires header + oldSize == start + oldLength && size == (oldSize + (newLength - oldLength)) % WORD
    requires FOOTER_SIZE <= start + newLength < WORD
    ensures (header + size - FOOTER_SIZE) % WORD == start + newLength - FOOTER_SIZE
  {
  }

  /** The condition of FreeClean on the end, in terms of what contract() computes. */
  lemma SettledCases(s: State, k: nat)
    requires Inv(s) && k < |s.chunks| && MergeHi(s.chunks, k) == |s.chunks|
    ensures var o := Merged(s.chunks, k).addr - s.start;
            && 0 <= o < s.end - s.start && Merged(s.chunks, k).End() == s.end
            && HEAP_MIN_SIZE <= ContractedLength(o) <= s.end - s.start
            && (o <= HEAP_MIN_SIZE - OVERHEAD ==> ContractedLength(o) == HEAP_MIN_SIZE)
            && (o > HEAP_MIN_SIZE - OVERHEAD ==> ContractedLength(o) < o + OVERHEAD)
            && (ContractedLength(o) == HEAP_MIN_SIZE || ContractedLength(o) == o)
  {
    MergedSpan(s, k);
    ChunkSize(s, k);
  }

  lemma FreedReady(m: seq<byte>, m': seq<byte>, s: State, k: nat)
    requires Inv(s) && Layout(m, s) && k < |s.chunks| && !s.chunks[k].hole && FreeClean(s, k) && |m'| == WORD
    requires SameOutside(m, m', Merged(s.chunks, k).addr, Merged(s.chunks, k).End())
    requires HeaderAt(m', FreedHole(s, k)) && FooterAt(m', FreedHole(s, k))
    ensures var s' := FreeNext(s, k);
            && Inv(s') && Layout(m', s') && s'.end == SettledEnd(s, k)
            && Blocks(s'.chunks) == Blocks(s.chunks) - {s.chunks[k]} && Undisturbed(m, m', Blocks(s'.chunks))
            && (!HoleBefore(s.chunks, k) ==> SizesKnown(m', s'.chunks, Rest(s, k), Merged(s.chunks, k).addr))
  {
    hide Inv, Layout, HeaderAt, FooterAt, Load, Blocks, SameOutside, Undisturbed, Tiled, SizeField, SizeOf;
    var s' := FreeNext(s, k);
    assert s'.chunks[MergeLo(s.chunks, k)] == FreedHole(s, k);
    FreeSound(m, m', s, k);
    if MergeHi(s.chunks, k) == |s.chunks| {
      SettledCases(s, k);
    }
    if !HoleBefore(s.chunks, k) {
      PlacedMembers(s'.chunks, Rest(s, k), Merged(s.chunks, k).addr);
      SizesAgree(m', s');
    }
  }

  lemma FreedUnsound(m: seq<byte>, merged: seq<byte>, m': seq<byte>, s: State, k: nat, idx: seq<int>, end: int, blocks: set<Chunk>)
    requires Inv(s) && k < |s.chunks| && !FreeClean(s, k) && |merged| == |m'| == WORD
    requires MergedBytes(m, merged, s, k) && (MergeHi(s.chunks, k) < |s.chunks| ==> m' == merged)
    requires end == SettledEnd(s, k)
    requires if HoleBefore(s.chunks, k) then idx == Rest(s, k) else Merged(s.chunks, k).addr in idx
    ensures !HolesSound(m', idx, s.start, end, blocks)
  {
    hide Inv, HeaderAt, FooterAt, Load, MergedBytes;
    if HoleBefore(s.chunks, k) {
      RestMember(s, k);
    }
    if MergeHi(s.chunks, k) < |s.chunks| {
      StaleFooter(m, merged, s, k, idx, blocks);
    } else {
      SettledCases(s, k);
      CutOff(m', s, k, idx, end, blocks);
    }
  }

  /** Writing inside the payload of a live block does not touch what the allocator reads. */
  lemma PayloadWrites(m: seq<byte>, m': seq<byte>, s: State, k: nat)
    requires Inv(s) && Layout(m, s) && k < |s.chunks| && !s.chunks[k].hole
    requires SameOutside(m, m', s.chunks[k].Payload(), s.chunks[k].End() - FOOTER_SIZE)
    ensures Layout(m', s)
    ensures Undisturbed(m, m', Blocks(s.chunks) - {s.chunks[k]})
  {
    hide HeaderAt, FooterAt, Listed, SameOutside, Blocks, Undisturbed;
    var c := s.chunks[k];
    HeaderOf(m, s, k);
    FooterOf(m, s, k);
    WithinPayload(m, m', c);
    assert s.chunks == Replace(s.chunks, k, k + 1, [c]);
    LayoutReplace(m, m', s, s, k, k + 1, [c], c.End());
    OthersUndisturbed(m, m', s, k, k + 1, c.End());
    BlocksReplace(s.chunks, k, k + 1, []);
    assert s.chunks[k..k + 1] == [c];
    OneBlock(c);
    BlockOnce(s, k, k, k + 1);
    assert Blocks(s.chunks) - {c} == Blocks(s.chunks[..k]) + Blocks(s.chunks[k + 1..]);
  }

  lemma WithinPayload(m: seq<byte>, m': seq<byte>, c: Chunk)
    requires |m| == WORD && SameOutside(m, m', c.Payload(), c.End() - FOOTER_SIZE) && c.size >= OVERHEAD
    requires HeaderAt(m, c) && FooterAt(m, c)
    ensures HeaderAt(m', c) && FooterAt(m', c) && SameOutside(m, m', c.addr, c.End())
  {
  }

  lemma OneBlock(c: Chunk)
    requires !c.hole
    ensures Blocks([c]) == {c}
  {
  }

  lemma UndisturbedTwice(m: seq<byte>, m': seq<byte>, m'': seq<byte>, blocks: set<Chunk>)
    requires Undisturbed(m, m', blocks) && Undisturbed(m', m'', blocks)
    ensures Undisturbed(m, m'', blocks)
  {
  }

  // ---------------------------------------------------------------- what each operation writes, byte for byte

  function SetByte(m: seq<byte>, a: int, v: byte): seq<byte> {
    if 0 <= a < |m| then m[a := v] else m
  }

  function SetWord(m: seq<byte>, a: int, v: int): seq<byte> {
    if 0 <= a <= |m| - 4 && 0 <= v < WORD then
      BytesOfWord(v);
      m[a := v % 0x100][a + 1 := v / 0x100 % 0x100][a + 2 := v / 0x1_0000 % 0x100][a + 3 := v / 0x100_0000]
    else m
  }

  /** A word store has one result only. */
  lemma StoredIs(m: seq<byte>, m': seq<byte>, a: int, v: word)
    requires 0 <= a <= |m| - 4 && SameOutside(m, m', a, a + 4) && Load(m', a) == v
    ensures m' == SetWord(m, a, v)
  {
    BytesOfWord(v);
    BytesUnique(m'[a], m'[a + 1], m'[a + 2], m'[a + 3], v);
  }

  lemma BytesUnique(b0: byte, b1: byte, b2: byte, b3: byte, v: word)
    requires v == b0 as int + 0x100 * b1 as int + 0x1_0000 * b2 as int + 0x100_0000 * b3 as int
    ensures b0 == v % 0x100 && b1 == v / 0x100 % 0x100 && b2 == v / 0x1_0000 % 0x100 && b3 == v / 0x100_0000
  {
    assert v / 0x100 == b1 as int + 0x100 * b2 as int + 0x1_0000 * b3 as int;
    assert v / 0x1_0000 == b2 as int + 0x100 * b3 as int;
  }

  /** A store changes its own bytes only. */
  lemma SetWordFrame(m: seq<byte>, a: int, v: int)
    ensures |SetWord(m, a, v)| == |m| && SameOutside(m, SetWord(m, a, v), a, a + 4)
  {
  }

  lemma SetWordReads(m: seq<byte>, a: int, v: int)
    requires 0 <= a <= |m| - 4 && 0 <= v < WORD
    ensures |SetWord(m, a, v)| == |m| && Load(SetWord(m, a, v), a) == v
  {
    BytesOfWord(v);
  }

  function WithHeader(m: seq<byte>, c: Chunk): seq<byte> {
    SetWord(SetByte(SetWord(m, c.addr, HEAP_MAGIC), c.addr + 4, if c.hole then 1 else 0), c.addr + 8, c.size)
  }

  function WithFooter(m: seq<byte>, at: int, header: int): seq<byte> {
    SetWord(SetWord(m, at, HEAP_MAGIC), at + 4, header)
  }

  function WithChunk(m: seq<byte>, c: Chunk): seq<byte> {
    WithFooter(WithHeader(m, c), c.End() - FOOTER_SIZE, c.addr)
  }

  /** The size field of a header and the footer are written anew. */
  function Resized(m: seq<byte>, c: Chunk): seq<byte> {
    WithFooter(SetWord(m, c.addr + 8, c.size), c.End() - FOOTER_SIZE, c.addr)
  }

  /** Splitting hole `c`. */
  function CarvedRam(m: seq<byte>, c: Chunk, need: int): seq<byte> {
    var p := Split(c, need);
    if |p| == 1 then WithChunk(m, p[0]) else WithChunk(WithChunk(m, p[0]), p[1])
  }

  /** Growing in the clean cases. */
  function GrownRam(m: seq<byte>, s: State, need: int): seq<byte>
    requires |s.chunks| > 0 && GrowClean(s)
  {
    var g := GrowNext(s, need);
    var h := g.chunks[|g.chunks| - 1];
    if s.index == [] then WithChunk(m, h) else Resized(m, h)
  }

  /** alloc(), which grows the heap first if it has to. */
  ghost function AllocRam(m: seq<byte>, s: State, size: int): seq<byte> {
    var need := size + OVERHEAD;
    if AllocFits(s, size) then CarveRam(m, s, need)
    else if |s.chunks| > 0 && GrowClean(s) then CarveRam(GrownRam(m, s, need), GrowNext(s, need), need)
    else m
  }

  /** Carving the hole that the search finds. */
  function CarveRam(m: seq<byte>, s: State, need: int): seq<byte> {
    var pos := FirstFit(s.chunks, s.index, need);
    if pos < |s.index| && IndexOf(s.chunks, s.index[pos]) < |s.chunks|
      then CarvedRam(m, s.chunks[IndexOf(s.chunks, s.index[pos])], need)
    else m
  }

  /** Lines 301-308: the links of a merge to the left. */
  ghost function LinkedRam(m: seq<byte>, cs: seq<Chunk>, k: nat): seq<byte>
    requires k < |cs|
  {
    if HoleBefore(cs, k) then
      SetWord(SetWord(m, cs[k].End() - 4, cs[k - 1].addr), cs[k - 1].addr + 8, LeftMerged(cs, k).size)
    else m
  }

  /** Lines 291-324. */
  ghost function MergedRam(m: seq<byte>, cs: seq<Chunk>, k: nat): seq<byte>
    requires k < |cs|
  {
    var linked := LinkedRam(SetByte(m, cs[k].addr + 4, 1), cs, k);
    if HoleAfter(cs, k) then SetWord(linked, Merged(cs, k).addr + 8, Merged(cs, k).size) else linked
  }

  /** free() in the clean cases. */
  ghost function FreedRam(m: seq<byte>, s: State, k: nat): seq<byte>
    requires k < |s.chunks|
  {
    var merged := MergedRam(m, s.chunks, k);
    if MergeHi(s.chunks, k) == |s.chunks| then Resized(merged, FreedHole(s, k)) else merged
  }

  lemma WithChunkReads(m: seq<byte>, c: Chunk)
    requires |m| == WORD && 0 <= c.addr && OVERHEAD <= c.size < WORD && c.End() <= WORD
    ensures var m' := WithChunk(m, c);
            |m'| == WORD && HeaderAt(m', c) && FooterAt(m', c) && SameOutside(m, m', c.addr, c.End())
  {
    hide SetWord, Load, HeaderAt, FooterAt;
    var m1 := SetWord(m, c.addr, HEAP_MAGIC);
    var m2 := SetByte(m1, c.addr + 4, if c.hole then 1 else 0);
    var m3 := SetWord(m2, c.addr + 8, c.size);
    SetWordFrame(m, c.addr, HEAP_MAGIC);
    SetWordReads(m, c.addr, HEAP_MAGIC);
    LoadFrame(m1, m2, c.addr);
    SetWordFrame(m2, c.addr + 8, c.size);
    SetWordReads(m2, c.addr + 8, c.size);
    LoadFrame(m2, m3, c.addr);
    HeaderWritten(m3, c);
    WithFooterReads(m3, c);
  }

  lemma HeaderWritten(m: seq<byte>, c: Chunk)
    requires |m| == WORD && 0 <= c.addr <= WORD - HEADER_SIZE && Load(m, c.addr) == HEAP_MAGIC
    requires m[c.addr + 4] == (if c.hole then 1 else 0) && Load(m, c.addr + 8) == c.size
    ensures HeaderAt(m, c)
  {
  }

  /** Writing a chunk's footer leaves its header alone. */
  lemma WithFooterReads(m: seq<byte>, c: Chunk)
    requires |m| == WORD && 0 <= c.addr && OVERHEAD <= c.size && c.End() <= WORD && HeaderAt(m, c)
    ensures var m' := WithFooter(m, c.End() - FOOTER_SIZE, c.addr);
            |m'| == WORD && HeaderAt(m', c) && FooterAt(m', c) && SameOutside(m, m', c.End() - FOOTER_SIZE, c.End())
  {
    hide SetWord, Load, HeaderAt, FooterAt;
    var at := c.End() - FOOTER_SIZE;
    var m1 := SetWord(m, at, HEAP_MAGIC);
    var m2 := SetWord(m1, at + 4, c.addr);
    SetWordFrame(m, at, HEAP_MAGIC);
    SetWordReads(m, at, HEAP_MAGIC);
    SetWordFrame(m1, at + 4, c.addr);
    SetWordReads(m1, at + 4, c.addr);
    LoadFrame(m1, m2, at);
    HeaderFrame(m, m2, c);
    FooterWritten(m2, c);
  }

  /** A header that gets another size, and the footer that belongs to it. */
  lemma ResizedReads(m: seq<byte>, was: Chunk, c: Chunk)
    requires |m| == WORD && HeaderAt(m, was) && c == was.(size := c.size)
    requires OVERHEAD <= c.size < WORD && c.End() <= WORD
    ensures var m' := Resized(m, c);
            && |m'| == WORD && HeaderAt(m', c) && FooterAt(m', c)
            && SameOutside(m, m', c.addr, c.End())
            && SameOutside(m, SetWord(m, c.addr + 8, c.size), c.addr + 8, c.addr + HEADER_SIZE)
  {
    hide SetWord, Load, HeaderAt, FooterAt;
    HeaderReads(m, was);
    var m1 := SetWord(m, c.addr + 8, c.size);
    SetWordFrame(m, c.addr + 8, c.size);
    SetWordReads(m, c.addr + 8, c.size);
    LoadFrame(m, m1, c.addr);
    HeaderWritten(m1, c);
    WithFooterReads(m1, c);
  }

  // ---------------------------------------------------------------- searching, whatever state the holes are in

  function ToInt32(x: int): int {
    if x < 0x8000_0000 then x else x - WORD
  }

  /** Line 119 or line 121 of find_smallest_hole, for a hole of `size` bytes at `a`. */
  predicate Fits(a: int, size: int, need: int, pageAlign: bool) {
    if pageAlign then ToInt32(size) - AlignOffset(a) >= ToInt32(need) else size >= need
  }

  predicate FitsAt(m: seq<byte>, idx: seq<int>, q: nat, need: int, pageAlign: bool)
    requires q < |idx|
  {
    Fits(idx[q], SizeField(m, idx[q]), need, pageAlign)
  }

  ghost predicate Highest(idx: seq<int>, q: nat) {
    q < |idx| && forall r :: 0 <= r < |idx| ==> idx[r] <= idx[q]
  }

  /** What searching relies on; it holds whatever the listed holes look like, and after every free(). */
  ghost predicate Searchable(m: seq<byte>, s: State) {
    && |m| == WORD && PAGE_SIZE <= s.start && s.start + HEAP_MIN_SIZE <= s.end <= s.max <= 0xFFFFF000
    && s.start % PAGE_SIZE == 0
    && (forall q :: 0 <= q < |s.index| ==> s.start <= s.index[q] <= WORD - HEADER_SIZE)
  }

  /** The highest hole reaches at most `slack` bytes past the end of the heap: none in a sound heap. */
  ghost predicate Below(m: seq<byte>, s: State, slack: nat) {
    forall q :: 0 <= q < |s.index| && Highest(s.index, q) ==> s.index[q] + SizeField(m, s.index[q]) <= s.end + slack
  }

  lemma LayoutSearchable(m: seq<byte>, s: State)
    requires Inv(s) && Layout(m, s)
    ensures Searchable(m, s) && Below(m, s, 0) && |m| == WORD
  {
    hide HeaderAt, FooterAt, Listed, Tiled;
    forall q | 0 <= q < |s.index|
      ensures s.start <= s.index[q] <= WORD - HEADER_SIZE && s.index[q] + SizeField(m, s.index[q]) <= s.end
    {
      var j := Indexed(s, q);
      InvWithin(s, j);
      HeaderOf(m, s, j);
      HeaderSize(m, s.chunks[j]);
      SizeFieldAt(m, s, s.index[q]);
    }
  }

  /** Lines 187-215: the hole with the highest address takes the new space, or a new hole does when none is listed. */
  ghost predicate GrowthOf(m: seq<byte>, s: State, m': seq<byte>, s': State, need: int) {
    var delta := GrownEnd(s, need) - s.end;
    && s'.start == s.start && s'.max == s.max && s'.end == GrownEnd(s, need)
    && if s.index == [] then s'.index == [s.end] && m' == WithChunk(m, Chunk(s.end, delta, true))
       else
         && s'.index == s.index
         && exists q: nat ::
              && Highest(s.index, q)
              && m' == Resized(m, Chunk(s.index[q], SizeField(m, s.index[q]) + delta, true))
  }

  lemma GrownBy(s: State, need: int)
    requires 0 <= s.start <= s.end && s.start % PAGE_SIZE == 0 && need >= 0
    ensures var delta := GrownEnd(s, need) - s.end;
            delta > need && GrownEnd(s, need) % PAGE_SIZE == 0 && (s.end % PAGE_SIZE == 0 ==> delta >= PAGE_SIZE)
  {
  }

  lemma GrownChunk(m: seq<byte>, s: State, q: nat, need: int, slack: nat) returns (c: Chunk)
    requires Searchable(m, s) && Below(m, s, slack) && s.max + slack < WORD
    requires need >= OVERHEAD && GrownEnd(s, need) <= s.max && Highest(s.index, q)
    ensures c == Chunk(s.index[q], SizeField(m, s.index[q]) + GrownEnd(s, need) - s.end, true)
    ensures 0 <= c.addr && OVERHEAD <= c.size < WORD && c.End() <= GrownEnd(s, need) + slack < WORD
  {
    GrownBy(s, need);
    c := Chunk(s.index[q], SizeField(m, s.index[q]) + GrownEnd(s, need) - s.end, true);
  }

  lemma LastEnds(s: State)
    requires Inv(s)
    ensures |s.chunks| > 0 && s.chunks[|s.chunks| - 1].End() == s.end
  {
  }

  /** However the heap grew, some hole is larger than the request that failed, and the search can go on. */
  lemma GrowthFits(m: seq<byte>, s: State, m': seq<byte>, s': State, need: int, slack: nat) returns (q: nat)
    requires Searchable(m, s) && Below(m, s, slack) && s.max + slack < WORD
    requires need >= OVERHEAD && GrownEnd(s, need) <= s.max && GrowthOf(m, s, m', s', need)
    ensures Searchable(m', s') && Below(m', s', slack) && Highest(s'.index, q)
    ensures var delta := GrownEnd(s, need) - s.end;
            && delta > need && (s.end % PAGE_SIZE == 0 ==> delta >= PAGE_SIZE) && s'.end % PAGE_SIZE == 0
            && (if s.index == [] then SizeField(m', s'.index[q]) == delta
                else Highest(s.index, q) && SizeField(m', s'.index[q]) == SizeField(m, s.index[q]) + delta)
  {
    hide Load, HeaderAt, FooterAt, SetWord, Searchable, GrownEnd, SizeField, WithChunk, Resized, Below;
    SearchBounds(m, s, need);
    var delta := GrownEnd(s, need) - s.end;
    if s.index == [] {
      q := 0;
      var c := Chunk(s.end, delta, true);
      WithChunkReads(m, c);
      HeaderSize(m', c);
    } else {
      q :| Highest(s.index, q) && m' == Resized(m, Chunk(s.index[q], SizeField(m, s.index[q]) + delta, true));
      var c := GrownChunk(m, s, q, need, slack);
      SizeResized(m, c);
    }
    GrownSearchable(m, s, m', s', q, need, slack);
  }

  lemma SearchBounds(m: seq<byte>, s: State, need: int)
    requires Searchable(m, s) && need >= OVERHEAD && GrownEnd(s, need) <= s.max
    ensures var delta := GrownEnd(s, need) - s.end; delta > need && (s.end % PAGE_SIZE == 0 ==> delta >= PAGE_SIZE)
    ensures |m| == WORD && 0 < s.start < s.end && GrownEnd(s, need) < WORD && GrownEnd(s, need) % PAGE_SIZE == 0
  {
    GrownBy(s, need);
  }

  lemma GrownSearchable(m: seq<byte>, s: State, m': seq<byte>, s': State, q: nat, need: int, slack: nat)
    requires Searchable(m, s) && need >= OVERHEAD && GrownEnd(s, need) <= s.max
    requires |m'| == WORD && s'.start == s.start && s'.max == s.max && s'.end == GrownEnd(s, need)
    requires Highest(s'.index, q) && s'.index[q] + SizeField(m', s'.index[q]) <= s'.end + slack
    requires s'.index == if s.index == [] then [s.end] else s.index
    ensures Searchable(m', s') && Below(m', s', slack)
  {
    hide SizeField;
    GrownBy(s, need);
    forall r | 0 <= r < |s'.index| && Highest(s'.index, r)
      ensures s'.index[r] + SizeField(m', s'.index[r]) <= s'.end + slack
    {
      assert s'.index[r] == s'.index[q];
    }
  }

  lemma SizeResized(m: seq<byte>, c: Chunk)
    requires |m| == WORD && 0 <= c.addr && OVERHEAD <= c.size < WORD && c.End() <= WORD
    ensures |Resized(m, c)| == WORD && SizeField(Resized(m, c), c.addr) == c.size
    ensures SameOutside(m, Resized(m, c), c.addr + 8, c.End())
  {
    hide SetWord, Load;
    var at := c.End() - FOOTER_SIZE;
    var m1 := SetWord(m, c.addr + 8, c.size);
    var m2 := SetWord(m1, at, HEAP_MAGIC);
    SetWordFrame(m, c.addr + 8, c.size);
    SetWordReads(m, c.addr + 8, c.size);
    SetWordFrame(m1, at, HEAP_MAGIC);
    SetWordFrame(m2, at + 4, c.addr);
    LoadFrame(m1, SetWord(m2, at + 4, c.addr), c.addr + 8);
  }

  /** Growing a heap in the clean cases gives what the specification says. */
  lemma GrowthClean(m: seq<byte>, s: State, m': seq<byte>, s': State, need: int)
    requires Inv(s) && Layout(m, s) && GrowClean(s) && need >= OVERHEAD && GrownEnd(s, need) <= s.max
    requires GrowthOf(m, s, m', s', need)
    ensures s'.(chunks := GrowNext(s, need).chunks) == GrowNext(s, need)
    ensures m' == GrownRam(m, s, need) && |m'| == WORD
    ensures Inv(GrowNext(s, need)) && Layout(m', GrowNext(s, need))
    ensures Blocks(GrowNext(s, need).chunks) == Blocks(s.chunks) && Undisturbed(m, m', Blocks(s.chunks))
  {
    hide Load, HeaderAt, FooterAt, SetWord, Layout, Listed, Tiled, Inv, Blocks, Undisturbed, Resized, WithChunk, GrownBytes, SizeField, GrownEnd, Searchable, SameOutside;
    LastEnds(s);
    if s.index != [] {
      GrowthLast(m, s, m', s', need);
    }
    var g := GrowNext(s, need);
    var h := g.chunks[|g.chunks| - 1];
    GrowthBounds(s, need);
    LastHole(m, s);
    if s.index == [] {
      WithChunkReads(m, h);
    } else {
      ResizedReads(m, s.chunks[|s.chunks| - 1], h);
    }
    GrownBytesAre(m, m', s, g);
    GrowSound(m, m', s, need);
  }

  /** The chunk that grows ends at the new end. */
  lemma GrowthBounds(s: State, need: int)
    requires Inv(s) && GrowClean(s) && need >= OVERHEAD && GrownEnd(s, need) <= s.max && |s.chunks| > 0
    ensures var g := GrowNext(s, need); var h := g.chunks[|g.chunks| - 1];
            && |g.chunks| > 0 && 0 <= h.addr && OVERHEAD <= h.size < WORD && h.End() == g.end < WORD && h.hole
            && (s.index != [] ==> h == s.chunks[|s.chunks| - 1].(size := h.size))
  {
    hide Listed, GrownEnd;
    MidwayBounds(s, need);
    LastEnds(s);
    InvWithin(s, |s.chunks| - 1);
  }

  lemma LastHole(m: seq<byte>, s: State)
    requires Layout(m, s) && |s.chunks| > 0
    ensures |m| == WORD && HeaderAt(m, s.chunks[|s.chunks| - 1])
  {
  }

  /** With a hole at the end that is the one that grows. */
  lemma GrowthLast(m: seq<byte>, s: State, m': seq<byte>, s': State, need: int)
    requires Inv(s) && Layout(m, s) && GrowClean(s) && s.index != [] && need >= OVERHEAD && GrownEnd(s, need) <= s.max
    requires GrowthOf(m, s, m', s', need)
    ensures |s.chunks| > 0 && s'.index == s.index && m' == GrownRam(m, s, need)
  {
    hide Load, HeaderAt, FooterAt, Listed, Tiled, Resized, SizeField, GrownEnd, Layout;
    var n, delta := |s.chunks|, GrownEnd(s, need) - s.end;
    var q: nat :| Highest(s.index, q) && m' == Resized(m, Chunk(s.index[q], SizeField(m, s.index[q]) + delta, true));
    HighestIsLast(s, q);
    LastHole(m, s);
    HeaderSize(m, s.chunks[n - 1]);
  }

  lemma GrownBytesAre(m: seq<byte>, m': seq<byte>, s: State, s': State)
    requires |m'| == WORD && |s'.chunks| > 0
    requires var h := s'.chunks[|s'.chunks| - 1];
             SameOutside(m, m', h.addr, h.End()) && h.End() == s'.end && HeaderAt(m', h) && FooterAt(m', h)
    ensures GrownBytes(m, m', s, s')
  {
  }

  /** In the other case the grown hole reaches into the block behind it. */
  lemma GrowthUnclean(m: seq<byte>, s: State, m': seq<byte>, s': State, need: int) returns (q: nat, j: nat)
    requires Inv(s) && Layout(m, s) && !GrowClean(s) && need >= OVERHEAD && GrownEnd(s, need) <= s.max
    requires GrowthOf(m, s, m', s', need)
    ensures |m'| == WORD && !HolesSound(m', s'.index, s'.start, s'.end, Blocks(s.chunks))
    ensures q < |s.index| && j == IndexOf(s.chunks, s.index[q]) && j + 1 < |s.chunks|
    ensures s.chunks[j].hole && s.chunks[j].addr == s.index[q] && !s.chunks[j + 1].hole
    ensures Highest(s.index, q) && SizeField(m', s.index[q]) == s.chunks[j].size + GrownEnd(s, need) - s.end
    ensures forall r :: 0 <= r < |s.index| && s.index[r] != s.index[q] ==> SizeField(m', s.index[r]) == SizeField(m, s.index[r])
  {
    hide Load, HeaderAt, FooterAt, Layout, Listed, Tiled, Inv, SizeField, HolesSound, Blocks, GrownEnd, Searchable, Below, GrowthOf, SameOutside;
    LayoutSearchable(m, s);
    MaxBelowWord(s);
    UncleanIndex(m, s, m', s', need);
    var c;
    q, c := GrownInPlace(m, s, m', s', need);
    j := Indexed(s, q);
    BlockBehind(s, j);
    HeaderOf(m, s, j);
    HeaderSize(m, s.chunks[j]);
    GrowUnsound(m', s, GrownEnd(s, need) - s.end, q, s'.end);
    OthersKeepSize(m, m', s, q, j);
  }

  lemma BlockBehind(s: State, j: nat)
    requires Inv(s) && !GrowClean(s) && j < |s.chunks| && s.chunks[j].hole
    ensures j + 1 < |s.chunks| && !s.chunks[j + 1].hole
  {
  }

  /** The listed hole that grows. */
  lemma GrownInPlace(m: seq<byte>, s: State, m': seq<byte>, s': State, need: int) returns (q: nat, c: Chunk)
    requires Searchable(m, s) && Below(m, s, 0) && s.max < WORD && s.index != []
    requires need >= OVERHEAD && GrownEnd(s, need) <= s.max && GrowthOf(m, s, m', s', need)
    ensures |m'| == WORD && s'.index == s.index && s'.start == s.start && s'.end == GrownEnd(s, need) && GrownEnd(s, need) > s.end
    ensures Highest(s.index, q) && c.addr == s.index[q] && SizeField(m', s.index[q]) == SizeField(m, s.index[q]) + GrownEnd(s, need) - s.end
    ensures |m| == WORD && forall k :: 0 <= k < s.index[q] && k < WORD ==> m'[k] == m[k]
  {
    hide Load, SetWord, Resized, SizeField, GrownEnd, Searchable, Below;
    SearchBounds(m, s, need);
    q :| Highest(s.index, q) && m' == Resized(m, Chunk(s.index[q], SizeField(m, s.index[q]) + (GrownEnd(s, need) - s.end), true));
    c := GrownChunk(m, s, q, need, 0);
    SizeResized(m, c);
  }

  lemma OthersKeepSize(m: seq<byte>, m': seq<byte>, s: State, q: nat, j: nat)
    requires Inv(s) && |m| == |m'| == WORD && Highest(s.index, q) && j < |s.chunks| && s.chunks[j].addr == s.index[q]
    requires forall k :: 0 <= k < s.index[q] && k < WORD ==> m'[k] == m[k]
    ensures forall r :: 0 <= r < |s.index| && s.index[r] != s.index[q] ==> SizeField(m', s.index[r]) == SizeField(m, s.index[r])
  {
    hide SizeField, Listed;
    forall r | 0 <= r < |s.index| && s.index[r] != s.index[q]
      ensures SizeField(m', s.index[r]) == SizeField(m, s.index[r])
    {
      var i := Indexed(s, r);
      InvWithin(s, i);
      InvWithin(s, j);
      ChunkSize(s, j);
      if i > j {
        TiledOrder(s.chunks, s.start, s.end, j, i);
      } else {
        TiledOrder(s.chunks, s.start, s.end, i, j);
      }
      SizeFrame(m, m', s.index[r], s.index[q]);
    }
  }

  lemma SizeFrame(m: seq<byte>, m': seq<byte>, a: int, h: int)
    requires |m| == |m'| == WORD && 0 <= a && a + OVERHEAD <= h <= WORD && forall k :: 0 <= k < h ==> m'[k] == m[k]
    ensures SizeField(m', a) == SizeField(m, a)
  {
    if a <= |m| - HEADER_SIZE {
      LoadFrame(m, m', a + 8);
    }
  }

  /** No block reaches into the bytes lo .. hi-1. */
  ghost predicate Apart(blocks: set<Chunk>, lo: int, hi: int) {
    forall b :: b in blocks ==> b.End() <= lo || hi <= b.addr
  }

  lemma HoleApart(s: State, j: nat, hi: int)
    requires Inv(s) && j < |s.chunks| && s.chunks[j].hole && hi <= s.chunks[j].End()
    ensures Apart(Blocks(s.chunks), s.chunks[j].addr, hi)
  {
    forall b | b in Blocks(s.chunks) ensures b.End() <= s.chunks[j].addr || hi <= b.addr {
      var i :| 0 <= i < |s.chunks| && s.chunks[i] == b;
      if i < j {
        TiledOrder(s.chunks, s.start, s.end, i, j);
      } else {
        TiledOrder(s.chunks, s.start, s.end, j, i);
      }
    }
  }

  /** The hole that an unaligned search finds, and what carving it writes. */
  lemma FoundHole(m: seq<byte>, s: State, need: int, pos: nat) returns (j: nat)
    requires Inv(s) && Layout(m, s) && need >= OVERHEAD && pos < |s.index| && FitsAt(m, s.index, pos, need, false)
    ensures j == IndexOf(s.chunks, s.index[pos]) < |s.chunks| && s.chunks[j].hole
    ensures s.chunks[j] == Chunk(s.index[pos], SizeField(m, s.index[pos]), true) && s.chunks[j].size >= need
    ensures SizeOf(s.chunks, s.index[pos]) == s.chunks[j].size && s.chunks[j].End() <= s.end
  {
    hide HeaderAt, FooterAt, Listed, Tiled, SizeField;
    j := Indexed(s, pos);
    SizeFieldAt(m, s, s.index[pos]);
    InvWithin(s, j);
  }

  /** A search on the bytes is a search in the chunks. */
  lemma FirstFound(m: seq<byte>, s: State, need: int, pos: nat)
    requires Inv(s) && Layout(m, s) && pos <= |s.index|
    requires forall q :: 0 <= q < pos ==> !FitsAt(m, s.index, q, need, false)
    requires pos < |s.index| ==> FitsAt(m, s.index, pos, need, false)
    ensures FirstFit(s.chunks, s.index, need) == pos
  {
    hide SizeField, Inv, Layout, SizeOf;
    SizesAgree(m, s);
    forall q | 0 <= q < |s.index| ensures SizeField(m, s.index[q]) == SizeOf(s.chunks, s.index[q]) {
      assert s.index[q] in s.index;
    }
    var r := FirstFit(s.chunks, s.index, need);
    assert r < |s.index| ==> FitsAt(m, s.index, r, need, false);
  }

  /** After a growth that is not clean the search finds the grown hole, and a block overlaps what is allocated in it. */
  lemma Overlaps(m: seq<byte>, s: State, m': seq<byte>, s': State, need: int, pos: nat)
    requires Inv(s) && Layout(m, s) && !GrowClean(s) && need >= OVERHEAD && GrownEnd(s, need) <= s.max
    requires GrowthOf(m, s, m', s', need) && Below(m', s', 0)
    requires forall q :: 0 <= q < |s.index| ==> !FitsAt(m, s.index, q, need, false)
    requires pos < |s'.index| && FitsAt(m', s'.index, pos, need, false)
    ensures !Apart(Blocks(s.chunks), s'.index[pos], s'.index[pos] + need)
    ensures s'.index[pos] + SizeField(m', s'.index[pos]) <= s'.end
  {
    hide HeaderAt, FooterAt, Layout, Listed, SizeField, GrowthOf, Inv;
    LayoutSearchable(m, s);
    var q, j := GrowthUnclean(m, s, m', s', need);
    UncleanIndex(m, s, m', s', need);
    assert FitsAt(m', s'.index, pos, need, false) && !FitsAt(m, s.index, pos, need, false);
    assert s.index[pos] == s.index[q];
    assert !FitsAt(m, s.index, q, need, false);
    Overlapped(m, s, need, q, j);
    assert Highest(s'.index, pos);
  }

  lemma UncleanIndex(m: seq<byte>, s: State, m': seq<byte>, s': State, need: int)
    requires !GrowClean(s) && GrowthOf(m, s, m', s', need)
    ensures s'.index == s.index != []
  {
  }

  lemma Overlapped(m: seq<byte>, s: State, need: int, q: nat, j: nat)
    requires Inv(s) && Layout(m, s) && q < |s.index| && j + 1 < |s.chunks| && !FitsAt(m, s.index, q, need, false)
    requires s.chunks[j].hole && s.chunks[j].addr == s.index[q] && !s.chunks[j + 1].hole
    ensures !Apart(Blocks(s.chunks), s.index[q], s.index[q] + need)
  {
    hide HeaderAt, FooterAt, Listed, SizeField;
    HeaderOf(m, s, j);
    HeaderSize(m, s.chunks[j]);
    var b := s.chunks[j + 1];
    assert s.chunks[j].End() == b.addr;
    assert b in Blocks(s.chunks);
    ChunkSize(s, j + 1);
    ChunkSize(s, j);
  }

  /** After a search that found a place in a well-formed heap. */
  lemma FoundApart(m: seq<byte>, s: State, need: int, pos: nat)
    requires Inv(s) && Layout(m, s) && need >= OVERHEAD && pos < |s.index| && FitsAt(m, s.index, pos, need, false)
    requires forall q :: 0 <= q < pos ==> !FitsAt(m, s.index, q, need, false)
    ensures Apart(Blocks(s.chunks), s.index[pos], s.index[pos] + need)
    ensures s.index[pos] + SizeField(m, s.index[pos]) <= s.end
    ensures FirstFit(s.chunks, s.index, need) == pos
    ensures CarveRam(m, s, need) == CarvedRam(m, Chunk(s.index[pos], SizeField(m, s.index[pos]), true), need)
  {
    hide Inv, Layout, SizeField, CarvedRam, Blocks, Apart, SizeOf;
    FirstFound(m, s, need, pos);
    var j := FoundHole(m, s, need, pos);
    HoleApart(s, j, s.index[pos] + need);
  }

  /** The limit test, on 32 bits. */
  lemma LimitTest(start: int, max: int, requested: word, newSize: int)
    requires 0 <= start < WORD && 0 <= max < WORD && start % PAGE_SIZE == 0
    requires newSize == if requested / PAGE_SIZE == 0 then requested
                        else (requested / PAGE_SIZE * PAGE_SIZE + PAGE_SIZE) % WORD
    ensures 0 <= newSize < WORD && (LimitMissed(start, max, requested) ==> start + ExpandedLength(requested) > max)
    ensures (start + newSize) % WORD <= max
            <==> start + ExpandedLength(requested) <= max || LimitMissed(start, max, requested)
    ensures (start + newSize) % WORD <= max ==>
              (start + newSize) % WORD == start + ExpandedLength(requested) - (if LimitMissed(start, max, requested) then WORD else 0)
    ensures (start + newSize) % WORD <= max ==>
              if LimitMissed(start, max, requested) then (start + newSize) % WORD <= start
              else newSize == ExpandedLength(requested) && start + newSize < WORD
  {
  }

  lemma ReadyBounds(m: seq<byte>, s: State, need: int)
    requires Searchable(m, s) && need >= OVERHEAD
    ensures |m| == WORD && 0 < s.start && s.start + HEAP_MIN_SIZE <= s.end <= s.max < WORD && s.start % PAGE_SIZE == 0
    ensures forall q :: 0 <= q < |s.index| ==> 0 < s.index[q] <= WORD - HEADER_SIZE && 0 <= SizeField(m, s.index[q])
    ensures var delta := GrownEnd(s, need) - s.end; delta > need && GrownEnd(s, need) % PAGE_SIZE == 0
  {
    GrownBy(s, need);
  }

  /**
   * The next `n` expansions for a request are defined: the limit test is not one that passes wrongly, and there are
   * as many free frames as new pages.
   */
  predicate Growable(ps: Pages, start: int, end: int, max: int, need: int, n: nat)
    decreases n
  {
    n == 0 ||
    (var newEnd := start + RoundedUp(end - start + need);
     && (end - start + need < WORD ==> !LimitMissed(start, max, end - start + need))
     && (newEnd <= max ==>
           && CanFrameRange(ps, end, PageCount(end, newEnd))
           && Growable(FramedRange(ps, end, PageCount(end, newEnd)), start, newEnd, max, need, n - 1)))
  }

  /** The pages after the heap has grown for a request. */
  function GrownPages(ps: Pages, s: State, need: int): Pages {
    FramedRange(ps, s.end, PageCount(s.end, GrownEnd(s, need)))
  }

  lemma GrowableNext(ps: Pages, s: State, need: int, n: nat)
    requires n > 0 && Growable(ps, s.start, s.end, s.max, need, n) && GrownEnd(s, need) <= s.max
    ensures CanFrameRange(ps, s.end, PageCount(s.end, GrownEnd(s, need)))
    ensures Growable(GrownPages(ps, s, need), s.start, GrownEnd(s, need), s.max, need, n - 1)
  {
    hide CanFrameRange, FramedRange;
  }

  lemma GrowableOnce(ps: Pages, s: State, need: int, n: nat)
    requires n > 0 && Growable(ps, s.start, s.end, s.max, need, n)
    ensures Growable(ps, s.start, s.end, s.max, need, 1)
  {
    hide CanFrameRange, FramedRange;
    assert Growable(GrownPages(ps, s, need), s.start, GrownEnd(s, need), s.max, need, 0);
  }

  /** What alloc() asks expand() for. */
  lemma GrowthRequest(ps: Pages, s: State, need: word)
    requires 0 < s.start && s.start + PAGE_SIZE <= s.end <= s.max < WORD && need >= OVERHEAD
    requires Growable(ps, s.start, s.end, s.max, need, 1)
    ensures var requested := (s.end - s.start + need) % WORD;
            requested > s.end - s.start && (s.start + ExpandedLength(requested) <= s.max || LimitMissed(s.start, s.max, requested))
            <==> GrownEnd(s, need) <= s.max
    ensures var requested := (s.end - s.start + need) % WORD;
            GrownEnd(s, need) <= s.max ==>
              && !LimitMissed(s.start, s.max, requested) && s.start + ExpandedLength(requested) == GrownEnd(s, need)
              && ExpandedLength(requested) < WORD
              && PageCount(s.end - s.start, ExpandedLength(requested)) == PageCount(s.end, GrownEnd(s, need))
  {
    hide CanFrameRange, FramedRange;
    var length := s.end - s.start;
    if length + need >= WORD {
      assert (length + need) % WORD == length + need - WORD;
    } else {
      assert Growable(GrownPages(ps, s, need), s.start, s.start + RoundedUp(length + need), s.max, need, 0);
    }
  }

  lemma GrowthIs(m: seq<byte>, s: State, m': seq<byte>, s': State, need: int, idx: int)
    requires s'.start == s.start && s'.max == s.max && s'.end == GrownEnd(s, need) && s'.index == if s.index == [] then [s.end] else s.index
    requires s.index == [] ==> m' == WithChunk(m, Chunk(s.end, s'.end - s.end, true))
    requires s.index != [] ==>
               && 0 <= idx < |s.index| && Highest(s.index, idx)
               && m' == Resized(m, Chunk(s.index[idx], SizeField(m, s.index[idx]) + (s'.end - s.end), true))
    ensures GrowthOf(m, s, m', s', need)
  {
    hide SizeField, WithChunk, Resized, GrownEnd;
    if s.index != [] {
      var q: nat := idx;
      assert Highest(s.index, q)
          && m' == Resized(m, Chunk(s.index[q], SizeField(m, s.index[q]) + (GrownEnd(s, need) - s.end), true));
      assert SizeField(m, s.index[q]) + (GrownEnd(s, need) - s.end) == SizeField(m, s.index[q]) + GrownEnd(s, need) - s.end;
    }
  }

  // ---------------------------------------------------------------- how often the search starts over

  ghost predicate SomeFits(m: seq<byte>, idx: seq<int>, need: int, pageAlign: bool) {
    exists q :: 0 <= q < |idx| && FitsAt(m, idx, q, need, pageAlign)
  }

  /**
   * The search ends after at most `n` expansions: an unaligned request fits after one, an aligned one after two,
   * or after one if the highest hole is as large as the request already and the heap ends on a page.
   */
  ghost predicate Within(m: seq<byte>, s: State, need: int, pageAlign: bool, n: nat) {
    || SomeFits(m, s.index, need, pageAlign)
    || n >= 2
    || (n == 1 && (!pageAlign
                   || (s.end % PAGE_SIZE == 0 && exists q: nat :: Highest(s.index, q) && SizeField(m, s.index[q]) >= need)))
  }

  /** Every expansion brings the search one step closer to its end. */
  lemma GrowthWithin(m: seq<byte>, s: State, m': seq<byte>, s': State, need: int, pageAlign: bool, n: nat, grown: nat, slack: nat)
    requires Searchable(m', s') && Below(m', s', slack) && OVERHEAD <= need < WORD && Within(m, s, need, pageAlign, n)
    requires pageAlign ==> need < 0x8000_0000 && s'.max + slack - s'.start < 0x8000_0000
    requires forall q :: 0 <= q < |s.index| ==> !FitsAt(m, s.index, q, need, pageAlign)
    requires Highest(s'.index, grown) && SizeField(m', s'.index[grown]) > need && s'.end % PAGE_SIZE == 0
    requires s.index != [] && s.end % PAGE_SIZE == 0 ==>
               s'.index == s.index && SizeField(m', s'.index[grown]) >= SizeField(m, s.index[grown]) + PAGE_SIZE
    ensures n > 0 && Within(m', s', need, pageAlign, n - 1)
  {
    hide SizeField;
    var size := SizeField(m', s'.index[grown]);
    if n == 1 && pageAlign {
      var q: nat :| Highest(s.index, q) && SizeField(m, s.index[q]) >= need;
      assert s.index[grown] == s.index[q];
      assert ToInt32(size) == size >= need + PAGE_SIZE;
    }
    if n == 1 {
      assert FitsAt(m', s'.index, grown, need, pageAlign);
    }
  }

  lemma StartWithin(m: seq<byte>, s: State, need: int, n: nat)
    requires Inv(s) && Layout(m, s) && n == if FirstFit(s.chunks, s.index, need) < |s.index| then 0 else 1
    ensures Within(m, s, need, false, n)
  {
    hide SizeField, SizeOf, Inv, Layout;
    SizesAgree(m, s);
    if n == 0 {
      var q := FirstFit(s.chunks, s.index, need);
      assert s.index[q] in s.index;
      assert FitsAt(m, s.index, q, need, false);
    }
  }

  /**
   * Sizes from 2^31 on count as negative in an aligned search: a hole that large is refused by every
   * request that is not.
   */
  lemma HugeHoleRefused(a: int, size: word, need: word)
    requires need < 0x8000_0000 <= size
    ensures !Fits(a, size, need, true) && Fits(a, size, need, false)
  {
  }

  lemma AllocDirect(m: seq<byte>, s: State, size: int)
    requires Inv(s) && size >= 0 && AllocFits(s, size)
    ensures var need := size + OVERHEAD; var pos := FirstFit(s.chunks, s.index, need);
            && AllocNext(s, size) == CarveNext(s, need, pos) && AllocAddress(s, size) == s.index[pos] + HEADER_SIZE
            && AllocRam(m, s, size) == CarveRam(m, s, need)
  {
    hide CarveRam, CarveNext, Inv, FirstFit;
  }

  lemma AllocGrownNext(s: State, size: int, g: State, pos: nat)
    requires Inv(s) && size >= 0 && !AllocFits(s, size) && GrowClean(s) && GrownEnd(s, size + OVERHEAD) <= s.max
    requires |s.chunks| > 0 && g == GrowNext(s, size + OVERHEAD) && pos == FirstFit(g.chunks, g.index, size + OVERHEAD)
    requires pos < |g.index| && IndexOf(g.chunks, g.index[pos]) < |g.chunks|
    ensures AllocNext(s, size) == CarveNext(g, size + OVERHEAD, pos)
    ensures AllocAddress(s, size) == g.index[pos] + HEADER_SIZE
  {
    hide CarveNext, Inv, FirstFit, GrowNext, GrownEnd, GrowClean, AllocFits, IndexOf;
  }

  lemma AllocGrownRam(m: seq<byte>, s: State, size: int)
    requires !AllocFits(s, size) && GrowClean(s) && |s.chunks| > 0
    ensures var need := size + OVERHEAD;
            AllocRam(m, s, size) == CarveRam(GrownRam(m, s, need), GrowNext(s, need), need)
  {
    hide CarveRam, GrowNext, GrownRam, GrowClean, AllocFits;
  }

  lemma OffsetIs(a: int)
    ensures AlignOffset(a) == if (a + HEADER_SIZE) % PAGE_SIZE != 0 then PAGE_SIZE - (a + HEADER_SIZE) % PAGE_SIZE else 0
  {
  }

  lemma SizeRead(m: seq<byte>, a: int)
    requires 0 <= a <= |m| - HEADER_SIZE
    ensures SizeField(m, a) == Load(m, a + 8)
  {
  }

  lemma CarvedIndexKnown(m: seq<byte>, s: State, s': State, need: int, pos: nat, c: Chunk)
    requires pos < |s.index| && CarvedShape(m, s, s', need, pos, c)
    ensures var rest := s.index[..pos] + s.index[pos + 1..];
            && s' == s.(chunks := s'.chunks, index := s'.index)
            && (c.size - need < OVERHEAD ==> s'.index == rest)
            && (c.size - need >= OVERHEAD ==>
                  SizesKnown(m, s'.chunks, rest, c.addr + need) && s'.index == Placed(s'.chunks, rest, c.addr + need))
  {
  }

  lemma GrowableNone(ps: Pages, s: State, need: int)
    ensures Growable(ps, s.start, s.end, s.max, need, 0)
  {
  }

  lemma MaxBelowWord(s: State)
    requires Inv(s)
    ensures s.max < WORD
  {
  }

  /** Frames for the new pages are there when the grown heap stays below its limit. */
  lemma GrowthSupplied(ps: Pages, s: State, need: word)
    requires 0 < s.start && s.start + PAGE_SIZE <= s.end <= s.max < WORD && need >= OVERHEAD
    requires Growable(ps, s.start, s.end, s.max, need, 1)
    ensures GrownEnd(s, need) <= s.max ==> CanFrameRange(ps, s.end, PageCount(s.end, GrownEnd(s, need)))
  {
    hide CanFrameRange, FramedRange;
  }

  lemma NewEnd(start: int, max: int, requested: word)
    requires 0 <= start < WORD && 0 <= max < WORD && start % PAGE_SIZE == 0
    requires start + ExpandedLength(requested) <= max || LimitMissed(start, max, requested)
    ensures (start + ExpandedLength(requested) % WORD) % WORD
         == start + ExpandedLength(requested) - (if LimitMissed(start, max, requested) then WORD else 0)
  {
  }

  /** The pages after an allocation, and after a free. */
  ghost function AllocPages(ps: Pages, s: State, size: int): Pages {
    if AllocFits(s, size) then ps else GrownPages(ps, s, size + OVERHEAD)
  }

  ghost function FreedPages(ps: Pages, s: State, k: nat): Pages
    requires k < |s.chunks|
  {
    if MergeHi(s.chunks, k) == |s.chunks| then ContractedPages(ps, SettledEnd(s, k), s.end) else ps
  }

  lemma SeenSize(m: seq<byte>, ps: Pages, zero: seq<byte>, a: int, end: int)
    requires |zero| == HEADER_SIZE
    ensures |Seen(m, ps, zero, a, end)| == HEADER_SIZE
  {
  }

  /** After every free(), clean or not, the heap can be searched. */
  lemma FreedSearchable(m: seq<byte>, m': seq<byte>, s: State, k: nat, s': State)
    requires Inv(s) && Layout(m, s) && k < |s.chunks| && |m'| == WORD
    requires s'.start == s.start && s'.max == s.max && s'.end == SettledEnd(s, k)
    requires forall x :: x in s'.index ==> x in Rest(s, k) || x == Merged(s.chunks, k).addr
    ensures Searchable(m', s')
  {
    hide Listed, Tiled, HeaderAt, FooterAt, ContractedLength;
    MergedSpan(s, k);
    ChunkSize(s, k);
    EndAligned(s);
    if MergeHi(s.chunks, k) == |s.chunks| {
      SettledCases(s, k);
    }
    forall q | 0 <= q < |s'.index| ensures s'.start <= s'.index[q] <= WORD - HEADER_SIZE {
      assert s'.index[q] in s'.index;
      if s'.index[q] in Rest(s, k) {
        RestListed(s, k, s'.index[q]);
        var pos :| 0 <= pos < |s.index| && s.index[pos] == s'.index[q];
        var j := Indexed(s, pos);
        InvWithin(s, j);
        ChunkSize(s, j);
      }
    }
  }

  lemma RestListed(s: State, k: nat, a: int)
    requires k < |s.chunks| && a in Rest(s, k)
    ensures a in s.index
  {
    if HoleAfter(s.chunks, k) {
      WithoutMember(s.index, s.chunks[k + 1].addr, a);
    }
  }

  lemma {:induction false} WithoutMember(idx: seq<int>, a: int, x: int)
    requires x in Without(idx, a)
    ensures x in idx
  {
    if idx[0] != a && x != idx[0] {
      WithoutMember(idx[1..], a, x);
    }
  }

  /** The condition under which free() stops the kernel, in bytes. */
  lemma BeyondBytes(m: seq<byte>, ps: Pages, zero: seq<byte>, s: State, k: nat)
    requires Inv(s) && |m| == WORD && |zero| == HEADER_SIZE
    ensures 0 <= s.end <= WORD - 12
    ensures HeaderBeyond(m, ps, zero, s, k) <==>
              && k + 1 == |s.chunks|
              && (s.end !in ps.present
                  || var b := if s.end in ps.framed then m[s.end..s.end + 12] else zero;
                     b[..4] == [0xAB, 0x90, 0x38, 0x12] && b[4] != 0)
  {
    EndAligned(s);
    var b := Seen(m, ps, zero, s.end, s.end);
    assert b == if s.end in ps.framed then m[s.end..s.end + 12] else zero;
    MagicBytes(b);
  }

  lemma MagicBytes(b: seq<byte>)
    requires |b| == HEADER_SIZE
    ensures Load(b, 0) == HEAP_MAGIC <==> b[..4] == [0xAB, 0x90, 0x38, 0x12]
  {
    if Load(b, 0) == HEAP_MAGIC {
      BytesUnique(b[0], b[1], b[2], b[3], HEAP_MAGIC);
    }
  }

  lemma SettledEndIs(s: State, k: nat)
    requires k < |s.chunks|
    ensures var cs := s.chunks;
            var offset := (if k > 0 && cs[k - 1].hole then cs[k - 1].addr else cs[k].addr) - s.start;
            SettledEnd(s, k) == if k + 1 == |cs| || (k + 2 == |cs| && cs[k + 1].hole)
                                then s.start + (if offset / 0x1000 % 2 == 1 || offset < 0x70000 then 0x70000 else offset)
                                else s.end
  {
  }

  /** The bytes around every chunk of a heap that is laid out well: its header, and its footer that points back. */
  lemma TagBytes(m: seq<byte>, s: State, k: nat)
    requires Inv(s) && Layout(m, s) && k < |s.chunks|
    ensures var c := s.chunks[k];
            && |m| == WORD && 0x1000 <= c.addr && c.addr + c.size <= WORD
            && Load(m, c.addr) == 0x123890AB && m[c.addr + 4] == (if c.hole then 1 else 0)
            && Load(m, c.addr + 8) == c.size >= 20
            && (!c.hole || |s.chunks| > 1 ==>
                  Load(m, c.addr + c.size - 8) == 0x123890AB && Load(m, c.addr + c.size - 4) == c.addr)
  {
    hide Load;
    InvWithin(s, k);
    EndAligned(s);
  }

  /** Below 2 GB the test for an aligned request says that some page-aligned payload has room in the hole. */
  lemma FitsAligned(a: int, size: word, need: word)
    requires size < 0x8000_0000 && need < 0x8000_0000
    ensures Fits(a, size, need, true) <==> exists p :: p % 0x1000 == 0 && a + 12 <= p && p - 12 + need <= a + size
  {
    var p := a + 12 + AlignOffset(a);
    FirstAligned(a);
    if Fits(a, size, need, true) {
      assert p % 0x1000 == 0 && a + 12 <= p && p - 12 + need <= a + size;
    }
    forall q | q % 0x1000 == 0 && a + 12 <= q ensures p <= q {
      AlignedGap(p, q);
    }
  }

  lemma FirstAligned(a: int)
    ensures 0 <= AlignOffset(a) < 0x1000 && (a + 12 + AlignOffset(a)) % 0x1000 == 0
  {
    OffsetIs(a);
  }

  lemma AlignedGap(p: int, q: int)
    requires p % 0x1000 == 0 && q % 0x1000 == 0 && p - 0x1000 < q
    ensures p <= q
  {
  }
}
