/** src/memory/kheap.c as it is written, on the bytes of memory. */
module KernelHeap {
  import opened Ram
  import opened HeapSpec
  import opened HeapBytes
  import opened HeapPages
  import opened OrderedArrays

  method WriteHeader(m: seq<byte>, c: Chunk) returns (m': seq<byte>)
    requires |m| == WORD && 0 <= c.addr <= WORD - HEADER_SIZE && 0 <= c.size < WORD
    ensures m' == WithHeader(m, c) && |m'| == WORD
    ensures HeaderAt(m', c) && SameOutside(m, m', c.addr, c.addr + HEADER_SIZE)
  {
    hide SetWord;
    m' := Store(m, c.addr, HEAP_MAGIC);
    StoredIs(m, m', c.addr, HEAP_MAGIC);
    m' := m'[c.addr + 4 := if c.hole then 1 else 0];
    ghost var flagged := m';
    m' := Store(m', c.addr + 8, c.size);
    StoredIs(flagged, m', c.addr + 8, c.size);
  }

  method WriteFooter(m: seq<byte>, at: int, header: word) returns (m': seq<byte>)
    requires |m| == WORD && 0 <= at <= WORD - FOOTER_SIZE
    ensures m' == WithFooter(m, at, header) && |m'| == WORD && SameOutside(m, m', at, at + FOOTER_SIZE)
    ensures Load(m', at) == HEAP_MAGIC && Load(m', at + 4) == header
  {
    hide SetWord;
    m' := Store(m, at, HEAP_MAGIC);
    StoredIs(m, m', at, HEAP_MAGIC);
    ghost var first := m';
    m' := Store(m', at + 4, header);
    StoredIs(first, m', at + 4, header);
  }

  /** Lines 226-231 and 258-279: the block's header and footer, then those of the rest of the hole if there is one. */
  method WriteSplit(m: seq<byte>, holePos: int, holeSize: int, requested: int, end: int)
    returns (m': seq<byte>, newSize: int)
    requires |m| == WORD && 0 <= holePos && holePos + holeSize <= end < WORD && 0 <= requested <= holeSize - OVERHEAD
    ensures |m'| == WORD && SameOutside(m, m', holePos, holePos + holeSize)
    ensures newSize == if holeSize - (requested + OVERHEAD) < OVERHEAD then holeSize else requested + OVERHEAD
    ensures forall c :: c in Split(Chunk(holePos, holeSize, true), requested + OVERHEAD) ==>
              HeaderAt(m', c) && FooterAt(m', c)
    ensures m' == CarvedRam(m, Chunk(holePos, holeSize, true), requested + OVERHEAD)
  {
    hide Load, HeaderAt, SetWord, WithHeader, WithFooter;
    var size := requested;
    newSize := requested + OVERHEAD;
    if holeSize - newSize < OVERHEAD {
      size := size + holeSize - newSize;
      newSize := holeSize;
    }
    ghost var block := Chunk(holePos, newSize, false);
    m' := WriteHeader(m, Chunk(holePos, newSize, false));
    ghost var headed := m';
    m' := WriteFooter(m', holePos + HEADER_SIZE + size, holePos);
    HeaderFrame(headed, m', block);
    assert FooterAt(m', block);
    if holeSize - newSize > 0 {
      ghost var before := m';
      var rest := holePos + HEADER_SIZE + size + FOOTER_SIZE;
      ghost var hole := Chunk(rest, holeSize - newSize, true);
      m' := WriteHeader(m', Chunk(rest, holeSize - newSize, true));
      headed := m';
      var holeFooter := rest + holeSize - newSize - FOOTER_SIZE;
      if holeFooter < end {
        m' := WriteFooter(m', holeFooter, rest);
      }
      HeaderFrame(before, m', block);
      FooterFrame(before, m', block);
      HeaderFrame(headed, m', hole);
      assert FooterAt(m', hole);
    }
  }

  /** header->size += delta, on 32 bits */
  method AddToSize(m: seq<byte>, a: int, delta: int, ghost c: Chunk) returns (m': seq<byte>, size: int)
    requires |m| == WORD && 0 <= a <= WORD - HEADER_SIZE
    ensures m' == SetWord(m, a + 8, size) && |m'| == WORD && SameOutside(m, m', a + 8, a + HEADER_SIZE)
    ensures size == (SizeField(m, a) + delta) % WORD
    ensures 0 <= SizeField(m, a) + delta < WORD ==> size == SizeField(m, a) + delta
    ensures HeaderAt(m, c) && a == c.addr ==> SizeField(m, a) == c.size && HeaderAt(m', c.(size := size))
  {
    hide SetWord;
    size := (Load(m, a + 8) + delta) % WORD;
    m' := Store(m, a + 8, size);
    StoredIs(m, m', a + 8, size);
  }

  /** header->is_hole = 1 */
  method MarkHole(m: seq<byte>, a: int, ghost c: Chunk) returns (m': seq<byte>)
    requires |m| == WORD && HeaderAt(m, c) && a == c.addr
    ensures m' == SetByte(m, a + 4, 1)
    ensures |m'| == WORD && SameOutside(m, m', a + 4, a + 5) && HeaderAt(m', c.(hole := true))
  {
    m' := m[a + 4 := 1];
  }

  /** Lines 301-308. */
  method MergeLeft(m: seq<byte>, at: int, footer: int, ghost m0: seq<byte>, ghost s: State, ghost k: nat)
    returns (m': seq<byte>, header: int, doAdd: bool)
    requires Inv(s) && Layout(m0, s) && k < |s.chunks| && |m| == WORD
    requires SameOutside(m0, m, s.chunks[k].addr, s.chunks[k].End())
    requires HeaderAt(m, s.chunks[k].(hole := true)) && FooterAt(m, s.chunks[k])
    requires at == s.chunks[k].addr && footer == s.chunks[k].End() - FOOTER_SIZE
    ensures |m'| == WORD && header == LeftMerged(s.chunks, k).addr && doAdd == !HoleBefore(s.chunks, k)
    ensures SameOutside(m0, m', LeftMerged(s.chunks, k).addr, LeftMerged(s.chunks, k).End())
    ensures HeaderAt(m', LeftMerged(s.chunks, k)) && FooterAt(m', LeftMerged(s.chunks, k))
    ensures m' == LinkedRam(m, s.chunks, k)
  {
    hide HeaderAt, FooterAt, Layout, Inv, Load, SetWord, SizeField;
    m', header, doAdd := m, at, true;
    FooterBefore(m0, m, s, k);
    HeaderReads(m, s.chunks[k].(hole := true));
    FooterReads(m, s.chunks[k]);
    ghost var was := s.chunks[MergeLo(s.chunks, k)];
    if k > 0 {
      HeaderReads(m, s.chunks[k - 1]);
      FooterReads(m, s.chunks[k - 1]);
    }
    var testFooter := header - FOOTER_SIZE;
    if Load(m', testFooter) == HEAP_MAGIC && m'[Load(m', testFooter + 4) + 4] == 1 {
      var cacheSize := Load(m', header + 8);
      header := Load(m', testFooter + 4);
      m' := Store(m', footer + 4, header);
      StoredIs(m, m', footer + 4, header);
      HeaderFrame(m, m', was);
      ghost var linked := m';
      var size;
      m', size := AddToSize(m', header, cacheSize, was);
      LoadFrame(m, linked, footer);
      LoadFrame(linked, m', footer);
      LoadFrame(linked, m', footer + 4);
      doAdd := false;
    }
    FooterWritten(m', LeftMerged(s.chunks, k));
  }

  /** A call either returns an address or stops the kernel in a failed ASSERT. */
  datatype Outcome = Panic | Address(p: int)

  class Heap {
    var ram: seq<byte>
    const index: OrderedArray
    const startAddress: int
    var endAddress: int
    const maxAddress: int
    var pages: Pages
    ghost var chunks: seq<Chunk>

    ghost function St(): State
      requires index.Valid()
      reads this, index, index.items
    {
      State(startAddress, endAddress, maxAddress, chunks, index.Contents())
    }

    /**
     * create_heap: the index goes first, the heap proper behind it as one hole.
     * `m` and `ps` are memory and pages as the caller leaves them.
     */
    constructor (start: int, end: int, max: int, m: seq<byte>, ps: Pages)
      requires |m| == WORD && PAGE_SIZE <= start && end <= max <= 0xFFFFF000
      requires start % PAGE_SIZE == 0 && end % PAGE_SIZE == 0
      requires start + 4 * HEAP_INDEX_SIZE + HEAP_MIN_SIZE <= end
      requires AllPresent(ps, start, end) && ps.framed <= ps.present
      ensures Valid() && pages == ps && fresh(index) && fresh(index.items)
      ensures startAddress == start + 4 * HEAP_INDEX_SIZE && endAddress == end && maxAddress == max
      ensures chunks == [Chunk(startAddress, end - startAddress, true)] && index.Contents() == [startAddress]
      ensures SameOutside(m, ram, start, startAddress + HEADER_SIZE)
      // magic at +0, is_hole at +4, size at +8
      ensures |ram| == WORD && Load(ram, startAddress) == 0x123890AB && ram[startAddress + 4] == 1
      ensures Load(ram, startAddress + 8) == end - startAddress
    {
      hide HeaderAt, FooterAt, Inv, Load, SizeField, SizeOf, Placed;
      assert (start + 4 * HEAP_INDEX_SIZE) % PAGE_SIZE == 0 by {
        assert start + 4 * HEAP_INDEX_SIZE == (start / PAGE_SIZE + 0x80) * PAGE_SIZE;
      }
      var cleared := Memset(m, start, 0, 4 * HEAP_INDEX_SIZE);
      index := new OrderedArray(HEAP_INDEX_SIZE);
      var first := PageAligned(start + 4 * HEAP_INDEX_SIZE);
      startAddress, endAddress, maxAddress, pages := first, end, max, ps;
      var m' := WriteHeader(cleared, Chunk(first, end - first, true));
      ram := m';
      chunks := [Chunk(first, end - first, true)];
      new;
      InitialLayout(cleared, ram, State(startAddress, end, max, chunks, [startAddress]));
      InsertHole(startAddress);
      InitialInv(St());
      HeaderReads(ram, chunks[0]);
    }

    /** No page of the heap is missing. */
    ghost predicate PagesThere()
      reads this
    {
      AllPresent(pages, startAddress, endAddress) && pages.framed <= pages.present
    }

    ghost predicate Valid()
      reads this, index, index.items
    {
      && |ram| == WORD && index.Valid() && index.size < index.items.Length == HEAP_INDEX_SIZE
      && Inv(St())
      && Layout(ram, St())
      && PagesThere()
    }

    /** insert_ordered_array with header_t_less_than, which compares the size fields in memory. */
    method Insert(a: int)
      requires index.Valid() && index.size < index.items.Length
      modifies index, index.items
      ensures index.Valid() && a in index.Contents() && index.size == old(index.size) + 1
      ensures forall x :: x in index.Contents() ==> x in old(index.Contents()) || x == a
      ensures SizesKnown(ram, chunks, old(index.Contents()), a) ==>
                index.Contents() == Placed(chunks, old(index.Contents()), a)
    {
      var m := ram;
      ghost var was := index.Contents();
      var p := index.Insert(a, (x, y) => SizeField(m, x) < SizeField(m, y));
      assert index.Contents()[p] == a;
      if SizesKnown(ram, chunks, was, a) {
        assert p == PlaceOf(chunks, was, a);
      }
    }

    method InsertHole(a: int)
      requires index.Valid() && index.size < index.items.Length && SizesKnown(ram, chunks, index.Contents(), a)
      modifies index, index.items
      ensures index.Valid() && index.Contents() == Placed(chunks, old(index.Contents()), a)
      ensures index.size == old(index.size) + 1
    {
      Insert(a);
    }

    ghost predicate Ready()
      reads this, index, index.items
    {
      index.Valid() && index.size < index.items.Length == HEAP_INDEX_SIZE && Searchable(ram, St()) && PagesThere()
    }

    lemma ValidReady()
      requires Valid()
      ensures Ready() && Below(ram, St(), 0)
    {
      hide Inv, Layout, Searchable, Below;
      LayoutSearchable(ram, St());
    }

    /** find_smallest_hole: the first listed hole with room, -1 when none has. */
    method FindSmallestHole(need: int, pageAlign: bool) returns (i: int)
      requires Ready()
      ensures -1 <= i < index.size
      ensures i >= 0 ==> FitsAt(ram, index.Contents(), i, need, pageAlign)
      ensures forall q :: 0 <= q < index.size && (i == -1 || q < i) ==> !FitsAt(ram, index.Contents(), q, need, pageAlign)
      // for an unaligned request in a well-formed heap that is the first hole with room
      ensures Valid() && !pageAlign ==>
                var r := FirstFit(chunks, index.Contents(), need); i == if r == |index.Contents()| then -1 else r
    {
      hide Inv, Layout, Load, Searchable, SizeField, AlignOffset, ToInt32;
      ReadyBounds(ram, St(), OVERHEAD);
      var k := 0;
      while k < index.size
        invariant 0 <= k <= index.size
        invariant forall q :: 0 <= q < k ==> !FitsAt(ram, index.Contents(), q, need, pageAlign)
      {
        var header := index.Lookup(k);
        assert header == index.Contents()[k];
        SizeRead(ram, header);
        if pageAlign {
          var offset := 0;
          if (header + HEADER_SIZE) % PAGE_SIZE != 0 {
            offset := PAGE_SIZE - (header + HEADER_SIZE) % PAGE_SIZE;
          }
          assert offset == AlignOffset(header) by { OffsetIs(header); }
          var holeSize := ToInt32(Load(ram, header + 8)) - offset;
          if holeSize >= ToInt32(need) {
            break;
          }
        } else if Load(ram, header + 8) >= need {
          break;
        }
        k := k + 1;
      }
      i := if k == index.size then -1 else k;
      if Valid() && !pageAlign {
        FirstFound(ram, St(), need, k);
      }
    }

    /**
     * Lines 220-284 without alignment: turn the hole at index position `pos` into a block, and the rest of it
     * into a hole.
     */
    method Carve(requested: int, pos: nat) returns (p: int)
      requires Ready() && 0 <= requested && pos < index.size
      requires FitsAt(ram, index.Contents(), pos, requested + OVERHEAD, false)
      requires index.Contents()[pos] + SizeField(ram, index.Contents()[pos]) <= endAddress
      modifies this, index, index.items
      ensures p == old(index.Contents())[pos] + HEADER_SIZE && pages == old(pages)
      ensures ram == CarvedRam(old(ram), Chunk(p - HEADER_SIZE, old(SizeField(ram, index.Contents()[pos])), true), requested + OVERHEAD)
      ensures old(Valid()) ==>
                && Valid() && IndexOf(old(chunks), p - HEADER_SIZE) < |old(chunks)|
                && St() == CarveNext(old(St()), requested + OVERHEAD, pos)
                && Undisturbed(old(ram), ram, Blocks(old(chunks)))
    {
      hide HeaderAt, FooterAt, Inv, Layout, Load, Placed, Undisturbed, SameOutside, Split, SizeOf, Blocks, SizesKnown, CarvedRam, Searchable, SizeField, CarvedIndex, Replace;
      ghost var s, m, need := St(), ram, requested + OVERHEAD;
      ghost var valid := Valid();
      ReadyBounds(m, s, need);
      if valid {
        ghost var j := FoundHole(m, s, need, pos);
        chunks := CarveNext(s, need, pos).chunks;
      }
      p := CarveAt(requested, pos);
      if valid {
        ghost var j := FoundHole(m, s, need, pos);
        CarveSound(m, ram, s, need, pos, j);
        CarvedIndexKnown(ram, s, CarveNext(s, need, pos), need, pos, s.chunks[j]);
        HoleUndisturbed(m, ram, s, j);
      }
    }

    method CarveAt(requested: int, pos: nat) returns (p: int)
      requires |ram| == WORD && index.Valid() && pos < index.size < index.items.Length && 0 <= requested
      requires FitsAt(ram, index.Contents(), pos, requested + OVERHEAD, false) && 0 <= index.Contents()[pos]
      requires index.Contents()[pos] + SizeField(ram, index.Contents()[pos]) <= endAddress < WORD
      modifies this`ram, index, index.items
      ensures p == old(index.Contents())[pos] + HEADER_SIZE && |ram| == WORD
      ensures index.Valid() && index.size < index.items.Length
      ensures var c := Chunk(p - HEADER_SIZE, old(SizeField(ram, index.Contents()[pos])), true);
              && ram == CarvedRam(old(ram), c, requested + OVERHEAD) && SameOutside(old(ram), ram, c.addr, c.End())
              && (forall d :: d in Split(c, requested + OVERHEAD) ==> HeaderAt(ram, d) && FooterAt(ram, d))
              && var rest := old(index.Contents())[..pos] + old(index.Contents())[pos + 1..];
                 if c.size - (requested + OVERHEAD) < OVERHEAD then index.Contents() == rest
                 else SizesKnown(ram, chunks, rest, c.addr + requested + OVERHEAD) ==>
                        index.Contents() == Placed(chunks, rest, c.addr + requested + OVERHEAD)
    {
      hide HeaderAt, FooterAt, Load, Placed, SameOutside, Split, SizesKnown, CarvedRam, Searchable, SizeField;
      SizeRead(ram, index.Contents()[pos]);
      var holePos := index.Lookup(pos);
      var holeSize := Load(ram, holePos + 8);
      index.Remove(pos);
      ghost var rest := index.Contents();
      assert rest == old(index.Contents())[..pos] + old(index.Contents())[pos + 1..];
      var m, newSize := WriteSplit(ram, holePos, holeSize, requested, endAddress);
      ram := m;
      if holeSize - newSize > 0 {
        Insert(holePos + newSize);
      }
      p := holePos + HEADER_SIZE;
    }

    /** Lines 70-76: a frame for every page of the new length that has none, at addresses on 32 bits. */
    method MapPages(newSize: word)
      requires 0 <= startAddress <= endAddress
      requires CanFrameRange(pages, endAddress, PageCount(endAddress - startAddress, newSize))
      modifies this`pages
      ensures pages == FramedRange(old(pages), endAddress, PageCount(endAddress - startAddress, newSize))
    {
      hide CanFrameRange, FramedRange, NthPage, PageCount;
      var i := endAddress - startAddress;
      ghost var n, total := 0, PageCount(i, newSize);
      RangeStarts(pages, endAddress);
      CountIs(i, newSize, 0);
      while i < newSize
        invariant 0 <= n <= total && i == endAddress - startAddress + n * PAGE_SIZE && (i < newSize <==> n < total)
        invariant pages == FramedRange(old(pages), endAddress, n)
      {
        RangeNext(old(pages), endAddress, n, total);
        var p := PageOf((startAddress + i) % WORD);
        assert p == NthPage(endAddress, n) by { NthPageIs(endAddress, n); }
        pages := Framed(pages, p);
        i := i + PAGE_SIZE;
        n := n + 1;
        CountIs(endAddress - startAddress, newSize, n);
      }
    }

    /**
     * Lines 61-68, on 32 bits.  Not `ok` is a failed ASSERT: the kernel halts there.  The test of the limit
     * passes wrongly exactly when the true end lies in WORD .. WORD + maxAddress.
     */
    method PassesTest(requested: word) returns (ok: bool, newSize: word)
      requires 0 <= startAddress <= endAddress < WORD && 0 <= maxAddress < WORD && startAddress % PAGE_SIZE == 0
      ensures ok <==> requested > endAddress - startAddress
                      && (startAddress + ExpandedLength(requested) <= maxAddress || LimitMissed(startAddress, maxAddress, requested))
      ensures ok && startAddress + ExpandedLength(requested) > maxAddress
              <==> requested > endAddress - startAddress && LimitMissed(startAddress, maxAddress, requested)
      ensures ok ==> newSize == ExpandedLength(requested) % WORD
      // from a page on the new size is the next multiple of 0x1000 above the old one, modulo 2^32
      ensures ok ==> newSize == if requested < 0x1000 then requested
                                else (requested / 0x1000 * 0x1000 + 0x1000) % 0x1_0000_0000
    {
      hide LimitMissed;
      ok, newSize := requested > endAddress - startAddress, requested;
      if !ok {
        return;
      }
      if newSize / PAGE_SIZE != 0 {
        newSize := newSize / PAGE_SIZE * PAGE_SIZE;
        newSize := (newSize + PAGE_SIZE) % WORD;
      }
      LimitTest(startAddress, maxAddress, requested, newSize);
      ok := (startAddress + newSize) % WORD <= maxAddress;
    }

    /** Lines 60-79.  When the test passes there have to be as many free frames as new pages. */
    method Expand(requested: word) returns (ok: bool)
      requires 0 <= startAddress <= endAddress < WORD && 0 <= maxAddress < WORD && startAddress % PAGE_SIZE == 0
      requires requested > endAddress - startAddress
               && (startAddress + ExpandedLength(requested) <= maxAddress || LimitMissed(startAddress, maxAddress, requested)) ==>
                 CanFrameRange(pages, endAddress, PageCount(endAddress - startAddress, ExpandedLength(requested) % WORD))
      modifies this`endAddress, this`pages
      ensures ok <==> requested > old(endAddress) - startAddress
                      && (startAddress + ExpandedLength(requested) <= maxAddress || LimitMissed(startAddress, maxAddress, requested))
      ensures !ok ==> endAddress == old(endAddress) && pages == old(pages)
      ensures ok ==>
                && endAddress == startAddress + ExpandedLength(requested)
                                 - (if LimitMissed(startAddress, maxAddress, requested) then WORD else 0)
                && pages == FramedRange(old(pages), old(endAddress),
                                        PageCount(old(endAddress) - startAddress, ExpandedLength(requested) % WORD))
    {
      hide CanFrameRange, FramedRange, PageCount, LimitMissed, ExpandedLength;
      var newSize;
      ok, newSize := PassesTest(requested);
      if !ok {
        return;
      }
      NewEnd(startAddress, maxAddress, requested);
      MapPages(newSize);
      endAddress := (startAddress + newSize) % WORD;
    }

    /**
     * Lines 177-215: a failed search.  The heap is extended and so is the hole with the highest address, wherever
     * it lies.  Afterwards a listed hole is larger than the request; in a well-formed heap the holes are sound
     * exactly when the one that was extended is the last chunk.
     */
    method Grow(need: word, ghost slack: nat) returns (ok: bool, ghost grown: nat)
      requires Ready() && need >= OVERHEAD && Growable(pages, startAddress, endAddress, maxAddress, need, 1)
      requires Below(ram, St(), slack) && maxAddress + slack < WORD
      modifies this, index, index.items
      ensures ok <==> GrownEnd(old(St()), need) <= maxAddress
      ensures !ok ==> Ready() && St() == old(St()) && ram == old(ram) && pages == old(pages) && (Valid() <==> old(Valid()))
      ensures ok ==> Ready() && Below(ram, St(), slack) && endAddress == GrownEnd(old(St()), need) && endAddress % PAGE_SIZE == 0
      ensures ok ==> GrowthOf(old(ram), old(St()), ram, St(), need) && pages == GrownPages(old(pages), old(St()), need)
      // exactly the pages from the old end to the new one are there that were not
      ensures ok ==> forall p :: p in pages.present <==>
                p in old(pages.present) || (p % 0x1000 == 0 && old(endAddress) / 0x1000 * 0x1000 <= p < endAddress)
      ensures ok ==>
                && Highest(index.Contents(), grown)
                && var size := SizeField(ram, index.Contents()[grown]);
                   size > need && (old(index.size) > 0 && old(endAddress) % PAGE_SIZE == 0 ==>
                     index.Contents() == old(index.Contents())
                     && size >= old(SizeField(ram, index.Contents()[grown])) + PAGE_SIZE)
      ensures ok && old(Valid()) && GrowClean(old(St())) ==>
                && Valid() && St() == GrowNext(old(St()), need) && ram == GrownRam(old(ram), old(St()), need)
                && Blocks(chunks) == Blocks(old(chunks)) && Undisturbed(old(ram), ram, Blocks(old(chunks)))
      ensures ok && old(Valid()) ==>
                && (HolesSound(ram, index.Contents(), startAddress, endAddress, Blocks(old(chunks)))
                    <==> GrowClean(old(St())))
    {
      hide Inv, Layout, HeaderAt, FooterAt, Load, Undisturbed, Blocks, SizeField, HolesSound, GrowNext, GrownRam, GrowthOf, WithChunk, Resized, Searchable, Below, FramedRange, CanFrameRange, PageCount, AllPresent, Growable, GrownEnd, ExpandedLength, LimitMissed;
      grown := 0;
      ghost var s, m, ps := St(), ram, pages;
      ghost var valid := Valid();
      ReadyBounds(m, s, need);
      var oldLength := endAddress - startAddress;
      var oldEnd := endAddress;
      GrowthRequest(ps, s, need);
      GrowthSupplied(ps, s, need);
      ok := Expand((oldLength + need) % WORD);
      if !ok {
        return;
      }
      ExpandedPresent(ps, startAddress, oldEnd, endAddress);
      ExpandedOnly(ps, oldEnd, endAddress);
      var newLength := endAddress - startAddress;
      var idx, value := HighestHole();
      if idx == -1 {
        AddHole(oldEnd, newLength - oldLength);
      } else {
        ghost var c := GrownChunk(m, s, idx, need, slack);
        EnlargeHole(idx, newLength - oldLength);
      }
      if valid && GrowClean(s) {
        LastEnds(s);
        chunks := GrowNext(s, need).chunks;
      }
      GrowthIs(m, s, ram, St(), need, idx);
      grown := GrowthFits(m, s, ram, St(), need, slack);
      if valid {
        if GrowClean(s) {
          GrowthClean(m, s, ram, St(), need);
          LayoutSound(ram, St());
          assert HolesSound(ram, index.Contents(), startAddress, endAddress, Blocks(s.chunks));
        } else {
          ghost var q, j := GrowthUnclean(m, s, ram, St(), need);
          assert !HolesSound(ram, index.Contents(), startAddress, endAddress, Blocks(s.chunks));
        }
      }
    }

    method AddHole(oldEnd: int, delta: int)
      requires |ram| == WORD && index.Valid() && index.Contents() == [] && index.size < index.items.Length
      requires 0 <= oldEnd && OVERHEAD <= delta && oldEnd + delta < WORD
      modifies this`ram, index, index.items
      ensures index.Valid() && index.Contents() == [oldEnd]
      ensures ram == WithChunk(old(ram), Chunk(oldEnd, delta, true))
    {
      hide WithHeader, WithFooter, HeaderAt, Load;
      var m := WriteHeader(ram, Chunk(oldEnd, delta, true));
      m := WriteFooter(m, oldEnd + delta - FOOTER_SIZE, oldEnd);
      ram := m;
      Insert(oldEnd);
    }

    method EnlargeHole(idx: nat, delta: int)
      requires |ram| == WORD && index.Valid() && idx < index.size
      requires var a := index.Contents()[idx];
               && 0 <= a && OVERHEAD <= delta && OVERHEAD <= SizeField(ram, a) + delta < WORD
               && a + SizeField(ram, a) + delta < WORD && a <= WORD - HEADER_SIZE
      modifies this`ram
      ensures var a := index.Contents()[idx];
              ram == Resized(old(ram), Chunk(a, old(SizeField(ram, a)) + delta, true))
    {
      hide WithFooter, HeaderAt, Load, SetWord, SizeField;
      var header := index.Lookup(idx);
      var m, size := AddToSize(ram, header, delta, Chunk(header, 0, true));
      m := WriteFooter(m, header + size - FOOTER_SIZE, header);
      ram := m;
    }

    /** Lines 187-196: the listed hole with the highest address; -1 when nothing is listed. */
    method HighestHole() returns (idx: int, value: int)
      requires index.Valid() && forall q :: 0 <= q < index.size ==> index.Contents()[q] > 0
      ensures -1 <= idx < index.size && (idx == -1 <==> index.size == 0)
      ensures idx >= 0 ==> value == index.Contents()[idx]
      ensures forall q :: 0 <= q < index.size ==> index.Contents()[q] <= value
    {
      idx, value := -1, 0;
      var k := 0;
      while k < index.size
        invariant 0 <= k <= index.size && -1 <= idx < k && (idx == -1 <==> k == 0)
        invariant idx == -1 ==> value == 0
        invariant idx >= 0 ==> value == index.Contents()[idx]
        invariant forall q :: 0 <= q < k ==> index.Contents()[q] <= value
      {
        var tmp := index.Lookup(k);
        if tmp > value {
          value, idx := tmp, k;
        }
        k := k + 1;
      }
    }

    /**
     * Lines 170-218 of alloc(): search, expand and start over.  `n` bounds the expansions: one for an unaligned
     * request, two for an aligned one.  The holes need not be sound; the highest may even reach past the end by
     * `slack` bytes, as long as growing it does not pass 2^32.  A result of -1 is expand()'s ASSERT on the limit.
     */
    method Locate(need: word, pageAlign: bool, ghost n: nat, ghost slack: nat) returns (found: int, ghost expansions: nat)
      requires Ready() && need >= OVERHEAD && Growable(pages, startAddress, endAddress, maxAddress, need, n)
      requires Below(ram, St(), slack) && maxAddress + slack < WORD
      requires pageAlign ==> need < 0x8000_0000 && maxAddress + slack - startAddress < 0x8000_0000
      requires Within(ram, St(), need, pageAlign, n)
      modifies this, index, index.items
      ensures Ready() && Below(ram, St(), slack) && expansions <= n
      ensures found == -1 ==> expansions < n && GrownEnd(St(), need) > maxAddress
      ensures found != -1 ==> 0 <= found < index.size && FitsAt(ram, index.Contents(), found, need, pageAlign)
      ensures forall q :: 0 <= q < index.size && (found == -1 || q < found) ==> !FitsAt(ram, index.Contents(), q, need, pageAlign)
      ensures expansions == 0 ==> St() == old(St()) && ram == old(ram) && pages == old(pages) && (Valid() <==> old(Valid()))
      ensures found == -1 || expansions > 0 ==>
                forall q :: 0 <= q < old(index.size) ==> !FitsAt(old(ram), old(index.Contents()), q, need, pageAlign)
      ensures expansions == 1 ==>
                && GrownEnd(old(St()), need) <= maxAddress && GrowthOf(old(ram), old(St()), ram, St(), need)
                && pages == GrownPages(old(pages), old(St()), need)
                && (old(Valid()) && GrowClean(old(St())) ==>
                      && Valid() && St() == GrowNext(old(St()), need) && ram == GrownRam(old(ram), old(St()), need)
                      && Blocks(chunks) == Blocks(old(chunks)) && Undisturbed(old(ram), ram, Blocks(old(chunks))))
      decreases n
    {
      hide Inv, Layout, SizeField, Searchable, Below, GrowthOf, GrowNext, GrownRam, GrownEnd, Blocks, Undisturbed, Fits, HolesSound, Growable, GrownPages, AllPresent;
      expansions := 0;
      found := FindSmallestHole(need, pageAlign);
      if found == -1 {
        ghost var s, m, ps := St(), ram, pages;
        assert n > 0;
        GrowableOnce(ps, s, need, n);
        var ok, grown := Grow(need, slack);
        if !ok {
          return;
        }
        GrowableNext(ps, s, need, n);
        GrowthWithin(m, s, ram, St(), need, pageAlign, n, grown, slack);
        found, expansions := Locate(need, pageAlign, n - 1, slack);
        expansions := expansions + 1;
      }
    }

    /**
     * alloc() for a request without page alignment.  It expands the heap at most once, and panics exactly when
     * no hole fits and the grown heap would pass its limit.  What it returns lies apart from all live blocks
     * exactly when a hole fitted, or none was listed, or the last chunk was a hole.
     */
    method Alloc(size: word) returns (r: Outcome, ghost expansions: nat)
      requires Valid() && size + OVERHEAD < WORD
      requires AllocFits(St(), size) || Growable(pages, startAddress, endAddress, maxAddress, size + OVERHEAD, 1)
      modifies this, index, index.items
      ensures expansions <= 1 && (expansions == 1 <==> r.Address? && !old(AllocFits(St(), size)))
      ensures r.Panic? <==> !old(AllocFits(St(), size)) && GrownEnd(old(St()), size + OVERHEAD) > maxAddress
      ensures r.Panic? ==> Valid() && St() == old(St()) && ram == old(ram) && pages == old(pages)
      ensures r.Address? ==> pages == AllocPages(old(pages), old(St()), size)
      ensures r.Address? ==>
                (Apart(Blocks(old(chunks)), r.p - HEADER_SIZE, r.p + size + FOOTER_SIZE)
                 <==> old(AllocFits(St(), size)) || GrowClean(old(St())))
      ensures r.Address? && (old(AllocFits(St(), size)) || GrowClean(old(St()))) ==>
                && Valid() && St() == AllocNext(old(St()), size)
                && r.p == AllocAddress(old(St()), size)
                && ram == AllocRam(old(ram), old(St()), size)
                && Undisturbed(old(ram), ram, Blocks(old(chunks)))
    {
      hide Layout, Inv, Blocks, GrowNext, CarveNext, GrownEnd, Undisturbed, Searchable, Below, GrowthOf, SizeField, SizeOf, GrownRam, CarvedRam, IndexOf, Apart, FirstFit, Growable, GrownPages, AllPresent;
      ghost var s, m, need := St(), ram, size + OVERHEAD;
      ValidReady();
      ghost var n := if AllocFits(s, size) then 0 else 1;
      StartWithin(m, s, need, n);
      GrowableNone(pages, s, need);
      MaxBelowWord(s);
      var found;
      found, expansions := Locate(size + OVERHEAD, false, n, 0);
      if found == -1 {
        FirstFound(m, s, need, |s.index|);
        return Panic, expansions;
      }
      ghost var located := ram;
      if expansions == 1 {
        FirstFound(m, s, need, |s.index|);
      }
      if expansions == 0 {
        FirstFound(m, s, need, found);
        AllocDirect(m, s, size);
        FoundApart(ram, St(), need, found);
      } else if GrowClean(s) {
        FoundApart(ram, St(), need, found);
        LastEnds(s);
        assert IndexOf(chunks, index.Contents()[found]) < |chunks| by { ghost var j := FoundHole(ram, St(), need, found); }
        AllocGrownNext(s, size, St(), found);
        AllocGrownRam(m, s, size);
      } else {
        Overlaps(m, s, ram, St(), need, found);
      }
      var p := Carve(size, found);
      if expansions == 1 && GrowClean(s) {
        UndisturbedTwice(m, located, ram, Blocks(s.chunks));
      }
      r := Address(p);
    }

    /** Lines 81-101.  The caller's ASSERT is the precondition. */
    method Contract(requested: int) returns (newLength: int)
      requires 0 <= requested < endAddress - startAddress && endAddress - startAddress >= HEAP_MIN_SIZE
      requires 0 <= startAddress && startAddress % PAGE_SIZE == 0 && endAddress % PAGE_SIZE == 0 && endAddress < WORD
      modifies this`endAddress, this`pages
      ensures newLength == ContractedLength(requested) && endAddress == startAddress + newLength
      // a length with bit 12 set is masked to two pages, and then the minimum of 0x70000 applies
      ensures endAddress == startAddress
                            + (if requested / 0x1000 % 2 == 1 || requested < 0x70000 then 0x70000 else requested)
      ensures pages.present == old(pages.present) && forall p :: p in pages.framed <==>
                p in old(pages.framed) && !(endAddress < p < old(endAddress) && p % 0x1000 == 0)
      // the pages above the new end are given back, the one at the end is not
      ensures pages == ContractedPages(old(pages), endAddress, old(endAddress))
    {
      hide ContractedPages, GivenBack;
      var newSize := requested;
      if newSize / PAGE_SIZE % 2 == 1 {
        newSize := PAGE_SIZE;
        newSize := newSize + PAGE_SIZE;
      }
      if newSize < HEAP_MIN_SIZE {
        newSize := HEAP_MIN_SIZE;
      }
      var i := endAddress - startAddress - PAGE_SIZE;
      ContractedStart(pages, endAddress);
      while newSize < i
        invariant i % PAGE_SIZE == 0 && newSize - PAGE_SIZE <= i <= endAddress - startAddress - PAGE_SIZE
        invariant endAddress == old(endAddress)
        invariant newSize - PAGE_SIZE == i ==> newSize == endAddress - startAddress
        invariant pages == ContractedPages(old(pages), startAddress + i, endAddress)
      {
        ContractedMore(old(pages), startAddress + i, endAddress);
        pages := GivenBack(pages, PageOf(startAddress + i));
        i := i - PAGE_SIZE;
      }
      ContractedDone(old(pages), startAddress + i, startAddress + newSize, endAddress);
      ContractedIs(old(pages), startAddress + newSize, endAddress);
      endAddress := startAddress + newSize;
      newLength := newSize;
    }

    /** Lines 316-318 and 338-340: the position of `a` in the index, or its length. */
    method Search(a: int) returns (i: nat)
      requires index.Valid()
      ensures i <= index.size && (i < index.size ==> index.Contents()[i] == a)
      ensures forall q :: 0 <= q < i ==> index.Contents()[q] != a
    {
      i := 0;
      while i < index.size
        invariant i <= index.size
        invariant forall q :: 0 <= q < i ==> index.Contents()[q] != a
      {
        var x := index.Lookup(i);
        if x == a {
          break;
        }
        i := i + 1;
      }
    }

    /** Lines 291-324: mark the block as a hole and merge it with the holes on either side. */
    method Merge(p: int, zero: seq<byte>, ghost k: nat) returns (panicked: bool, header: int, footer: int, testHeader: int, doAdd: bool)
      requires Valid() && k < |chunks| && !chunks[k].hole && p == chunks[k].Payload() && |zero| == HEADER_SIZE
      modifies this`ram, index, index.items
      ensures panicked <==> HeaderBeyond(old(ram), pages, zero, old(St()), k)
      ensures !panicked ==>
                && |ram| == WORD && MergedBytes(old(ram), ram, old(St()), k)
                && index.Valid() && index.Contents() == Rest(old(St()), k)
                && header == Merged(chunks, k).addr && footer == Merged(chunks, k).End() - FOOTER_SIZE
                && doAdd == !HoleBefore(chunks, k)
                && testHeader == chunks[k].End()
                && ram == MergedRam(old(ram), chunks, k)
    {
      hide HeaderAt, FooterAt, Layout, Inv, Load, Without, LinkedRam, SetByte, SetWord, HeaderBeyond, MergedBytes;
      ghost var s, m0 := St(), ram;
      HeaderOf(ram, s, k);
      FooterOf(ram, s, k);
      HeaderReads(ram, chunks[k]);
      FooterReads(ram, chunks[k]);
      ChunkSize(s, k);
      header := p - HEADER_SIZE;
      footer := header + Load(ram, header + 8) - FOOTER_SIZE;
      var m := MarkHole(ram, header, chunks[k]);
      FooterFrame(ram, m, chunks[k]);
      m, header, doAdd := MergeLeft(m, header, footer, m0, s, k);
      ram := m;
      testHeader := footer + FOOTER_SIZE;
      panicked, footer := MergeRight(header, footer, zero, m0, s, k);
    }

    /** Lines 310-324.  A panic is a page fault at line 311 or the ASSERT at line 321. */
    method MergeRight(header: int, footer: int, zero: seq<byte>, ghost m0: seq<byte>, ghost s: State, ghost k: nat)
      returns (panicked: bool, footer': int)
      requires Inv(s) && Layout(m0, s) && k < |s.chunks| && !s.chunks[k].hole && |ram| == WORD
      requires SameOutside(m0, ram, LeftMerged(s.chunks, k).addr, s.chunks[k].End())
      requires HeaderAt(ram, LeftMerged(s.chunks, k)) && FooterAt(ram, LeftMerged(s.chunks, k))
      requires header == LeftMerged(s.chunks, k).addr && footer == s.chunks[k].End() - FOOTER_SIZE
      requires index.Valid() && index.Contents() == s.index && index.size < index.items.Length && endAddress == s.end
      requires |zero| == HEADER_SIZE
      modifies this`ram, index, index.items
      ensures |m0| == WORD && 0 <= s.end <= WORD - HEADER_SIZE && (panicked <==> HeaderBeyond(m0, pages, zero, s, k))
      ensures !panicked ==>
                && |ram| == WORD && MergedBytes(m0, ram, s, k)
                && index.Valid() && index.Contents() == Rest(s, k)
                && footer' == Merged(s.chunks, k).End() - FOOTER_SIZE
                && ram == (if HoleAfter(s.chunks, k) then SetWord(old(ram), header + 8, Merged(s.chunks, k).size) else old(ram))
    {
      hide HeaderAt, FooterAt, Layout, Inv, Load, Without, MergedBytes, HeaderBeyond, SameOutside, Same, SetWord, SizeField;
      ghost var left, before := LeftMerged(s.chunks, k), ram;
      footer' := footer;
      panicked := false;
      RightNeighbour(m0, ram, pages, zero, s, k);
      HeaderReads(ram, left);
      ListedBehind(s, k);
      var testHeader := footer + FOOTER_SIZE;
      if Faults(pages, testHeader, endAddress) {
        return true, footer';
      }
      var seen := Seen(ram, pages, zero, testHeader, endAddress);
      SeenSize(ram, pages, zero, testHeader, endAddress);
      if LooksLikeHole(seen, 0) {
        var m, size := AddToSize(ram, header, Load(seen, 8), left);
        ram := m;
        BehindHeader(before, m, left);
        footer' := testHeader + Load(seen, 8) - FOOTER_SIZE;
        var i := Search(testHeader);
        if i == index.size {
          assert index.Contents() == s.index;
          assert forall q :: 0 <= q < |s.index| ==> s.index[q] != testHeader;
          return true, footer';
        }
        assert index.Contents()[i] == testHeader;
        WithoutFirst(index.Contents(), testHeader, i);
        index.Remove(i);
        RightMerged(m0, before, m, s, k);
      }
    }

    /** Lines 326-345: a hole that reaches the end gives pages back. */
    method Settle(header: int, footer: int, testHeader: int, ghost m0: seq<byte>, ghost s: State, ghost k: nat)
      requires Inv(s) && k < |s.chunks| && |ram| == WORD && MergedBytes(m0, ram, s, k)
      requires startAddress == s.start && endAddress == s.end && PagesThere()
      requires index.Valid() && index.Contents() == Rest(s, k) && index.size < index.items.Length
      requires header == Merged(s.chunks, k).addr && footer == Merged(s.chunks, k).End() - FOOTER_SIZE
      requires testHeader == s.chunks[k].End()
      modifies this`ram, this`endAddress, this`pages, index, index.items
      ensures |ram| == WORD && endAddress == SettledEnd(s, k) && PagesThere() && pages == FreedPages(old(pages), s, k)
      ensures index.Valid() && index.Contents() == Rest(s, k)
      ensures MergeHi(s.chunks, k) < |s.chunks| ==> ram == old(ram)
      ensures FreeClean(s, k) ==>
                && SameOutside(m0, ram, header, Merged(s.chunks, k).End())
                && HeaderAt(ram, FreedHole(s, k)) && FooterAt(ram, FreedHole(s, k))
                && ram == (if MergeHi(s.chunks, k) == |s.chunks| then Resized(old(ram), FreedHole(s, k)) else old(ram))
    {
      hide HeaderAt, FooterAt, Inv, Load, ContractedLength, SetWord, SizeField, WithFooter, ContractedPages, AllPresent;
      ghost var c := Merged(s.chunks, k);
      MergedSpan(s, k);
      ChunkSize(s, k);
      EndAligned(s);
      if footer + FOOTER_SIZE == endAddress {
        ReachesEnd(s, k);
        SettledCases(s, k);
        var oldLength := endAddress - startAddress;
        PresentFewer(pages, startAddress, SettledEnd(s, k), endAddress);
        var newLength := Contract(header - startAddress);
        HeaderReads(ram, c);
        HeaderSize(ram, c);
        if (Load(ram, header + 8) - (oldLength - newLength)) % WORD > 0 {
          var m, size := AddToSize(ram, header, newLength - oldLength, c);
          var at := (header + size - FOOTER_SIZE) % WORD;
          assert at == startAddress + newLength - FOOTER_SIZE by { FooterPlace(header, c.size, startAddress, oldLength, newLength, size); }
          ghost var headed := m;
          m := WriteFooter(m, at, header);
          if FreeClean(s, k) {
            HeaderFrame(headed, m, FreedHole(s, k));
            FooterWritten(m, FreedHole(s, k));
          }
          ram := m;
        } else {
          RestShorter(s, k);
          Discard(testHeader);
        }
      } else {
        ReachesEnd(s, k);
        if FreeClean(s, k) {
          FooterWritten(ram, c);
        }
      }
    }

    /** Lines 338-343: drop `a` from the index if it is there. */
    method Discard(a: int)
      requires index.Valid() && index.size < index.items.Length
      modifies index, index.items
      ensures index.Valid()
      ensures index.Contents() == if a in old(index.Contents()) then Without(old(index.Contents()), a) else old(index.Contents())
    {
      var i := Search(a);
      if i < index.size {
        assert index.Contents()[i] == a;
        WithoutFirst(index.Contents(), a, i);
        index.Remove(i);
      }
    }

    /**
     * free() of the block with chunk number `k`.  A panic is a page fault behind the heap, or the ASSERT behind the
     * search for a right neighbour that only looks like a hole; `zero` is what frame 0 holds at the time.
     * Otherwise the holes are left sound exactly when FreeClean holds of the freed chunk; then the chunk has
     * merged with the holes that touch it and no other block has changed.
     */
    method Free(p: int, zero: seq<byte>, ghost k: nat) returns (panicked: bool)
      requires Valid() && index.size + 1 < HEAP_INDEX_SIZE && |zero| == HEADER_SIZE
      requires p == 0 || (k < |chunks| && !chunks[k].hole && chunks[k].Payload() == p)
      modifies this, index, index.items
      ensures p == 0 ==> !panicked && Valid() && St() == old(St()) && ram == old(ram) && pages == old(pages)
      ensures p != 0 ==> (panicked <==> HeaderBeyond(old(ram), old(pages), zero, old(St()), k))
      ensures p != 0 && !panicked && FreeClean(old(St()), k) ==>
                && Valid() && St() == FreeNext(old(St()), k)
                && ram == FreedRam(old(ram), old(St()), k)
                && Undisturbed(old(ram), ram, Blocks(chunks))
      // the heap ends where it did, or where contract() puts the end when the merged hole reached it
      ensures p != 0 && !panicked ==>
                var cs := old(chunks);
                var offset := (if k > 0 && cs[k - 1].hole then cs[k - 1].addr else cs[k].addr) - startAddress;
                endAddress == if k + 1 == |cs| || (k + 2 == |cs| && cs[k + 1].hole)
                              then startAddress + (if offset / 0x1000 % 2 == 1 || offset < 0x70000 then 0x70000 else offset)
                              else old(endAddress)
      ensures p != 0 && !panicked ==> Ready() && pages == FreedPages(old(pages), old(St()), k)
      ensures p != 0 && !panicked ==>
                (HolesSound(ram, index.Contents(), startAddress, endAddress, Blocks(old(chunks)) - {old(chunks)[k]})
                 <==> FreeClean(old(St()), k))
    {
      hide Inv, Layout, HeaderAt, FooterAt, Load, Blocks, MergedBytes, SameOutside, HolesSound, SizeOf, SizeField, Placed, Undisturbed, SizesKnown, HeaderBeyond, IndexOf, MergedRam, Resized, FreedPages, Searchable, AllPresent, SettledEnd;
      if p == 0 {
        return false;
      }
      ghost var s, m0 := St(), ram;
      ghost var others := Blocks(chunks) - {chunks[k]};
      RestShorter(s, k);
      SettledEndIs(s, k);
      var header, footer, testHeader, doAdd;
      panicked, header, footer, testHeader, doAdd := Merge(p, zero, k);
      if panicked {
        return;
      }
      ghost var merged := ram;
      Settle(header, footer, testHeader, m0, s, k);
      if FreeClean(s, k) {
        chunks := FreeNext(s, k).chunks;
        FreedReady(m0, ram, s, k);
      }
      if doAdd {
        Insert(header);
      }
      FreedSearchable(m0, ram, s, k, St());
      if FreeClean(s, k) {
        assert St() == FreeNext(s, k);
        LayoutSound(ram, St());
      } else {
        FreedUnsound(m0, merged, ram, s, k, index.Contents(), endAddress, others);
      }
    }
  }
}
