/**
 * What src/memory/kheap.c is meant to compute, on the sequence of chunks that its headers
 * and footers describe.  No memory here: KernelHeap.dfy ties this to the bytes.
 */
module HeapSpec {
  import opened Ram

  const HEAP_INDEX_SIZE := 0x20000
  const HEAP_MIN_SIZE := 0x70000
  const HEADER_SIZE := 12
  const FOOTER_SIZE := 8
  const OVERHEAD := 20

  /** A block or a hole, its header and footer included. */
  datatype Chunk = Chunk(addr: int, size: int, hole: bool) {
    function End(): int {
      addr + size
    }

    function Payload(): int {
      addr + HEADER_SIZE
    }
  }

  datatype State = State(start: int, end: int, max: int, chunks: seq<Chunk>, index: seq<int>)

  // ---------------------------------------------------------------- the invariant

  /** The chunks tile lo .. hi-1 exactly. */
  ghost predicate Tiled(cs: seq<Chunk>, lo: int, hi: int) {
    && |cs| > 0 && cs[0].addr == lo && cs[|cs| - 1].End() == hi
    && (forall i :: 0 <= i < |cs| ==> cs[i].size >= OVERHEAD)
    && (forall i, j :: 0 <= i < |cs| && j == i + 1 < |cs| ==> cs[i].End() == cs[j].addr)
  }

  ghost predicate NoTouchingHoles(cs: seq<Chunk>) {
    forall i, j :: 0 <= i < |cs| && j == i + 1 < |cs| ==> !(cs[i].hole && cs[j].hole)
  }

  function Count(s: seq<int>, a: int): nat {
    if s == [] then 0 else (if s[0] == a then 1 else 0) + Count(s[1..], a)
  }

  /** How many holes start at `a`. */
  function HoleCount(cs: seq<Chunk>, a: int): nat {
    if cs == [] then 0 else (if cs[0].hole && cs[0].addr == a then 1 else 0) + HoleCount(cs[1..], a)
  }

  /** The index lists the header addresses of the holes, each as often as there is such a hole. */
  ghost predicate Listed(cs: seq<Chunk>, idx: seq<int>) {
    forall a :: Count(idx, a) == HoleCount(cs, a)
  }

  ghost predicate Inv(s: State) {
    && PAGE_SIZE <= s.start < s.end <= s.max <= 0xFFFFF000
    && s.start % PAGE_SIZE == 0 && s.end % PAGE_SIZE == 0
    && s.end - s.start >= HEAP_MIN_SIZE
    && Tiled(s.chunks, s.start, s.end)
    && NoTouchingHoles(s.chunks)
    && Listed(s.chunks, s.index)
  }

  // ---------------------------------------------------------------- looking things up

  /** The chunk that starts at `a`, or |cs| when there is none. */
  function IndexOf(cs: seq<Chunk>, a: int): (r: nat)
    ensures r <= |cs|
    ensures r < |cs| ==> cs[r].addr == a
    ensures forall q :: 0 <= q < r ==> cs[q].addr != a
  {
    if cs == [] || cs[0].addr == a then 0 else 1 + IndexOf(cs[1..], a)
  }

  function SizeOf(cs: seq<Chunk>, a: int): int {
    var j := IndexOf(cs, a);
    if j < |cs| then cs[j].size else 0
  }

  /** The first index entry whose hole has `need` bytes, or |idx| when there is none. */
  function FirstFit(cs: seq<Chunk>, idx: seq<int>, need: int): (r: nat)
    ensures r <= |idx|
    ensures r < |idx| ==> SizeOf(cs, idx[r]) >= need
    ensures forall q :: 0 <= q < r ==> SizeOf(cs, idx[q]) < need
  {
    if idx == [] || SizeOf(cs, idx[0]) >= need then 0 else 1 + FirstFit(cs, idx[1..], need)
  }

  /** Where an address enters the index: before the first hole that is not smaller. */
  function PlaceOf(cs: seq<Chunk>, idx: seq<int>, a: int): (p: nat)
    ensures p <= |idx|
    ensures p < |idx| ==> SizeOf(cs, idx[p]) >= SizeOf(cs, a)
    ensures forall q :: 0 <= q < p ==> SizeOf(cs, idx[q]) < SizeOf(cs, a)
  {
    FirstFit(cs, idx, SizeOf(cs, a))
  }

  function Placed(cs: seq<Chunk>, idx: seq<int>, a: int): seq<int> {
    var p := PlaceOf(cs, idx, a);
    idx[..p] + [a] + idx[p..]
  }

  /** Dropping the first occurrence of `a`. */
  function Without(idx: seq<int>, a: int): seq<int> {
    if idx == [] then [] else if idx[0] == a then idx[1..] else [idx[0]] + Without(idx[1..], a)
  }

  // ---------------------------------------------------------------- the three transitions

  /** Cutting `need` bytes off a hole; a rest too small for a chunk of its own stays with the block. */
  function Split(c: Chunk, need: int): seq<Chunk> {
    if c.size - need < OVERHEAD then [Chunk(c.addr, c.size, false)]
    else [Chunk(c.addr, need, false), Chunk(c.addr + need, c.size - need, true)]
  }

  function Replace(cs: seq<Chunk>, a: nat, b: nat, mid: seq<Chunk>): seq<Chunk>
    requires a <= b <= |cs|
  {
    cs[..a] + mid + cs[b..]
  }

  function CarveNext(s: State, need: int, pos: nat): State
    requires pos < |s.index| && IndexOf(s.chunks, s.index[pos]) < |s.chunks|
  {
    var j := IndexOf(s.chunks, s.index[pos]);
    var c := s.chunks[j];
    var cs := Replace(s.chunks, j, j + 1, Split(c, need));
    s.(chunks := cs, index := CarvedIndex(cs, s.index, pos, c, need))
  }

  function CarvedIndex(cs: seq<Chunk>, idx: seq<int>, pos: nat, c: Chunk, need: int): seq<int>
    requires pos < |idx|
  {
    var rest := idx[..pos] + idx[pos + 1..];
    if c.size - need < OVERHEAD then rest else Placed(cs, rest, c.addr + need)
  }

  /** expand() rounds up, and adds a page even to a length that is already a multiple. */
  function RoundedUp(n: int): int {
    n / PAGE_SIZE * PAGE_SIZE + PAGE_SIZE
  }

  function ExpandedLength(n: int): int {
    if n / PAGE_SIZE == 0 then n else RoundedUp(n)
  }

  function GrownEnd(s: State, need: int): int {
    s.start + RoundedUp(s.end - s.start + need)
  }

  /**
   * The limit test of expand() adds in 32 bits: these are the lengths for which it overlooks that the
   * heap would end beyond its limit.
   */
  predicate LimitMissed(start: int, max: int, requested: int) {
    WORD <= start + ExpandedLength(requested) <= WORD + max
  }

  /** The bytes find_smallest_hole sets aside so that the payload starts on a page. */
  function AlignOffset(a: int): int {
    if (a + HEADER_SIZE) % PAGE_SIZE != 0 then PAGE_SIZE - (a + HEADER_SIZE) % PAGE_SIZE else 0
  }

  predicate GrowClean(s: State) {
    s.index == [] || (|s.chunks| > 0 && s.chunks[|s.chunks| - 1].hole)
  }

  function GrowNext(s: State, need: int): State
    requires |s.chunks| > 0 && GrowClean(s)
  {
    var end := GrownEnd(s, need);
    var n := |s.chunks|;
    if s.index == [] then s.(end := end, chunks := s.chunks + [Chunk(s.end, end - s.end, true)], index := [s.end])
    else s.(end := end, chunks := s.chunks[..n - 1] + [s.chunks[n - 1].(size := s.chunks[n - 1].size + end - s.end)])
  }

  /** The request of `size` bytes finds its hole, in a grown heap if need be. */
  ghost predicate AllocFits(s: State, size: int) {
    FirstFit(s.chunks, s.index, size + OVERHEAD) < |s.index|
  }

  ghost function AllocNext(s: State, size: int): (s': State)
    requires Inv(s) && size >= 0
    requires AllocFits(s, size) || (GrowClean(s) && GrownEnd(s, size + OVERHEAD) <= s.max)
    ensures Inv(s')
  {
    var need := size + OVERHEAD;
    if AllocFits(s, size) then
      var pos := FirstFit(s.chunks, s.index, need);
      CarveKeepsInv(s, need, pos);
      CarveNext(s, need, pos)
    else
      GrowKeepsInv(s, need);
      var g := GrowNext(s, need);
      var pos := FirstFit(g.chunks, g.index, need);
      CarveKeepsInv(g, need, pos);
      CarveNext(g, need, pos)
  }

  /** The payload address of that allocation. */
  ghost function AllocAddress(s: State, size: int): int
    requires Inv(s) && size >= 0
    requires AllocFits(s, size) || (GrowClean(s) && GrownEnd(s, size + OVERHEAD) <= s.max)
  {
    var need := size + OVERHEAD;
    if AllocFits(s, size) then s.index[FirstFit(s.chunks, s.index, need)] + HEADER_SIZE
    else
      GrowKeepsInv(s, need);
      var g := GrowNext(s, need);
      g.index[FirstFit(g.chunks, g.index, need)] + HEADER_SIZE
  }

  /** contract() as written: a length with bit 12 set becomes two pages, then the minimum applies. */
  function ContractedLength(n: int): int {
    var x := if n / PAGE_SIZE % 2 == 1 then 2 * PAGE_SIZE else n;
    if x < HEAP_MIN_SIZE then HEAP_MIN_SIZE else x
  }

  predicate HoleBefore(cs: seq<Chunk>, k: nat) {
    0 < k <= |cs| && cs[k - 1].hole
  }

  predicate HoleAfter(cs: seq<Chunk>, k: nat) {
    k + 1 < |cs| && cs[k + 1].hole
  }

  function MergeLo(cs: seq<Chunk>, k: nat): nat
    requires k < |cs|
  {
    if HoleBefore(cs, k) then k - 1 else k
  }

  function MergeHi(cs: seq<Chunk>, k: nat): nat
    requires k < |cs|
  {
    if HoleAfter(cs, k) then k + 2 else k + 1
  }

  /** The freed chunk together with the holes that touch it. */
  function Merged(cs: seq<Chunk>, k: nat): Chunk
    requires k < |cs|
  {
    var lo := cs[MergeLo(cs, k)];
    Chunk(lo.addr, cs[MergeHi(cs, k) - 1].End() - lo.addr, true)
  }

  /**
   * When free() leaves the heap well formed: it did not absorb a hole with a chunk behind it,
   * and a hole that reaches the end starts low enough for contract() to stop at HEAP_MIN_SIZE.
   */
  predicate FreeClean(s: State, k: nat)
    requires k < |s.chunks|
  {
    && (HoleAfter(s.chunks, k) ==> k + 2 == |s.chunks|)
    && (MergeHi(s.chunks, k) == |s.chunks| ==>
          Merged(s.chunks, k).addr - s.start <= HEAP_MIN_SIZE - OVERHEAD)
  }

  function FreeNext(s: State, k: nat): State
    requires k < |s.chunks|
  {
    var cs := s.chunks;
    var lo, hi := MergeLo(cs, k), MergeHi(cs, k);
    var end := if hi == |cs| then s.start + HEAP_MIN_SIZE else s.end;
    var m := Merged(cs, k);
    var m' := if hi == |cs| then m.(size := end - m.addr) else m;
    var cs' := Replace(cs, lo, hi, [m']);
    s.(end := end, chunks := cs', index := FreedIndex(cs, cs', s.index, k))
  }

  function FreedIndex(cs: seq<Chunk>, cs': seq<Chunk>, idx: seq<int>, k: nat): seq<int>
    requires k < |cs|
  {
    var rest := if HoleAfter(cs, k) then Without(idx, cs[k + 1].addr) else idx;
    if HoleBefore(cs, k) then rest else Placed(cs', rest, cs[k].addr)
  }

  /** `p` is the payload of a live block. */
  ghost predicate BlockAt(s: State, p: int) {
    IndexOf(s.chunks, p - HEADER_SIZE) < |s.chunks| && !s.chunks[IndexOf(s.chunks, p - HEADER_SIZE)].hole
  }

  ghost function BlockIndex(s: State, p: int): (k: nat)
    requires BlockAt(s, p)
    ensures k < |s.chunks| && !s.chunks[k].hole && s.chunks[k].Payload() == p
  {
    IndexOf(s.chunks, p - HEADER_SIZE)
  }

  // ---------------------------------------------------------------- lemmas about tilings

  lemma {:induction false} TiledOrder(cs: seq<Chunk>, lo: int, hi: int, i: nat, j: nat)
    requires Tiled(cs, lo, hi) && i < j < |cs|
    ensures cs[i].End() <= cs[j].addr
    decreases j - i
  {
    if j > i + 1 {
      TiledOrder(cs, lo, hi, i, j - 1);
      assert cs[j - 1].End() == cs[j].addr;
    }
  }

  lemma TiledWithin(cs: seq<Chunk>, lo: int, hi: int, i: nat)
    requires Tiled(cs, lo, hi) && i < |cs|
    ensures lo <= cs[i].addr && cs[i].End() <= hi
  {
    if 0 < i {
      TiledOrder(cs, lo, hi, 0, i);
    }
    if i < |cs| - 1 {
      TiledOrder(cs, lo, hi, i, |cs| - 1);
    }
  }

  lemma IndexOfAt(cs: seq<Chunk>, lo: int, hi: int, i: nat)
    requires Tiled(cs, lo, hi) && i < |cs|
    ensures IndexOf(cs, cs[i].addr) == i && SizeOf(cs, cs[i].addr) == cs[i].size
  {
    var r := IndexOf(cs, cs[i].addr);
    if r < i {
      TiledOrder(cs, lo, hi, r, i);
    }
  }

  lemma ReplaceTiled(cs: seq<Chunk>, lo: int, hi: int, a: nat, b: nat, mid: seq<Chunk>, hi': int)
    requires Tiled(cs, lo, hi) && a < b <= |cs|
    requires Tiled(mid, cs[a].addr, hi')
    requires b < |cs| ==> hi' == cs[b].addr
    ensures Tiled(Replace(cs, a, b, mid), lo, if b < |cs| then hi else hi')
  {
  }

  // ---------------------------------------------------------------- lemmas about counting

  lemma {:induction false} CountConcat(s: seq<int>, t: seq<int>, a: int)
    ensures Count(s + t, a) == Count(s, a) + Count(t, a)
  {
    if s == [] {
      assert s + t == t;
    } else {
      CountConcat(s[1..], t, a);
      assert (s + t)[1..] == s[1..] + t;
    }
  }

  lemma {:induction false} CountMember(s: seq<int>, a: int)
    ensures a in s <==> Count(s, a) > 0
  {
    if s != [] {
      CountMember(s[1..], a);
      assert a in s <==> a == s[0] || a in s[1..];
    }
  }

  lemma CountTwice(s: seq<int>, p: nat, q: nat)
    requires p < q < |s| && s[p] == s[q]
    ensures Count(s, s[p]) >= 2
  {
    assert s == s[..q] + s[q..];
    CountConcat(s[..q], s[q..], s[p]);
    CountMember(s[..q], s[p]);
    CountMember(s[q..], s[p]);
    assert s[..q][p] == s[p] && s[q..][0] == s[p];
  }

  lemma {:induction false} HoleCountConcat(cs: seq<Chunk>, ds: seq<Chunk>, a: int)
    ensures HoleCount(cs + ds, a) == HoleCount(cs, a) + HoleCount(ds, a)
  {
    if cs == [] {
      assert cs + ds == ds;
    } else {
      HoleCountConcat(cs[1..], ds, a);
      assert (cs + ds)[1..] == cs[1..] + ds;
    }
  }

  lemma {:induction false} HoleCountMember(cs: seq<Chunk>, a: int)
    ensures HoleCount(cs, a) > 0 <==> exists j :: 0 <= j < |cs| && cs[j].hole && cs[j].addr == a
  {
    if cs != [] {
      HoleCountMember(cs[1..], a);
      if exists j :: 0 <= j < |cs| && cs[j].hole && cs[j].addr == a {
        var j :| 0 <= j < |cs| && cs[j].hole && cs[j].addr == a;
        assert j > 0 ==> cs[1..][j - 1] == cs[j];
      }
      if HoleCount(cs[1..], a) > 0 {
        var j :| 0 <= j < |cs[1..]| && cs[1..][j].hole && cs[1..][j].addr == a;
        assert cs[j + 1] == cs[1..][j];
      }
    }
  }

  lemma HoleCountReplace(cs: seq<Chunk>, a: nat, b: nat, mid: seq<Chunk>, x: int)
    requires a <= b <= |cs|
    ensures HoleCount(Replace(cs, a, b, mid), x) + HoleCount(cs[a..b], x) == HoleCount(cs, x) + HoleCount(mid, x)
  {
    assert cs == cs[..a] + cs[a..b] + cs[b..];
    HoleCountConcat(cs[..a] + cs[a..b], cs[b..], x);
    HoleCountConcat(cs[..a], cs[a..b], x);
    HoleCountConcat(cs[..a] + mid, cs[b..], x);
    HoleCountConcat(cs[..a], mid, x);
  }

  lemma OneHoleCount(c: Chunk, a: int)
    ensures HoleCount([], a) == 0 && HoleCount([c], a) == if c.hole && c.addr == a then 1 else 0
  {
  }

  lemma HoleCountOnce(cs: seq<Chunk>, lo: int, hi: int, a: int)
    requires Tiled(cs, lo, hi)
    ensures HoleCount(cs, a) <= 1
  {
    hide HoleCount;
    if HoleCount(cs, a) > 1 {
      HoleCountMember(cs, a);
      var j :| 0 <= j < |cs| && cs[j].hole && cs[j].addr == a;
      HoleCountReplace(cs, j, j + 1, [], a);
      assert cs[j..j + 1] == [cs[j]];
      OneHoleCount(cs[j], a);
      var ds := Replace(cs, j, j + 1, []);
      HoleCountMember(ds, a);
      var k :| 0 <= k < |ds| && ds[k].hole && ds[k].addr == a;
      if k < j {
        assert ds[k] == cs[k] && cs[k].size >= OVERHEAD;
        TiledOrder(cs, lo, hi, k, j);
      } else {
        assert ds[k] == cs[k + 1] && cs[j].size >= OVERHEAD;
        TiledOrder(cs, lo, hi, j, k + 1);
      }
    }
  }

  /** Every index entry is the address of a hole. */
  lemma Indexed(s: State, pos: nat) returns (j: nat)
    requires Inv(s) && pos < |s.index|
    ensures j < |s.chunks| && s.chunks[j].hole && s.chunks[j].addr == s.index[pos]
    ensures j == IndexOf(s.chunks, s.index[pos]) && SizeOf(s.chunks, s.index[pos]) == s.chunks[j].size
  {
    var a := s.index[pos];
    CountMember(s.index, a);
    HoleCountMember(s.chunks, a);
    j :| 0 <= j < |s.chunks| && s.chunks[j].hole && s.chunks[j].addr == a;
    IndexOfAt(s.chunks, s.start, s.end, j);
  }

  /** No hole is listed twice. */
  lemma IndexedOnce(s: State, p: nat, q: nat)
    requires Inv(s) && p < q < |s.index|
    ensures s.index[p] != s.index[q]
  {
    HoleCountOnce(s.chunks, s.start, s.end, s.index[p]);
    if s.index[p] == s.index[q] {
      CountTwice(s.index, p, q);
    }
  }

  /** Every hole is listed. */
  lemma HoleListed(s: State, j: nat) returns (pos: nat)
    requires Inv(s) && j < |s.chunks| && s.chunks[j].hole
    ensures pos < |s.index| && s.index[pos] == s.chunks[j].addr
  {
    HoleCountMember(s.chunks, s.chunks[j].addr);
    CountMember(s.index, s.chunks[j].addr);
    pos :| pos < |s.index| && s.index[pos] == s.chunks[j].addr;
  }

  lemma PlacedCount(cs: seq<Chunk>, idx: seq<int>, a: int, x: int)
    ensures Count(Placed(cs, idx, a), x) == Count(idx, x) + (if x == a then 1 else 0)
  {
    var p := PlaceOf(cs, idx, a);
    assert idx == idx[..p] + idx[p..];
    CountConcat(idx[..p], idx[p..], x);
    CountConcat(idx[..p] + [a], idx[p..], x);
    CountConcat(idx[..p], [a], x);
  }

  lemma RemovedCount(idx: seq<int>, pos: nat, x: int)
    requires pos < |idx|
    ensures Count(idx[..pos] + idx[pos + 1..], x) == Count(idx, x) - (if x == idx[pos] then 1 else 0)
  {
    assert idx == idx[..pos] + [idx[pos]] + idx[pos + 1..];
    CountConcat(idx[..pos] + [idx[pos]], idx[pos + 1..], x);
    CountConcat(idx[..pos], [idx[pos]], x);
    CountConcat(idx[..pos], idx[pos + 1..], x);
  }

  lemma {:induction false} WithoutCount(idx: seq<int>, a: int, x: int)
    requires a in idx
    ensures Count(Without(idx, a), x) == Count(idx, x) - (if x == a then 1 else 0)
  {
    if idx[0] != a {
      WithoutCount(idx[1..], a, x);
      CountConcat([idx[0]], Without(idx[1..], a), x);
    }
  }

  // ---------------------------------------------------------------- the transitions keep the invariant

  lemma SplitCount(c: Chunk, need: int, x: int)
    ensures HoleCount(Split(c, need), x) == if c.size - need >= OVERHEAD && x == c.addr + need then 1 else 0
  {
    if c.size - need >= OVERHEAD {
      var y, z := Split(c, need)[0], Split(c, need)[1];
      assert Split(c, need) == [y] + [z];
      HoleCountConcat([y], [z], x);
    }
  }

  lemma CarvedCount(cs: seq<Chunk>, idx: seq<int>, pos: nat, c: Chunk, need: int, x: int)
    requires pos < |idx|
    ensures Count(CarvedIndex(cs, idx, pos, c, need), x)
         == Count(idx, x) - (if x == idx[pos] then 1 else 0) + HoleCount(Split(c, need), x)
  {
    RemovedCount(idx, pos, x);
    PlacedCount(cs, idx[..pos] + idx[pos + 1..], c.addr + need, x);
    SplitCount(c, need, x);
  }

  lemma CarveListed(cs: seq<Chunk>, idx: seq<int>, need: int, pos: nat, j: nat)
    requires Listed(cs, idx) && pos < |idx|
    requires j < |cs| && cs[j].hole && cs[j].addr == idx[pos]
    ensures var cs' := Replace(cs, j, j + 1, Split(cs[j], need));
            Listed(cs', CarvedIndex(cs', idx, pos, cs[j], need))
  {
    var cs' := Replace(cs, j, j + 1, Split(cs[j], need));
    assert cs[j..j + 1] == [cs[j]];
    forall x ensures Count(CarvedIndex(cs', idx, pos, cs[j], need), x) == HoleCount(cs', x) {
      CarvedCount(cs', idx, pos, cs[j], need, x);
      HoleCountReplace(cs, j, j + 1, Split(cs[j], need), x);
    }
  }

  lemma CarveKeepsInv(s: State, need: int, pos: nat)
    requires Inv(s) && need >= OVERHEAD && pos < |s.index| && SizeOf(s.chunks, s.index[pos]) >= need
    ensures IndexOf(s.chunks, s.index[pos]) < |s.chunks|
    ensures Inv(CarveNext(s, need, pos))
  {
    var j := Indexed(s, pos);
    CarveListed(s.chunks, s.index, need, pos, j);
    CarveTiles(s.chunks, s.start, s.end, need, j);
  }

  lemma CarveTiles(cs: seq<Chunk>, lo: int, hi: int, need: int, j: nat)
    requires Tiled(cs, lo, hi) && NoTouchingHoles(cs) && j < |cs| && cs[j].hole && OVERHEAD <= need <= cs[j].size
    ensures Tiled(Replace(cs, j, j + 1, Split(cs[j], need)), lo, hi)
    ensures NoTouchingHoles(Replace(cs, j, j + 1, Split(cs[j], need)))
  {
    assert j + 1 < |cs| ==> cs[j].End() == cs[j + 1].addr && !cs[j + 1].hole;
    ReplaceTiled(cs, lo, hi, j, j + 1, Split(cs[j], need), cs[j].End());
    NoTouchingReplace(cs, j, j + 1, Split(cs[j], need));
  }

  lemma NoTouchingReplace(cs: seq<Chunk>, a: nat, b: nat, mid: seq<Chunk>)
    requires NoTouchingHoles(cs) && a < b <= |cs| && |mid| > 0 && NoTouchingHoles(mid)
    requires 0 < a ==> !(cs[a - 1].hole && mid[0].hole)
    requires b < |cs| ==> !(mid[|mid| - 1].hole && cs[b].hole)
    ensures NoTouchingHoles(Replace(cs, a, b, mid))
  {
  }

  lemma GrownEndFits(s: State, need: int)
    requires Inv(s) && need >= 0
    ensures GrownEnd(s, need) % PAGE_SIZE == 0
    ensures GrownEnd(s, need) - s.end > need
    ensures GrownEnd(s, need) - s.end >= PAGE_SIZE
  {
  }

  lemma GrowKeepsInv(s: State, need: int)
    requires Inv(s) && need >= OVERHEAD && GrowClean(s) && GrownEnd(s, need) <= s.max
    ensures |s.chunks| > 0 && Inv(GrowNext(s, need))
    ensures FirstFit(GrowNext(s, need).chunks, GrowNext(s, need).index, need) < |GrowNext(s, need).index|
  {
    GrownEndFits(s, need);
    if s.index == [] {
      GrowFromNothing(s, need);
    } else {
      GrowLastHole(s, need);
    }
  }

  lemma GrowFromNothing(s: State, need: int)
    requires Inv(s) && need >= OVERHEAD && s.index == [] && s.end + need < GrownEnd(s, need) <= s.max
    requires GrownEnd(s, need) % PAGE_SIZE == 0
    ensures Inv(GrowNext(s, need))
    ensures FirstFit(GrowNext(s, need).chunks, GrowNext(s, need).index, need) < |GrowNext(s, need).index|
  {
    var cs, n, end := s.chunks, |s.chunks|, GrownEnd(s, need);
    if cs[n - 1].hole {
      var pos := HoleListed(s, n - 1);
    }
    var h := Chunk(s.end, end - s.end, true);
    HoleAppended(cs, s.start, s.end, h);
    var s' := GrowNext(s, need);
    assert s'.chunks == cs + [h] && s'.index == [h.addr];
    IndexOfAt(s'.chunks, s.start, end, n);
    assert SizeOf(s'.chunks, s'.index[0]) == h.size;
  }

  lemma HoleAppended(cs: seq<Chunk>, lo: int, hi: int, h: Chunk)
    requires Tiled(cs, lo, hi) && NoTouchingHoles(cs) && Listed(cs, [])
    requires !cs[|cs| - 1].hole && h.hole && h.addr == hi && h.size >= OVERHEAD
    ensures Tiled(cs + [h], lo, h.End()) && NoTouchingHoles(cs + [h]) && Listed(cs + [h], [h.addr])
  {
    forall x ensures Count([h.addr], x) == HoleCount(cs + [h], x) {
      assert Count([], x) == HoleCount(cs, x);
      HoleCountConcat(cs, [h], x);
    }
  }

  lemma GrowLastHole(s: State, need: int)
    requires Inv(s) && need >= OVERHEAD && s.index != [] && GrowClean(s) && s.end + need < GrownEnd(s, need) <= s.max
    requires GrownEnd(s, need) % PAGE_SIZE == 0
    ensures Inv(GrowNext(s, need))
    ensures FirstFit(GrowNext(s, need).chunks, GrowNext(s, need).index, need) < |GrowNext(s, need).index|
  {
    var cs, n, end := s.chunks, |s.chunks|, GrownEnd(s, need);
    var h := cs[n - 1].(size := cs[n - 1].size + end - s.end);
    LastHoleResized(cs, s.start, s.end, s.index, h, end);
    assert Replace(cs, n - 1, n, [h]) == GrowNext(s, need).chunks;
    var pos := HoleListed(s, n - 1);
    IndexOfAt(GrowNext(s, need).chunks, s.start, end, n - 1);
  }

  lemma LastHoleResized(cs: seq<Chunk>, lo: int, hi: int, idx: seq<int>, h: Chunk, hi': int)
    requires Tiled(cs, lo, hi) && NoTouchingHoles(cs) && Listed(cs, idx)
    requires cs[|cs| - 1].hole && h.hole && h.addr == cs[|cs| - 1].addr && h.size >= OVERHEAD && h.End() == hi'
    ensures var cs' := Replace(cs, |cs| - 1, |cs|, [h]);
            Tiled(cs', lo, hi') && NoTouchingHoles(cs') && Listed(cs', idx)
  {
    var n := |cs|;
    ReplaceTiled(cs, lo, hi, n - 1, n, [h], hi');
    NoTouchingReplace(cs, n - 1, n, [h]);
    assert cs[n - 1..n] == [cs[n - 1]];
    forall x ensures Count(idx, x) == HoleCount(Replace(cs, n - 1, n, [h]), x) {
      HoleCountReplace(cs, n - 1, n, [h], x);
    }
  }

  lemma MergedCount(cs: seq<Chunk>, k: nat, x: int)
    requires k < |cs| && !cs[k].hole
    ensures HoleCount(cs[MergeLo(cs, k)..MergeHi(cs, k)], x)
         == (if HoleBefore(cs, k) && x == cs[k - 1].addr then 1 else 0)
          + (if HoleAfter(cs, k) && x == cs[k + 1].addr then 1 else 0)
  {
    var lo, hi := MergeLo(cs, k), MergeHi(cs, k);
    var l, r := cs[lo..k], cs[k + 1..hi];
    assert cs[lo..hi] == l + [cs[k]] + r;
    assert l == if HoleBefore(cs, k) then [cs[k - 1]] else [];
    assert r == if HoleAfter(cs, k) then [cs[k + 1]] else [];
    HoleCountConcat(l + [cs[k]], r, x);
    HoleCountConcat(l, [cs[k]], x);
  }

  lemma FreedCount(cs: seq<Chunk>, cs': seq<Chunk>, idx: seq<int>, k: nat, x: int)
    requires k < |cs| && (HoleAfter(cs, k) ==> cs[k + 1].addr in idx)
    ensures Count(FreedIndex(cs, cs', idx, k), x)
         == Count(idx, x) - (if HoleAfter(cs, k) && x == cs[k + 1].addr then 1 else 0)
          + (if !HoleBefore(cs, k) && x == cs[k].addr then 1 else 0)
  {
    var rest := if HoleAfter(cs, k) then Without(idx, cs[k + 1].addr) else idx;
    if HoleAfter(cs, k) {
      WithoutCount(idx, cs[k + 1].addr, x);
    }
    PlacedCount(cs', rest, cs[k].addr, x);
  }

  lemma FreeListed(cs: seq<Chunk>, idx: seq<int>, k: nat, m: Chunk)
    requires Listed(cs, idx) && k < |cs| && !cs[k].hole
    requires m.hole && m.addr == Merged(cs, k).addr
    ensures var cs' := Replace(cs, MergeLo(cs, k), MergeHi(cs, k), [m]);
            Listed(cs', FreedIndex(cs, cs', idx, k))
  {
    var lo, hi := MergeLo(cs, k), MergeHi(cs, k);
    var cs' := Replace(cs, lo, hi, [m]);
    if HoleAfter(cs, k) {
      HoleCountMember(cs, cs[k + 1].addr);
      CountMember(idx, cs[k + 1].addr);
    }
    forall x ensures Count(FreedIndex(cs, cs', idx, k), x) == HoleCount(cs', x) {
      FreedCount(cs, cs', idx, k, x);
      HoleCountReplace(cs, lo, hi, [m], x);
      MergedCount(cs, k, x);
    }
  }

  lemma MergedSpan(s: State, k: nat)
    requires Inv(s) && k < |s.chunks|
    ensures var lo, hi := MergeLo(s.chunks, k), MergeHi(s.chunks, k);
            var m := Merged(s.chunks, k);
            && s.start <= m.addr && m.End() <= s.end && m.size >= s.chunks[k].size
            && m.addr <= s.chunks[k].addr && s.chunks[k].End() <= m.End()
            && (if hi < |s.chunks| then m.End() == s.chunks[hi].addr else m.End() == s.end)
  {
    var cs, lo, hi := s.chunks, MergeLo(s.chunks, k), MergeHi(s.chunks, k);
    TiledWithin(cs, s.start, s.end, lo);
    TiledWithin(cs, s.start, s.end, hi - 1);
    if lo < k {
      TiledOrder(cs, s.start, s.end, lo, k);
    }
    if k < hi - 1 {
      TiledOrder(cs, s.start, s.end, k, hi - 1);
    }
  }

  lemma FreeKeepsInv(s: State, k: nat)
    requires Inv(s) && k < |s.chunks| && !s.chunks[k].hole && FreeClean(s, k)
    ensures Inv(FreeNext(s, k))
  {
    MergedSpan(s, k);
    var m' := FreeNext(s, k).chunks[MergeLo(s.chunks, k)];
    FreeListed(s.chunks, s.index, k, m');
    FreeTiles(s.chunks, s.start, s.end, k, m');
  }

  lemma FreeTiles(cs: seq<Chunk>, lo: int, hi: int, k: nat, m: Chunk)
    requires Tiled(cs, lo, hi) && NoTouchingHoles(cs) && k < |cs| && !cs[k].hole
    requires m.addr == Merged(cs, k).addr && m.size >= OVERHEAD
    requires MergeHi(cs, k) < |cs| ==> m.End() == cs[MergeHi(cs, k)].addr
    ensures var cs' := Replace(cs, MergeLo(cs, k), MergeHi(cs, k), [m]);
            Tiled(cs', lo, if MergeHi(cs, k) < |cs| then hi else m.End()) && NoTouchingHoles(cs')
  {
    var a, b := MergeLo(cs, k), MergeHi(cs, k);
    ReplaceTiled(cs, lo, hi, a, b, [m], m.End());
    assert 0 < a ==> !cs[a - 1].hole;
    assert b < |cs| ==> !cs[b].hole;
    NoTouchingReplace(cs, a, b, [m]);
  }
}
