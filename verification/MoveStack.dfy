/** move_stack of src/process/task.c: the running stack is copied elsewhere and its saved base pointers adjusted. */
module MoveStack {
  const WORD := 0x1_0000_0000
  const RAM_WORDS := 0x4000_0000
  const PAGE_WORDS := 1024

  /**
   * The old stack reaches from `sp` up to `top`; the new one hangs down from `newTop`.  All of these are
   * word-aligned in the source and are given here as word numbers: word `w` is at address 4 * w.
   */
  datatype Stacks = Stacks(sp: int, top: int, newTop: int, size: int) {
    /** What the source asks of its caller: a page-aligned place of whole pages, deep enough, and no overlap. */
    ghost predicate Valid() {
      && 0 <= sp <= top < RAM_WORDS
      && newTop % PAGE_WORDS == 0 && size % PAGE_WORDS == 0 && 0 < size < newTop < RAM_WORDS
      && top - sp < size
      && (top <= newTop - size || newTop < sp)
    }

    function Delta(): int {
      newTop - top
    }

    function NewSp(): int {
      sp + Delta()
    }

    /** A word that looks like an address inside the old stack is taken for a base pointer. */
    predicate Inside(v: int) {
      4 * sp < v < 4 * top
    }

    function Shift(v: int): int {
      if Inside(v) then v + 4 * Delta() else v
    }
  }

  /** Lines 50-53: a frame for every page from the top downwards, the page at the bottom included. */
  method MapPages(newTop: int, size: int, pages: set<int>) returns (pages': set<int>)
    requires newTop % PAGE_WORDS == 0 && size % PAGE_WORDS == 0 && 0 < size < newTop
    ensures pages <= pages'
    ensures forall w :: newTop - size <= w < newTop + PAGE_WORDS ==> w / PAGE_WORDS in pages'
  {
    pages' := pages;
    var i := newTop;
    while i >= newTop - size
      invariant i % PAGE_WORDS == 0 && newTop - size - PAGE_WORDS <= i <= newTop
      invariant pages <= pages'
      invariant forall w :: i + PAGE_WORDS <= w < newTop + PAGE_WORDS ==> w / PAGE_WORDS in pages'
    {
      pages' := pages' + {i / PAGE_WORDS};
      i := i - PAGE_WORDS;
    }
  }

  /** Line 70: memcpy of the stack, a word at a time. */
  method CopyStack(ram: array<int>, dest: int, source: int, len: nat)
    requires 0 <= source && 0 <= dest && source + len <= ram.Length && dest + len <= ram.Length
    requires source + len <= dest || dest + len <= source
    modifies ram
    ensures forall k :: 0 <= k < ram.Length ==>
              ram[k] == if dest <= k < dest + len then old(ram[source + k - dest]) else old(ram[k])
  {
    var dp, sp, left := dest, source, len;
    while left != 0
      invariant 0 <= left <= len && dp == dest + len - left && sp == source + len - left
      invariant forall k :: 0 <= k < ram.Length ==>
                  ram[k] == if dest <= k < dp then old(ram[source + k - dest]) else old(ram[k])
    {
      ram[dp] := ram[sp];
      dp, sp, left := dp + 1, sp + 1, left - 1;
    }
  }

  /** Lines 75-83: whatever looks like an address in the old stack is moved along. */
  method Relocate(ram: array<int>, s: Stacks, offset: int)
    requires s.Valid() && ram.Length == RAM_WORDS && offset == 4 * s.Delta() % WORD
    modifies ram
    ensures forall k :: 0 <= k < ram.Length ==>
              ram[k] == if s.newTop - s.size < k <= s.newTop then s.Shift(old(ram[k])) else old(ram[k])
  {
    var i := s.newTop;
    while i > s.newTop - s.size
      invariant s.newTop - s.size <= i <= s.newTop
      invariant forall k :: 0 <= k < ram.Length ==>
                  ram[k] == if i < k <= s.newTop then s.Shift(old(ram[k])) else old(ram[k])
    {
      var tmp := ram[i];
      if 4 * s.sp < tmp < 4 * s.top {
        ShiftWraps(s, tmp);
        tmp := (tmp + offset) % WORD;
        ram[i] := tmp;
      }
      i := i - 1;
    }
  }

  lemma AddWraps(a: int, x: int)
    ensures (a + x % WORD) % WORD == (a + x) % WORD
  {
  }

  /** The 32-bit sum is the intended address. */
  lemma ShiftWraps(s: Stacks, v: int)
    requires s.Valid() && s.Inside(v)
    ensures (v + 4 * s.Delta() % WORD) % WORD == s.Shift(v)
  {
  }

  /** The 32-bit sums for the two registers. */
  lemma RegistersWrap(s: Stacks, bp: int)
    requires s.Valid() && 0 <= bp < WORD
    ensures (4 * s.sp + 4 * s.Delta() % WORD) % WORD == 4 * s.NewSp()
    ensures 0 < s.newTop - s.size < s.NewSp() <= s.newTop
    ensures var b := (bp + 4 * s.Delta() % WORD) % WORD;
            b == (bp + 4 * s.Delta()) % WORD && (s.Inside(bp) ==> b == s.Shift(bp))
  {
    AddWraps(4 * s.sp, 4 * s.Delta());
    AddWraps(bp, 4 * s.Delta());
    if s.Inside(bp) {
      ShiftWraps(s, bp);
    }
  }

  /** move_stack.  `bp` is the base pointer on entry, an address; `pages` are the pages that are mapped. */
  method MoveStack(ram: array<int>, s: Stacks, bp: int, pages: set<int>) returns (newSp: int, newBp: int, pages': set<int>)
    requires s.Valid() && ram.Length == RAM_WORDS && 0 <= bp < WORD
    modifies ram
    ensures newSp == 4 * s.NewSp() && newBp == (bp + 4 * s.Delta()) % WORD
    ensures s.Inside(bp) ==> newBp == s.Shift(bp)
    // every copied word is shifted once if it lies inside the old stack, and verbatim otherwise
    ensures var was, now := old(ram[..]), ram[..];
            forall k :: s.NewSp() <= k < s.newTop ==> now[k] == s.Shift(was[k - s.Delta()])
    // the same in numbers: every value strictly between the old stack pointer and the old top moves along, no other does
    ensures newSp == 4 * (s.sp + s.newTop - s.top) && newBp == (bp + 4 * (s.newTop - s.top)) % WORD
    ensures var was, now := old(ram[..]), ram[..];
            forall k :: s.newTop - s.size < k <= s.newTop ==>
              var v := if s.sp + s.newTop - s.top <= k < s.newTop then was[k - (s.newTop - s.top)] else was[k];
              now[k] == if 4 * s.sp < v < 4 * s.top then v + 4 * (s.newTop - s.top) else v
    // nothing is written below the new stack or above its top word: the old stack is left alone
    ensures var was, now := old(ram[..]), ram[..];
            forall k :: 0 <= k < RAM_WORDS && !(s.newTop - s.size < k <= s.newTop) ==> now[k] == was[k]
    // every word that may be written lies in a mapped page
    ensures pages <= pages' && forall w :: s.newTop - s.size < w <= s.newTop ==> w / PAGE_WORDS in pages'
  {
    hide Stacks.Shift, Stacks.Inside;
    pages' := MapPages(s.newTop, s.size, pages);
    ghost var was := ram[..];
    var offset := 4 * (s.newTop - s.top) % WORD;
    newSp := (4 * s.sp + offset) % WORD;
    newBp := (bp + offset) % WORD;
    RegistersWrap(s, bp);
    assert newSp == 4 * s.NewSp();
    CopyStack(ram, newSp / 4, s.sp, s.top - s.sp);
    ghost var copied := ram[..];
    assert forall k :: s.NewSp() <= k < s.newTop ==> copied[k] == was[k - s.Delta()];
    assert forall k :: 0 <= k < RAM_WORDS && !(s.NewSp() <= k < s.newTop) ==> copied[k] == was[k];
    Relocate(ram, s, offset);
    WordsMoved(s, was, copied, ram[..]);
  }

  lemma WordsMoved(s: Stacks, was: seq<int>, copied: seq<int>, now: seq<int>)
    requires s.Valid() && |was| == |copied| == |now| == RAM_WORDS && s.newTop - s.size < s.NewSp()
    requires forall k :: s.NewSp() <= k < s.newTop ==> copied[k] == was[k - s.Delta()]
    requires forall k :: 0 <= k < RAM_WORDS && !(s.NewSp() <= k < s.newTop) ==> copied[k] == was[k]
    requires forall k :: s.newTop - s.size < k <= s.newTop ==> now[k] == s.Shift(copied[k])
    requires forall k :: 0 <= k < RAM_WORDS && !(s.newTop - s.size < k <= s.newTop) ==> now[k] == copied[k]
    ensures forall k :: s.NewSp() <= k < s.newTop ==> now[k] == s.Shift(was[k - s.Delta()])
    ensures forall k :: s.newTop - s.size < k <= s.newTop ==>
              var v := if s.sp + s.newTop - s.top <= k < s.newTop then was[k - (s.newTop - s.top)] else was[k];
              now[k] == if 4 * s.sp < v < 4 * s.top then v + 4 * (s.newTop - s.top) else v
    ensures forall k :: 0 <= k < RAM_WORDS && !(s.newTop - s.size < k <= s.newTop) ==> now[k] == was[k]
  {
    forall k | s.newTop - s.size < k <= s.newTop
      ensures var v := if s.sp + s.newTop - s.top <= k < s.newTop then was[k - (s.newTop - s.top)] else was[k];
              now[k] == (if 4 * s.sp < v < 4 * s.top then v + 4 * (s.newTop - s.top) else v)
    {
      assert now[k] == s.Shift(copied[k]);
    }
    forall k | s.NewSp() <= k < s.newTop ensures now[k] == s.Shift(was[k - s.Delta()]) {
      assert copied[k] == was[k - s.Delta()];
    }
  }

  // ---------------------------------------------------------------- the chain of base pointers

  /** A base pointer that can be followed: word-aligned and inside the stack. */
  predicate Followed(b: int, sp: int, top: int) {
    4 * sp < b < 4 * top && b % 4 == 0
  }

  /** The first `n` base pointers from `b` on can all be followed. */
  predicate ChainInside(words: seq<int>, b: int, sp: int, top: int, n: nat)
    requires |words| == RAM_WORDS && 0 <= sp && top <= RAM_WORDS
    decreases n
  {
    n == 0 || (Followed(b, sp, top) && ChainInside(words, words[b / 4], sp, top, n - 1))
  }

  /** The base pointer reached from `b` in `n` steps. */
  function ChainAt(words: seq<int>, b: int, sp: int, top: int, n: nat): int
    requires |words| == RAM_WORDS && 0 <= sp && top <= RAM_WORDS && ChainInside(words, b, sp, top, n)
    decreases n
  {
    if n == 0 then b else ChainAt(words, words[b / 4], sp, top, n - 1)
  }

  /**
   * Following the chain on the moved stack visits the old chain, shifted: as far as the old chain stays
   * inside the old stack the new one stays inside the new stack, and the pointer reached is the old one
   * shifted (or the old one itself where the chain leaves the stack).
   */
  lemma {:induction false} ChainMoves(s: Stacks, was: seq<int>, now: seq<int>, b: int, n: nat)
    requires s.Valid() && |was| == |now| == RAM_WORDS
    requires forall k :: s.NewSp() <= k < s.newTop ==> now[k] == s.Shift(was[k - s.Delta()])
    requires ChainInside(was, b, s.sp, s.top, n)
    ensures ChainInside(now, s.Shift(b), s.NewSp(), s.newTop, n)
    ensures ChainAt(now, s.Shift(b), s.NewSp(), s.newTop, n) == s.Shift(ChainAt(was, b, s.sp, s.top, n))
    decreases n
  {
    if n > 0 {
      var b' := s.Shift(b);
      assert b' / 4 == b / 4 + s.Delta();
      assert now[b' / 4] == s.Shift(was[b / 4]);
      ChainMoves(s, was, now, was[b / 4], n - 1);
    }
  }
}
