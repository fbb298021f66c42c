/** The frame bitset of src/memory/paging.c, one bit per 4KB frame of the 16MB of memory. */
module Frames {
  const PAGE_SIZE := 0x1000
  const FRAME_COUNT := 4096
  const WORDS := 128

  /** A 32-bit word as its bits, lowest first. */
  type Bits = s: seq<bool> | |s| == 32 witness seq(32, _ => false)

  const ALL_SET: Bits := seq(32, _ => true)

  datatype Option<T> = None | Some(value: T)

  class FrameSet {
    const words: array<Bits>

    ghost predicate Valid() {
      words.Length == WORDS
    }

    /** The set of frame numbers the words stand for. */
    ghost function Used(): (used: set<int>)
      requires Valid()
      reads words
      ensures forall f :: f in used ==> 0 <= f < FRAME_COUNT
    {
      set f | 0 <= f < FRAME_COUNT && words[f / 32][f % 32]
    }

    constructor ()
      ensures Valid() && fresh(words) && Used() == {}
    {
      words := new Bits[WORDS](_ => seq(32, _ => false));
    }

    method Set(frameAddr: int)
      requires Valid() && 0 <= frameAddr < FRAME_COUNT * PAGE_SIZE
      modifies words
      ensures Used() == old(Used()) + {frameAddr / PAGE_SIZE}
    {
      var frame := frameAddr / PAGE_SIZE;
      var idx, off := frame / 32, frame % 32;
      words[idx] := words[idx][off := true];
    }

    method Clear(frameAddr: int)
      requires Valid() && 0 <= frameAddr < FRAME_COUNT * PAGE_SIZE
      modifies words
      ensures Used() == old(Used()) - {frameAddr / PAGE_SIZE}
    {
      var frame := frameAddr / PAGE_SIZE;
      var idx, off := frame / 32, frame % 32;
      words[idx] := words[idx][off := false];
    }

    method Test(frameAddr: int) returns (used: bool)
      requires Valid() && 0 <= frameAddr < FRAME_COUNT * PAGE_SIZE
      ensures used <==> frameAddr / PAGE_SIZE in Used()
    {
      var frame := frameAddr / PAGE_SIZE;
      used := words[frame / 32][frame % 32];
    }

    /** first_frame: the least free frame.  None is the path on which the source returns nothing at all. */
    method First() returns (r: Option<int>)
      requires Valid()
      ensures r.None? <==> forall f :: 0 <= f < FRAME_COUNT ==> f in Used()
      ensures r.Some? ==>
                && 0 <= r.value < FRAME_COUNT && r.value !in Used()
                && forall f :: 0 <= f < r.value ==> f in Used()
    {
      for i := 0 to WORDS
        invariant forall f :: 0 <= f < 32 * i ==> f in Used()
      {
        if words[i] != ALL_SET {
          for j := 0 to 32
            invariant forall k :: 0 <= k < j ==> words[i][k]
          {
            if !words[i][j] {
              assert i * 32 + j !in Used() by {
                assert (i * 32 + j) / 32 == i && (i * 32 + j) % 32 == j;
              }
              forall f | 32 * i <= f < 32 * i + j ensures f in Used() {
                assert f / 32 == i && f % 32 == f - 32 * i;
              }
              return Some(i * 32 + j);
            }
          }
        }
        assert forall k :: 0 <= k < 32 ==> words[i][k];
        forall f | 32 * i <= f < 32 * (i + 1) ensures f in Used() {
          assert f / 32 == i;
        }
      }
      return None;
    }
  }
}
