/** memcpy, memmove and memcmp of src/utils/mem.c. */
module Mem {
  import opened Ram

  /** memcpy out of memory into a buffer of the caller's; addresses wrap at 32 bits. */
  method Memcpy(ram: seq<byte>, src: int, len: nat) returns (buffer: seq<byte>)
    requires |ram| == WORD
    ensures |buffer| == len && forall k :: 0 <= k < len ==> buffer[k] == ram[(src + k) % WORD]
  {
    buffer := [];
    var sp, left := src, len;
    while left != 0
      invariant 0 <= left <= len && sp == src + len - left && |buffer| == len - left
      invariant forall k :: 0 <= k < len - left ==> buffer[k] == ram[(src + k) % WORD]
    {
      buffer := buffer + [ram[sp % WORD]];
      sp, left := sp + 1, left - 1;
    }
  }

  /**
   * memmove: however the two ranges overlap, the destination ends up with what the source held, and
   * nothing else changes.  The sum src + len may wrap to 0; the test is then still right, because a
   * destination inside the source would reach past the end of memory.
   */
  method Memmove(ram: array<byte>, dest: int, src: int, len: nat)
    requires ram.Length == WORD
    requires 0 <= dest < WORD && 0 <= src < WORD && dest + len <= WORD && src + len <= WORD
    modifies ram
    ensures forall k {:trigger ram[k]} :: dest <= k < dest + len ==> ram[k] == old(ram[k + (src - dest)])
    ensures forall k {:trigger ram[k]} :: 0 <= k < WORD && !(dest <= k < dest + len) ==> ram[k] == old(ram[k])
  {
    var dp, sp, left := dest, src, len;
    if dest <= src || dest >= (src + len) % WORD {
      while left != 0
        invariant 0 <= left <= len && dp == dest + len - left && sp == src + len - left
        invariant forall k {:trigger ram[k]} :: dest <= k < dp ==> ram[k] == old(ram[k + (src - dest)])
        invariant forall k {:trigger ram[k]} :: 0 <= k < WORD && !(dest <= k < dp) ==> ram[k] == old(ram[k])
      {
        ram[dp] := ram[sp];
        dp, sp, left := dp + 1, sp + 1, left - 1;
      }
    } else {
      dp, sp := dest + len - 1, src + len - 1;
      while left != 0
        invariant 0 <= left <= len && dp == dest + left - 1 && sp == src + left - 1
        invariant forall k {:trigger ram[k]} :: dp < k < dest + len ==> ram[k] == old(ram[k + (src - dest)])
        invariant forall k {:trigger ram[k]} :: 0 <= k < WORD && !(dp < k < dest + len) ==> ram[k] == old(ram[k])
      {
        ram[dp] := ram[sp];
        dp, sp, left := dp - 1, sp - 1, left - 1;
      }
    }
  }

  /** memcmp: 0 exactly for equal ranges, otherwise the difference of the first bytes that differ. */
  method Memcmp(a: seq<byte>, b: seq<byte>) returns (r: int)
    requires |a| == |b| < WORD
    ensures r == 0 <==> a == b
    ensures a != b ==> exists k :: 0 <= k < |a| && a[..k] == b[..k] && a[k] != b[k] && r == a[k] as int - b[k] as int
  {
    var len := |a|;
    if len == 0 {
      return 0;
    }
    var i := 0;
    len := len - 1;
    while len != 0 && a[i] == b[i]
      invariant 0 <= len && i + len == |a| - 1 && a[..i] == b[..i]
      decreases len
    {
      i, len := i + 1, len - 1;
    }
    r := a[i] as int - b[i] as int;
    if r == 0 {
      assert a == a[..i] + [a[i]] && b == b[..i] + [b[i]];
    } else {
      assert a[..i] == b[..i] && a[i] != b[i];
    }
  }
}
