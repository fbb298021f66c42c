/** The machine's memory as the C code sees it: 2^32 bytes, words stored low byte first. */
module Ram {
  type byte = x: int | 0 <= x < 256
  type word = x: int | 0 <= x < 0x1_0000_0000

  const WORD := 0x1_0000_0000
  const PAGE_SIZE := 0x1000

  /** The 32-bit word at address `a`; `a` need not be aligned. */
  function Load(m: seq<byte>, a: int): word
    requires 0 <= a <= |m| - 4
  {
    m[a] as int + 0x100 * m[a + 1] as int + 0x1_0000 * m[a + 2] as int + 0x100_0000 * m[a + 3] as int
  }

  /** `m` and `m'` agree on the bytes lo .. hi-1. */
  ghost predicate Same(m: seq<byte>, m': seq<byte>, lo: int, hi: int) {
    |m| == |m'| && forall k :: 0 <= k < |m| && lo <= k < hi ==> m'[k] == m[k]
  }

  /** `m` and `m'` agree everywhere but, possibly, on the bytes lo .. hi-1. */
  ghost predicate SameOutside(m: seq<byte>, m': seq<byte>, lo: int, hi: int) {
    |m| == |m'| && forall k :: 0 <= k < |m| && !(lo <= k < hi) ==> m'[k] == m[k]
  }

  /** Splitting a word into its four bytes loses nothing. */
  lemma BytesOfWord(v: word)
    ensures v == v % 0x100 + 0x100 * (v / 0x100 % 0x100) + 0x1_0000 * (v / 0x1_0000 % 0x100)
                 + 0x100_0000 * (v / 0x100_0000)
    ensures v / 0x100_0000 < 0x100
  {
    var x := v / 0x100;
    var y := x / 0x100;
    HigherByte(v);
    assert x == 0x100 * y + x % 0x100;
    assert y == 0x100 * (y / 0x100) + y % 0x100;
  }

  lemma HigherByte(v: word)
    ensures v / 0x100 / 0x100 == v / 0x1_0000 && v / 0x100 / 0x100 / 0x100 == v / 0x100_0000
  {
  }

  /** A word store: it can be read back, and no other byte changes. */
  method Store(m: seq<byte>, a: int, v: word) returns (m': seq<byte>)
    requires 0 <= a <= |m| - 4
    ensures SameOutside(m, m', a, a + 4)
    ensures Load(m', a) == v
  {
    BytesOfWord(v);
    m' := m[a := v % 0x100][a + 1 := v / 0x100 % 0x100][a + 2 := v / 0x1_0000 % 0x100][a + 3 := v / 0x100_0000];
  }

  /** memset of src/utils/mem.c. */
  method Memset(m: seq<byte>, dest: int, val: byte, len: nat) returns (m': seq<byte>)
    requires 0 <= dest && dest + len <= |m|
    ensures SameOutside(m, m', dest, dest + len)
    ensures forall k :: dest <= k < dest + len ==> m'[k] == val
  {
    m' := m;
    var temp, left := dest, len;
    while left != 0
      invariant dest <= temp == dest + len - left <= dest + len
      invariant |m'| == |m| && SameOutside(m, m', dest, temp)
      invariant forall k :: dest <= k < temp ==> m'[k] == val
    {
      m' := m'[temp := val];
      temp, left := temp + 1, left - 1;
    }
  }
}
