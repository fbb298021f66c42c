/** strcmp, strcpy and strlen of src/utils/string.c, on buffers of bytes. */
module Strings {
  import opened Ram

  /** The string in a buffer: everything before the first zero. */
  function CStr(b: seq<byte>): (s: seq<byte>)
    ensures s <= b && 0 !in s
    ensures 0 in b ==> |s| < |b| && b[|s|] == 0
    ensures 0 !in b ==> s == b
  {
    if b == [] || b[0] == 0 then []
    else
      assert b == [b[0]] + b[1..];
      [b[0]] + CStr(b[1..])
  }

  /** A string is determined by its bytes and the zero behind them. */
  lemma CStrUnique(b: seq<byte>, s: seq<byte>)
    requires |s| < |b| && b[..|s|] == s && 0 !in s && b[|s|] == 0
    ensures CStr(b) == s
  {
  }

  method Strlen(src: seq<byte>) returns (i: nat)
    requires 0 in src
    ensures i == |CStr(src)|
  {
    i := 0;
    while src[i] != 0
      invariant i <= |CStr(src)| < |src|
      decreases |src| - i
    {
      i := i + 1;
    }
  }

  /** 0 exactly for equal strings, 1 otherwise. */
  method Strcmp(a: seq<byte>, b: seq<byte>) returns (failed: int)
    requires 0 in a && 0 in b
    ensures failed == if CStr(a) == CStr(b) then 0 else 1
  {
    var i := 0;
    failed := 0;
    ghost var s, t := CStr(a), CStr(b);
    while a[i] != 0 && b[i] != 0
      invariant 0 <= i <= |s| < |a| && i <= |t| < |b| && s[..i] == t[..i] && failed == 0
      decreases |a| - i
    {
      if a[i] != b[i] {
        failed := 1;
        assert s[i] != t[i];
        break;
      }
      i := i + 1;
    }
    if failed == 0 {
      assert (a[i] == 0 ==> i == |s|) && (b[i] == 0 ==> i == |t|);
      assert a[i] == 0 && b[i] == 0 ==> s == s[..i] && t == t[..i];
    }
    if (a[i] == 0 && b[i] != 0) || (a[i] != 0 && b[i] == 0) {
      failed := 1;
    }
  }

  /** How much strcpy as written copies: the first byte whatever it is, then up to the next zero, which it leaves out. */
  function CopyLength(src: seq<byte>): (n: nat)
    requires |src| > 0 && 0 in src[1..]
    ensures 1 <= n < |src| && src[n] == 0
  {
    1 + |CStr(src[1..])|
  }

  /** That is the string in the source exactly when there is one. */
  lemma CopiesString(src: seq<byte>)
    requires |src| > 0 && 0 in src[1..]
    ensures src[..CopyLength(src)] == CStr(src) <==> src[0] != 0
  {
  }

  method Strcpy(dest: seq<byte>, src: seq<byte>) returns (dest': seq<byte>)
    requires |src| > 0 && 0 in src[1..] && CopyLength(src) <= |dest|
    ensures dest' == src[..CopyLength(src)] + dest[CopyLength(src)..]
  {
    ghost var n := CopyLength(src);
    dest' := dest[0 := src[0]];
    var i := 1;
    while src[i] != 0
      invariant 1 <= i <= n && |dest'| == |dest|
      invariant forall k :: 0 <= k < |dest| ==> dest'[k] == if k < i then src[k] else dest[k]
      decreases n - i
    {
      NotYet(src, i);
      dest' := dest'[i := src[i]];
      i := i + 1;
    }
    Reached(src, i);
  }

  lemma NotYet(src: seq<byte>, i: nat)
    requires |src| > 0 && 0 in src[1..] && 1 <= i <= CopyLength(src) && src[i] != 0
    ensures i < CopyLength(src)
  {
  }

  lemma Reached(src: seq<byte>, i: nat)
    requires |src| > 0 && 0 in src[1..] && 1 <= i <= CopyLength(src) && src[i] == 0
    ensures i == CopyLength(src)
  {
  }

  /** Into a cleared buffer the copy is a proper string. */
  lemma CopiedString(dest: seq<byte>, s: seq<byte>)
    requires 0 !in s && |s| < |dest| && forall k :: 0 <= k < |dest| ==> dest[k] == 0
    ensures 0 in s + dest[|s|..] && CStr(s + dest[|s|..]) == s
  {
    var b := s + dest[|s|..];
    assert b[|s|] == 0;
    CStrUnique(b, s);
  }

  /** In any buffer the copy of a string reads back exactly when a zero happens to lie behind it. */
  lemma CopyReadsBack(dest: seq<byte>, src: seq<byte>)
    requires |src| > 0 && 0 in src[1..] && src[0] != 0 && CopyLength(src) < |dest|
    ensures CStr(src[..CopyLength(src)] + dest[CopyLength(src)..]) == CStr(src) <==> dest[CopyLength(src)] == 0
  {
    var n := CopyLength(src);
    var b := src[..n] + dest[n..];
    CopiesString(src);
    assert b[..n] == src[..n] && b[n] == dest[n];
    if dest[n] == 0 {
      CStrUnique(b, CStr(src));
    }
  }
}
