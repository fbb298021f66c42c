/** The ramdisk: create_initrd.c writes it, src/filesystem/initrd.c reads it. */
module Ramdisk {
  import opened Ram
  import opened Strings

  const MAX_HEADERS := 64
  const HEADER_BYTES := 76
  const NAME_AT := 1
  const NAME_BYTES := 64
  const OFFSET_AT := 68
  const LENGTH_AT := 72
  const HEADERS_BYTES := 4864
  const DATA_START := 4868
  const HEADER_MAGIC: byte := 0xBF

  datatype File = File(name: seq<byte>, data: seq<byte>)

  // ---------------------------------------------------------------- the format

  /** Where the data of file `i` starts in the image: behind the table and all earlier files. */
  function OffsetOf(files: seq<File>, i: nat): (o: int)
    requires i <= |files|
    ensures o >= DATA_START
  {
    if i == 0 then DATA_START else OffsetOf(files, i - 1) + |files[i - 1].data|
  }

  /** The image is as large as the offset of the file that would come next. */
  function ImageSize(files: seq<File>): int {
    OffsetOf(files, |files|)
  }

  /** Address of header `i` in an image at `base`. */
  function HeaderAddress(base: int, i: int): int {
    base + 4 + HEADER_BYTES * i
  }

  /** The header of `f` at address `h`, with `o` in its offset field: magic, name, padding, offset, length. */
  ghost predicate HeaderIs(m: seq<byte>, h: int, f: File, o: int) {
    && 0 <= h <= |m| - HEADER_BYTES && |f.name| < NAME_BYTES
    && m[h] == HEADER_MAGIC
    && m[h + NAME_AT..h + NAME_AT + |f.name|] == f.name && m[h + NAME_AT + |f.name|] == 0
    && Load(m, h + OFFSET_AT) == o && Load(m, h + LENGTH_AT) == |f.data|
  }

  ghost predicate DataIs(m: seq<byte>, at: int, f: File) {
    0 <= at && at + |f.data| <= |m| && m[at..at + |f.data|] == f.data
  }

  /** What names the writer accepts: a proper string that leaves room for its terminator. */
  predicate NameOk(f: File) {
    |f.name| < NAME_BYTES && 0 !in f.name
  }

  /** Memory holds the image of `files` at `base`; its offset fields say where the data is, plus `shift`. */
  ghost predicate Holds(m: seq<byte>, base: int, shift: int, files: seq<File>) {
    && 0 <= base && base + ImageSize(files) <= |m| && |files| < MAX_HEADERS
    && Load(m, base) == |files|
    && (forall i :: 0 <= i < |files| ==> HeaderIs(m, HeaderAddress(base, i), files[i], OffsetOf(files, i) + shift))
    && (forall i :: 0 <= i < |files| ==> DataIs(m, base + OffsetOf(files, i), files[i]))
  }

  lemma {:induction false} OffsetsGrow(files: seq<File>, i: nat, j: nat)
    requires i < j <= |files|
    ensures OffsetOf(files, i) + |files[i].data| <= OffsetOf(files, j)
    decreases j
  {
    if i < j - 1 {
      OffsetsGrow(files, i, j - 1);
    }
  }

  /** File data never overlaps, neither other files nor the header table. */
  lemma DataDisjoint(files: seq<File>, i: nat, j: nat)
    requires i < |files| && j < |files| && i != j
    ensures OffsetOf(files, i) + |files[i].data| <= OffsetOf(files, j)
         || OffsetOf(files, j) + |files[j].data| <= OffsetOf(files, i)
    ensures DATA_START <= OffsetOf(files, i) && OffsetOf(files, i) + |files[i].data| <= ImageSize(files)
  {
    if i < j {
      OffsetsGrow(files, i, j);
    } else {
      OffsetsGrow(files, j, i);
    }
    OffsetsGrow(files, i, |files|);
  }

  lemma SliceOfSlice(s: seq<byte>, a: int, b: int, c: int, d: int)
    requires 0 <= a <= b <= |s| && 0 <= c <= d <= b - a
    ensures s[a..b][c..d] == s[a + c..a + d]
  {
    var t, u, v := s[a..b], s[a..b][c..d], s[a + c..a + d];
    forall k | 0 <= k < d - c ensures u[k] == v[k] {
      assert u[k] == t[c + k] && t[c + k] == s[a + (c + k)] && v[k] == s[a + c + k];
    }
    assert |u| == |v|;
  }

  /** A header can be moved, its bytes unchanged. */
  lemma HeaderMoved(m: seq<byte>, h: int, m': seq<byte>, h': int, f: File, o: int)
    requires HeaderIs(m, h, f, o) && 0 <= h' <= |m'| - HEADER_BYTES
    requires m'[h'..h' + HEADER_BYTES] == m[h..h + HEADER_BYTES]
    ensures HeaderIs(m', h', f, o)
  {
    var a, b, n := m[h..h + HEADER_BYTES], m'[h'..h' + HEADER_BYTES], |f.name|;
    assert a[0] == m[h] && b[0] == m'[h'];
    assert a[NAME_AT + n] == m[h + NAME_AT + n] && b[NAME_AT + n] == m'[h' + NAME_AT + n];
    SliceOfSlice(m, h, h + HEADER_BYTES, NAME_AT, NAME_AT + n);
    SliceOfSlice(m', h', h' + HEADER_BYTES, NAME_AT, NAME_AT + n);
    LoadMoved(m, h, m', h', OFFSET_AT);
    LoadMoved(m, h, m', h', LENGTH_AT);
  }

  lemma LoadMoved(m: seq<byte>, h: int, m': seq<byte>, h': int, k: int)
    requires 0 <= k <= HEADER_BYTES - 4 && 0 <= h <= |m| - HEADER_BYTES && 0 <= h' <= |m'| - HEADER_BYTES
    requires m'[h'..h' + HEADER_BYTES] == m[h..h + HEADER_BYTES]
    ensures Load(m', h' + k) == Load(m, h + k)
  {
    var a, b := m[h..h + HEADER_BYTES], m'[h'..h' + HEADER_BYTES];
    assert a[k] == m[h + k] && b[k] == m'[h' + k];
    assert a[k + 1] == m[h + k + 1] && b[k + 1] == m'[h' + k + 1];
    assert a[k + 2] == m[h + k + 2] && b[k + 2] == m'[h' + k + 2];
    assert a[k + 3] == m[h + k + 3] && b[k + 3] == m'[h' + k + 3];
  }

  // ---------------------------------------------------------------- the writer

  /** strcpy of the host's library: the name and its terminator. */
  method CopyIn(m: seq<byte>, at: int, s: seq<byte>) returns (m': seq<byte>)
    requires 0 <= at && at + |s| <= |m|
    ensures SameOutside(m, m', at, at + |s|) && m'[at..at + |s|] == s
  {
    m' := m;
    var k := 0;
    while k < |s|
      invariant 0 <= k <= |s| && |m'| == |m|
      invariant forall j :: 0 <= j < |m| ==> m'[j] == if at <= j < at + k then s[j - at] else m[j]
    {
      m' := m'[at + k := s[k]];
      k := k + 1;
    }
  }

  /** Lines 22-35: one entry of the header table. */
  method WriteHeader(table: seq<byte>, h: int, f: File, off: word) returns (t: seq<byte>)
    requires 0 <= h <= |table| - HEADER_BYTES && NameOk(f) && |f.data| < WORD
    ensures |t| == |table| && HeaderIs(t, h, f, off) && SameOutside(table, t, h, h + HEADER_BYTES)
  {
    hide Load;
    t := CopyIn(table, h + NAME_AT, f.name + [0]);
    ghost var named := t;
    t := Store(t, h + OFFSET_AT, off);
    ghost var placed := t;
    t := Store(t, h + LENGTH_AT, |f.data|);
    ghost var sized := t;
    t := t[h := HEADER_MAGIC];
    LoadSame(placed, t, h + OFFSET_AT);
    LoadSame(sized, t, h + LENGTH_AT);
    NameKept(named, t, h + NAME_AT, f.name);
  }

  lemma NameKept(named: seq<byte>, t: seq<byte>, at: int, name: seq<byte>)
    requires 0 <= at && at + |name| + 1 <= |named| && named[at..at + |name| + 1] == name + [0]
    requires Same(named, t, at, at + |name| + 1)
    ensures t[at..at + |name|] == name && t[at + |name|] == 0
  {
    forall k | 0 <= k < |name| ensures t[at..at + |name|][k] == name[k] {
      assert named[at..at + |name| + 1][k] == (name + [0])[k];
    }
    assert named[at..at + |name| + 1][|name|] == (name + [0])[|name|];
  }

  lemma LoadSame(m: seq<byte>, m': seq<byte>, a: int)
    requires 0 <= a <= |m| - 4 && Same(m, m', a, a + 4)
    ensures Load(m', a) == Load(m, a)
  {
  }

  lemma OffsetNext(files: seq<File>, i: nat)
    requires i < |files|
    ensures OffsetOf(files, i + 1) == OffsetOf(files, i) + |files[i].data|
    ensures OffsetOf(files, i + 1) <= ImageSize(files) && OffsetOf(files, 0) == DATA_START
  {
    OffsetsGrow(files, i, |files|);
  }

  /** The first `n` entries of the table. */
  ghost predicate TableUpTo(table: seq<byte>, base: int, files: seq<File>, n: nat) {
    forall i :: 0 <= i < n && i < |files| ==> HeaderIs(table, base + HEADER_BYTES * i, files[i], OffsetOf(files, i))
  }

  /** Lines 20-36 of create_initrd.c.  The table starts out as whatever was on the stack. */
  method WriteTable(files: seq<File>, junk: seq<byte>) returns (table: seq<byte>)
    requires |files| < MAX_HEADERS && |junk| == HEADERS_BYTES && ImageSize(files) < WORD
    requires forall i :: 0 <= i < |files| ==> NameOk(files[i])
    ensures |table| == HEADERS_BYTES && TableUpTo(table, 0, files, |files|)
  {
    hide HeaderIs, SameOutside, OffsetOf, NameOk;
    table := junk;
    var off := HEADER_BYTES * MAX_HEADERS + 4;
    var i := 0;
    if files == [] {
      return;
    }
    OffsetNext(files, 0);
    while i < |files|
      invariant 0 <= i <= |files| && |table| == HEADERS_BYTES && off == OffsetOf(files, i) <= ImageSize(files)
      invariant TableUpTo(table, 0, files, i)
    {
      OffsetNext(files, i);
      ghost var was := table;
      table := WriteHeader(table, HEADER_BYTES * i, files[i], off);
      TableGrows(was, table, files, i);
      off := off + |files[i].data|;
      i := i + 1;
    }
  }

  lemma TableGrows(was: seq<byte>, table: seq<byte>, files: seq<File>, i: nat)
    requires i < |files| && TableUpTo(was, 0, files, i)
    requires SameOutside(was, table, HEADER_BYTES * i, HEADER_BYTES * i + HEADER_BYTES)
    requires HeaderIs(table, HEADER_BYTES * i, files[i], OffsetOf(files, i))
    ensures TableUpTo(table, 0, files, i + 1)
  {
    hide HeaderIs, SameOutside, OffsetOf;
    forall k | 0 <= k < i + 1 ensures HeaderIs(table, 0 + HEADER_BYTES * k, files[k], OffsetOf(files, k)) {
      if k < i {
        HeaderBefore(was, table, HEADER_BYTES * k, HEADER_BYTES * i, files[k], OffsetOf(files, k));
      }
    }
  }

  lemma HeaderBefore(m: seq<byte>, m': seq<byte>, h: int, z: int, f: File, o: int)
    requires HeaderIs(m, h, f, o) && SameOutside(m, m', z, z + HEADER_BYTES) && h + HEADER_BYTES <= z
    ensures HeaderIs(m', h, f, o)
  {
  }

  /** The data of the first `n` files. */
  ghost predicate DataUpTo(image: seq<byte>, files: seq<File>, n: nat) {
    forall i :: 0 <= i < n && i < |files| ==> DataIs(image, OffsetOf(files, i), files[i])
  }

  /** create_initrd.c: the count, the table of 64 headers, then the files. */
  method CreateImage(files: seq<File>, junk: seq<byte>) returns (image: seq<byte>)
    requires |files| < MAX_HEADERS && |junk| == HEADERS_BYTES && ImageSize(files) < WORD
    requires forall i :: 0 <= i < |files| ==> NameOk(files[i])
    ensures |image| == ImageSize(files) && Holds(image, 0, 0, files)
  {
    hide HeaderIs, SameOutside, DataIs, Load, OffsetOf, Holds, TableUpTo, DataUpTo, NameOk;
    var table := WriteTable(files, junk);
    image := Store([0, 0, 0, 0], 0, |files|);
    ghost var count := image;
    assert |count| == 4 by { StoredLength([0, 0, 0, 0], count); }
    image := image + table;
    ghost var start := image;
    TableInImage(files, count, table);
    DataStarts(files, image);
    var i := 0;
    while i < |files|
      invariant 0 <= i <= |files| && |image| == OffsetOf(files, i) && start <= image
      invariant DataUpTo(image, files, i)
    {
      DataGrows(image, files, i);
      OffsetNext(files, i);
      image := image + files[i].data;
      i := i + 1;
    }
    ImageDone(files, start, image);
  }

  /** The format in numbers: where every field of an image is, and what it says. */
  lemma ImageFormat(image: seq<byte>, files: seq<File>, i: nat)
    requires Holds(image, 0, 0, files) && i < |files|
    ensures |files| < 64 && Load(image, 0) == |files| && 4 + 76 * i + 76 <= 4868 <= |image|
    ensures var h, f := 4 + 76 * i, files[i];
            && |f.name| < 64 && image[h] == 0xBF
            && image[h + 1..h + 1 + |f.name|] == f.name && image[h + 1 + |f.name|] == 0
            && Load(image, h + 72) == |f.data|
            && Load(image, h + 68) == (if i == 0 then 4868
                                       else Load(image, h - 76 + 68) + Load(image, h - 76 + 72))
            && 4868 <= Load(image, h + 68) && Load(image, h + 68) + |f.data| <= |image|
            && image[Load(image, h + 68)..Load(image, h + 68) + |f.data|] == f.data
  {
    hide Load, HeaderIs, OffsetOf;
    HeaderFormat(image, files, i);
    OffsetNext(files, i);
    assert DataIs(image, 0 + OffsetOf(files, i), files[i]);
    if i > 0 {
      HeaderFormat(image, files, i - 1);
      OffsetNext(files, i - 1);
    }
  }

  lemma HeaderFormat(image: seq<byte>, files: seq<File>, i: nat)
    requires Holds(image, 0, 0, files) && i < |files|
    ensures var h, f := 4 + 76 * i, files[i];
            && 4868 <= |image| && |f.name| < 64 && image[h] == 0xBF
            && image[h + 1..h + 1 + |f.name|] == f.name && image[h + 1 + |f.name|] == 0
            && Load(image, h + 68) == OffsetOf(files, i) && Load(image, h + 72) == |f.data|
  {
    hide Load, OffsetOf;
    assert HeaderIs(image, HeaderAddress(0, i), files[i], OffsetOf(files, i) + 0);
  }

  lemma StoredLength(m: seq<byte>, m': seq<byte>)
    requires SameOutside(m, m', 0, 4)
    ensures |m'| == |m|
  {
  }

  lemma DataStarts(files: seq<File>, image: seq<byte>)
    requires |image| == DATA_START
    ensures |image| == OffsetOf(files, 0) && DataUpTo(image, files, 0)
  {
  }

  lemma DataGrows(image: seq<byte>, files: seq<File>, i: nat)
    requires i < |files| && |image| == OffsetOf(files, i) && DataUpTo(image, files, i)
    ensures DataUpTo(image + files[i].data, files, i + 1)
  {
    hide DataIs, OffsetOf;
    forall k | 0 <= k < i + 1 ensures DataIs(image + files[i].data, OffsetOf(files, k), files[k]) {
      DataAppended(image, files[i], files[k], OffsetOf(files, k), k == i);
    }
  }

  lemma TableInImage(files: seq<File>, count: seq<byte>, table: seq<byte>)
    requires |count| == 4 && Load(count, 0) == |files| && |table| == HEADERS_BYTES && |files| < MAX_HEADERS
    requires TableUpTo(table, 0, files, |files|)
    ensures Load(count + table, 0) == |files| && TableUpTo(count + table, 4, files, |files|)
  {
    hide OffsetOf, HeaderIs;
    forall i | 0 <= i < |files| ensures HeaderIs(count + table, 4 + HEADER_BYTES * i, files[i], OffsetOf(files, i)) {
      var h := HEADER_BYTES * i;
      assert HeaderIs(table, 0 + HEADER_BYTES * i, files[i], OffsetOf(files, i));
      assert (count + table)[4 + h..4 + h + HEADER_BYTES] == table[h..h + HEADER_BYTES];
      HeaderMoved(table, h, count + table, 4 + h, files[i], OffsetOf(files, i));
    }
  }

  lemma DataAppended(was: seq<byte>, next: File, f: File, at: int, last: bool)
    requires if last then f == next && at == |was| else DataIs(was, at, f)
    ensures DataIs(was + next.data, at, f)
  {
  }

  lemma ImageDone(files: seq<File>, start: seq<byte>, image: seq<byte>)
    requires |start| == DATA_START && start <= image && |image| == ImageSize(files) && |files| < MAX_HEADERS
    requires Load(start, 0) == |files| && TableUpTo(start, 4, files, |files|) && DataUpTo(image, files, |files|)
    ensures Holds(image, 0, 0, files)
  {
    hide HeaderIs, DataIs, OffsetOf;
    forall i | 0 <= i < |files| ensures HeaderIs(image, HeaderAddress(0, i), files[i], OffsetOf(files, i) + 0) {
      var h := HeaderAddress(0, i);
      assert HeaderIs(start, 4 + HEADER_BYTES * i, files[i], OffsetOf(files, i));
      assert image[h..h + HEADER_BYTES] == start[h..h + HEADER_BYTES];
      HeaderMoved(start, h, image, h, files[i], OffsetOf(files, i));
    }
    forall i | 0 <= i < |files| ensures DataIs(image, 0 + OffsetOf(files, i), files[i]) {
      assert DataIs(image, OffsetOf(files, i), files[i]);
    }
    assert image[0] == start[0] && image[1] == start[1] && image[2] == start[2] && image[3] == start[3];
  }

  lemma HeaderFits(m: seq<byte>, h: int, f: File, o: int)
    requires HeaderIs(m, h, f, o)
    ensures 0 <= h <= |m| - HEADER_BYTES
  {
  }

  /** The boot loader puts the image somewhere in memory. */
  lemma Loaded(image: seq<byte>, m: seq<byte>, base: int, files: seq<File>)
    requires Holds(image, 0, 0, files) && |image| == ImageSize(files) && 0 <= base && base + |image| <= |m|
    requires m[base..base + |image|] == image
    ensures Holds(m, base, 0, files)
  {
    hide HeaderIs, DataIs, OffsetOf, Load;
    forall i | 0 <= i < |files| ensures HeaderIs(m, HeaderAddress(base, i), files[i], OffsetOf(files, i) + 0) {
      HeaderLoaded(image, m, base, HeaderAddress(0, i), files[i], OffsetOf(files, i) + 0);
      assert HeaderAddress(base, i) == base + HeaderAddress(0, i);
    }
    forall i | 0 <= i < |files| ensures DataIs(m, base + OffsetOf(files, i), files[i]) {
      DataMoved(image, 0 + OffsetOf(files, i), m, base, files[i]);
    }
    CountLoaded(image, m, base);
  }

  lemma HeaderLoaded(image: seq<byte>, m: seq<byte>, base: int, h: int, f: File, o: int)
    requires HeaderIs(image, h, f, o) && 0 <= base && base + |image| <= |m| && m[base..base + |image|] == image
    ensures HeaderIs(m, base + h, f, o)
  {
    hide HeaderIs;
    HeaderFits(image, h, f, o);
    SliceOfSlice(m, base, base + |image|, h, h + HEADER_BYTES);
    HeaderMoved(image, h, m, base + h, f, o);
  }

  lemma CountLoaded(image: seq<byte>, m: seq<byte>, base: int)
    requires |image| >= 4 && 0 <= base && base + |image| <= |m| && m[base..base + |image|] == image
    ensures Load(m, base) == Load(image, 0)
  {
  }

  lemma DataMoved(image: seq<byte>, at: int, m: seq<byte>, base: int, f: File)
    requires DataIs(image, at, f) && 0 <= base && base + |image| <= |m| && m[base..base + |image|] == image
    ensures DataIs(m, base + at, f)
  {
    SliceOfSlice(m, base, base + |image|, at, at + |f.data|);
  }
}
