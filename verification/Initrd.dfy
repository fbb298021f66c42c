/** src/filesystem/initrd.c: the file system that reads the ramdisk. */
module Initrd {
  import opened Ram
  import opened Strings
  import opened Ramdisk
  import Mem

  const NODE_NAME_BYTES := 128
  const DEV: seq<byte> := ['d' as int, 'e' as int, 'v' as int]

  /** fs_node_t of a file in the root directory. */
  datatype Node = Node(name: seq<byte>, length: int, inode: int)

  /** What readdir and finddir give. */
  datatype Entry = NoEntry | Entry(name: seq<byte>, ino: int)
  datatype Found = Nothing | Dev | Root(i: nat)

  // ---------------------------------------------------------------- what the directory means

  /** The directory listing: "dev", then the files in order, then nothing. */
  function EntryAt(files: seq<File>, index: int): Entry {
    if index == 0 then Entry(DEV, 0)
    else if 1 <= index <= |files| then Entry(files[index - 1].name, index - 1)
    else NoEntry
  }

  /** The first file that has the name, if any. */
  ghost predicate FirstNamed(files: seq<File>, name: seq<byte>, r: Found) {
    match r
    case Dev => false
    case Root(i) => i < |files| && files[i].name == name && forall k :: 0 <= k < i ==> files[k].name != name
    case Nothing => forall k :: 0 <= k < |files| ==> files[k].name != name
  }

  /** Where a name leads from the root: the directory dev, or the first file that has it. */
  ghost predicate LeadsTo(files: seq<File>, name: seq<byte>, r: Found) {
    if r.Dev? then name == DEV else name != DEV && FirstNamed(files, name, r)
  }

  /** Looking up the name of a listed file gives that file exactly when no earlier entry has the same name. */
  lemma LookupListed(files: seq<File>, i: nat, r: Found)
    requires i < |files| && LeadsTo(files, files[i].name, r)
    ensures r == Root(i) <==> forall k :: 0 <= k < i + 1 ==> EntryAt(files, k).name != files[i].name
  {
    if r == Root(i) {
      forall k | 0 <= k < i + 1 ensures EntryAt(files, k).name != files[i].name {
        if k > 0 {
          assert files[k - 1].name != files[i].name;
        }
      }
    } else if r.Dev? {
      assert EntryAt(files, 0).name == files[i].name;
    } else {
      assert r.Root? && r.i < i;
      assert EntryAt(files, r.i + 1).name == files[i].name;
    }
  }

  // ---------------------------------------------------------------- the reader

  ghost predicate NodeIs(n: Node, f: File, i: int) {
    && |n.name| == NODE_NAME_BYTES && 0 in n.name && CStr(n.name) == f.name
    && n.length == |f.data| && n.inode == i
  }

  /** The headers before `n` have had the location added to their offsets, the others not yet. */
  ghost predicate HeadersAdjusted(m: seq<byte>, base: int, files: seq<File>, n: nat) {
    forall i :: 0 <= i < |files| ==> HeaderIs(m, HeaderAddress(base, i), files[i], OffsetField(files, base, n, i))
  }

  function OffsetField(files: seq<File>, base: int, n: nat, i: nat): int
    requires i < |files|
  {
    OffsetOf(files, i) + (if i < n then base else 0)
  }

  ghost predicate AllData(m: seq<byte>, base: int, files: seq<File>) {
    forall i :: 0 <= i < |files| ==> DataIs(m, base + OffsetOf(files, i), files[i])
  }

  ghost predicate Adjusted(m: seq<byte>, base: int, files: seq<File>, n: nat) {
    && 0 <= base && base + ImageSize(files) <= |m| && |files| < MAX_HEADERS && Load(m, base) == |files|
    && HeadersAdjusted(m, base, files, n) && AllData(m, base, files)
  }

  lemma AdjustStarts(m: seq<byte>, base: int, files: seq<File>)
    requires Holds(m, base, 0, files)
    ensures Adjusted(m, base, files, 0)
  {
    hide HeaderIs, DataIs, OffsetOf;
  }

  lemma AdjustStep(m: seq<byte>, m': seq<byte>, base: int, files: seq<File>, i: nat)
    requires Adjusted(m, base, files, i) && i < |files|
    requires SameOutside(m, m', HeaderAddress(base, i) + OFFSET_AT, HeaderAddress(base, i) + OFFSET_AT + 4)
    requires Load(m', HeaderAddress(base, i) + OFFSET_AT) == OffsetOf(files, i) + base
    ensures Adjusted(m', base, files, i + 1)
  {
    hide HeadersAdjusted, AllData, OffsetOf, Load, SameOutside;
    var at := HeaderAddress(base, i) + OFFSET_AT;
    SameLength(m, m', at);
    AdjustHeaders(m, m', base, files, i);
    DataApart(m, m', at, base, files);
    CountApart(m, m', base, at);
  }

  lemma AdjustHeaders(m: seq<byte>, m': seq<byte>, base: int, files: seq<File>, i: nat)
    requires HeadersAdjusted(m, base, files, i) && i < |files|
    requires SameOutside(m, m', HeaderAddress(base, i) + OFFSET_AT, HeaderAddress(base, i) + OFFSET_AT + 4)
    requires 0 <= HeaderAddress(base, i) + OFFSET_AT <= |m'| - 4
    requires Load(m', HeaderAddress(base, i) + OFFSET_AT) == OffsetOf(files, i) + base
    ensures HeadersAdjusted(m', base, files, i + 1)
  {
    hide HeaderIs, OffsetOf, Load, SameOutside, HeaderAddress, OffsetField;
    forall k | 0 <= k < |files|
      ensures HeaderIs(m', HeaderAddress(base, k), files[k], OffsetField(files, base, i + 1, k))
    {
      AdjustHeader(m, m', base, files, i, k);
    }
  }

  lemma AdjustHeader(m: seq<byte>, m': seq<byte>, base: int, files: seq<File>, i: nat, k: nat)
    requires i < |files| && k < |files| && HeaderIs(m, HeaderAddress(base, k), files[k], OffsetField(files, base, i, k))
    requires SameOutside(m, m', HeaderAddress(base, i) + OFFSET_AT, HeaderAddress(base, i) + OFFSET_AT + 4)
    requires 0 <= HeaderAddress(base, i) + OFFSET_AT <= |m'| - 4
    requires Load(m', HeaderAddress(base, i) + OFFSET_AT) == OffsetOf(files, i) + base
    ensures HeaderIs(m', HeaderAddress(base, k), files[k], OffsetField(files, base, i + 1, k))
  {
  }

  lemma SameLength(m: seq<byte>, m': seq<byte>, at: int)
    requires SameOutside(m, m', at, at + 4)
    ensures |m'| == |m|
  {
  }

  lemma DataApart(m: seq<byte>, m': seq<byte>, at: int, base: int, files: seq<File>)
    requires AllData(m, base, files) && SameOutside(m, m', at, at + 4) && at + 4 <= base + DATA_START
    ensures AllData(m', base, files)
  {
  }

  lemma CountApart(m: seq<byte>, m': seq<byte>, base: int, at: int)
    requires SameOutside(m, m', at, at + 4) && 0 <= base && base + 4 <= at <= |m| - 4
    ensures Load(m', base) == Load(m, base)
  {
  }

  /** What the reader sees of header `i`. */
  lemma HeaderFields(m: seq<byte>, base: int, files: seq<File>, n: nat, i: nat)
    requires Adjusted(m, base, files, n) && i < |files|
    ensures var h := HeaderAddress(base, i);
            && base < h && h + HEADER_BYTES <= base + DATA_START <= |m|
            && Load(m, h + OFFSET_AT) == OffsetOf(files, i) + (if i < n then base else 0)
            && Load(m, h + LENGTH_AT) == |files[i].data|
            && m[h + NAME_AT..][..|files[i].name|] == files[i].name
            && m[h + NAME_AT..][|files[i].name|] == 0 && |files[i].name| < NAME_BYTES
  {
    hide OffsetOf;
    var h := HeaderAddress(base, i);
    assert HeaderIs(m, h, files[i], OffsetField(files, base, n, i));
    assert m[h + NAME_AT..][..|files[i].name|] == m[h + NAME_AT..h + NAME_AT + |files[i].name|];
  }

  /** The name a node gets: copied without terminator into a cleared buffer. */
  lemma NameCopied(src: seq<byte>, name: seq<byte>, cleared: seq<byte>)
    requires |name| < NAME_BYTES && 0 !in name && name != [] && |name| < |src|
    requires src[..|name|] == name && src[|name|] == 0
    requires |cleared| == NODE_NAME_BYTES && forall k :: 0 <= k < |cleared| ==> cleared[k] == 0
    ensures |src| > 0 && 0 in src[1..] && CopyLength(src) == |name|
    ensures var b := src[..CopyLength(src)] + cleared[CopyLength(src)..];
            |b| == NODE_NAME_BYTES && 0 in b && CStr(b) == name
  {
    assert src[1..][|name| - 1] == 0;
    CStrUnique(src, name);
    CopiesString(src);
    assert src[0] == name[0];
    CopiedString(cleared, name);
  }

  class Initrd {
    var ram: seq<byte>
    const location: int
    var nodes: seq<Node>
    /** The static dirent that readdir hands out. */
    var direntName: seq<byte>
    var direntIno: int
    ghost const files: seq<File>

    ghost predicate Valid()
      reads this
    {
      && |ram| == WORD && location + ImageSize(files) < WORD && Adjusted(ram, location, files, |files|)
      && |nodes| == |files| && (forall i :: 0 <= i < |files| ==> NodeIs(nodes[i], files[i], i))
      && (forall i :: 0 <= i < |files| ==> files[i].name != [] && NameOk(files[i]))
      && |direntName| == NODE_NAME_BYTES
    }

    /**
     * initialise_initrd on a memory that holds an image.  `cleared` is the memory the name of each node
     * is copied into; strcpy writes no terminator, so it has to be zero, and no name may be empty.
     */
    constructor (m: seq<byte>, location: int, cleared: seq<byte>, ghost files: seq<File>)
      requires |m| == WORD && Holds(m, location, 0, files) && location + ImageSize(files) < WORD
      requires forall i :: 0 <= i < |files| ==> files[i].name != [] && NameOk(files[i])
      requires |cleared| == NODE_NAME_BYTES && forall k :: 0 <= k < |cleared| ==> cleared[k] == 0
      ensures Valid() && this.files == files && this.location == location
    {
      hide HeadersAdjusted, AllData, OffsetOf, Load, SameOutside, Holds, HeaderAddress, CStr, CopyLength;
      AdjustStarts(m, location, files);
      var nfiles := Load(m, location);
      var m' := m;
      var ns: seq<Node> := [];
      var i := 0;
      while i < nfiles
        invariant 0 <= i <= nfiles == |files| && |m'| == WORD && Adjusted(m', location, files, i)
        invariant |ns| == i && forall k :: 0 <= k < i ==> NodeIs(ns[k], files[k], k)
      {
        HeaderFields(m', location, files, i, i);
        FitsInWord(files, i, location);
        var h := HeaderAddress(location, i);
        ghost var before := m';
        m' := Store(m', h + OFFSET_AT, (Load(m', h + OFFSET_AT) + location) % WORD);
        AdjustStep(before, m', location, files, i);
        SameLength(before, m', h + OFFSET_AT);
        HeaderFields(m', location, files, i + 1, i);
        var src := m'[h + NAME_AT..];
        NameCopied(src, files[i].name, cleared);
        var name := Strcpy(cleared, src);
        ns := ns + [Node(name, Load(m', h + LENGTH_AT), i)];
        i := i + 1;
      }
      this.files, this.location := files, location;
      ram, nodes := m', ns;
      direntName, direntIno := seq(NODE_NAME_BYTES, _ => 0), 0;
    }

    /**
     * initrd_read of the node of file `i`: nothing beyond the end of the file, otherwise the slice asked
     * for, clipped to the file.  The sum of the two arguments is a 32-bit one, and the clipping is right
     * exactly when it does not wrap.
     */
    method Read(i: nat, offset: word, size: word) returns (buffer: seq<byte>)
      requires Valid() && i < |nodes|
      ensures offset > |files[i].data| ==> buffer == []
      ensures offset <= |files[i].data| && offset + size < WORD ==>
                buffer == files[i].data[offset..Least(offset + size, |files[i].data|)]
      ensures offset <= |files[i].data| ==>
                (|buffer| == Least(size, |files[i].data| - offset) <==> offset + size < WORD)
    {
      hide HeadersAdjusted, OffsetOf, Load, HeaderAddress, CStr, NodeIs, NameOk;
      ghost var f := files[i];
      var inode := nodes[i].inode;
      assert inode == i by { NodeFields(nodes[i], f, i); }
      HeaderFields(ram, location, files, |files|, inode);
      DataHere(ram, location, files, i);
      var at := Load(ram, HeaderAddress(location, inode) + OFFSET_AT);
      var length := Load(ram, HeaderAddress(location, inode) + LENGTH_AT);
      if offset > length {
        return [];
      }
      var n := size;
      if (offset + n) % WORD > length {
        n := length - offset;
      }
      Clipped(offset, size, length, n);
      buffer := Mem.Memcpy(ram, at + offset, n);
      if offset + size < WORD {
        SliceRead(ram, at, f, offset, buffer);
      }
    }

    /**
     * initrd_readdir: the entry is handed out in the static dirent.  Directory dev lists the same files,
     * but has no entry 0.
     */
    method Readdir(isRoot: bool, index: word) returns (found: bool)
      requires Valid()
      modifies this`direntName, this`direntIno
      ensures Valid()
      ensures found <==> (isRoot || index != 0) && EntryAt(files, index) != NoEntry
      ensures found ==> 0 in direntName && EntryAt(files, index) == Entry(CStr(direntName), direntIno)
      ensures !found ==> direntName == old(direntName) && direntIno == old(direntIno)
    {
      hide HeadersAdjusted, AllData, OffsetOf, Load, HeaderAddress, CStr, CopyLength, NameOk;
      if isRoot && index == 0 {
        DevString();
        direntName := Strcpy(direntName, DEV + [0]);
        direntName := direntName[3 := 0];
        Terminated(direntName, DEV);
        direntIno := 0;
        return true;
      }
      var at := (index - 1) % WORD;
      if at >= |nodes| {
        return false;
      }
      var node := nodes[at];
      NodeName(node, files[at], at);
      direntName := Strcpy(direntName, node.name);
      var n := Strlen(node.name);
      direntName := direntName[n := 0];
      Terminated(direntName, files[at].name);
      direntIno := node.inode;
      return true;
    }

    /** initrd_finddir: dev from the root, else the first file of that name. */
    method Finddir(isRoot: bool, name: seq<byte>) returns (r: Found)
      requires Valid() && 0 in name
      ensures isRoot ==> LeadsTo(files, CStr(name), r)
      ensures !isRoot ==> FirstNamed(files, CStr(name), r)
    {
      hide HeadersAdjusted, AllData, OffsetOf, Load, HeaderAddress, CStr, NameOk, Adjusted;
      DevString();
      var differs := Strcmp(name, DEV + [0]);
      if isRoot && differs == 0 {
        return Dev;
      }
      var i := 0;
      while i < |nodes|
        invariant 0 <= i <= |nodes| && forall k :: 0 <= k < i ==> files[k].name != CStr(name)
      {
        differs := Strcmp(name, nodes[i].name);
        if differs == 0 {
          return Root(i);
        }
        i := i + 1;
      }
      return Nothing;
    }
  }

  function Least(a: int, b: int): int {
    if a < b then a else b
  }

  lemma NodeFields(n: Node, f: File, i: int)
    requires NodeIs(n, f, i)
    ensures n.inode == i && n.length == |f.data|
  {
  }

  lemma DataHere(m: seq<byte>, base: int, files: seq<File>, i: nat)
    requires AllData(m, base, files) && i < |files|
    ensures DataIs(m, base + OffsetOf(files, i), files[i])
  {
  }

  /** A sum that wraps comes out below the offset, so the clipping does not happen. */
  lemma Clipped(offset: word, size: word, length: word, n: int)
    requires offset <= length && n == if (offset + size) % WORD > length then length - offset else size
    ensures offset + size < WORD ==> n == Least(offset + size, length) - offset
    ensures n == Least(size, length - offset) <==> offset + size < WORD
  {
  }

  lemma SliceRead(m: seq<byte>, at: int, f: File, offset: nat, buffer: seq<byte>)
    requires |m| == WORD && DataIs(m, at, f) && offset + |buffer| <= |f.data|
    requires forall k :: 0 <= k < |buffer| ==> buffer[k] == m[(at + offset + k) % WORD]
    ensures buffer == f.data[offset..offset + |buffer|]
  {
  }

  lemma DevString()
    ensures 0 !in DEV && 0 in DEV + [0] && 0 in (DEV + [0])[1..] && CStr(DEV + [0]) == DEV && CopyLength(DEV + [0]) == 3
  {
  }

  lemma NodeName(n: Node, f: File, i: int)
    requires NodeIs(n, f, i) && f.name != [] && NameOk(f)
    ensures n.name != [] && 0 in n.name[1..] && CopyLength(n.name) == |f.name| == |CStr(n.name)| < NODE_NAME_BYTES
    ensures n.name[..|f.name|] == f.name
  {
  }

  /** readdir writes the terminator that strcpy leaves out. */
  lemma Terminated(b: seq<byte>, name: seq<byte>)
    requires |name| < |b| && b[..|name|] == name && 0 !in name && b[|name|] == 0
    ensures 0 in b && CStr(b) == name
  {
  }

  /**
   * Listing the root and looking up what is listed: the names are "dev", then those of the files in order, each
   * once, and then the listing ends.  Every name leads to the directory dev, or to the file that is listed, if and
   * only if no earlier entry has the same name.  It carries the inode of that file's node.
   */
  method ListRoot(disk: Initrd) returns (names: seq<seq<byte>>, inodes: seq<int>, hits: seq<Found>)
    requires disk.Valid()
    modifies disk`direntName, disk`direntIno
    ensures disk.Valid() && |names| == |inodes| == |hits| == |disk.files| + 1
    ensures names[0] == DEV && inodes[0] == 0 && hits[0] == Dev
    ensures |disk.nodes| == |disk.files| && forall i :: 0 <= i < |disk.files| ==> inodes[i + 1] == disk.nodes[i].inode == i
    ensures forall i :: 0 <= i < |disk.files| ==> names[i + 1] == disk.files[i].name
    ensures forall i :: 0 <= i < |disk.files| ==>
              (hits[i + 1] == Root(i) <==> forall k :: 0 <= k < i + 1 ==> names[k] != names[i + 1])
  {
    hide Adjusted, NodeIs, NameOk, CStr, LeadsTo;
    names, inodes, hits := [], [], [];
    FewFiles(disk);
    var more := disk.Readdir(true, 0);
    while more
      invariant disk.Valid() && |names| == |inodes| == |hits| <= |disk.files| + 1
      invariant more <==> |names| <= |disk.files|
      invariant more ==> 0 in disk.direntName && EntryAt(disk.files, |names|) == Entry(CStr(disk.direntName), disk.direntIno)
      invariant forall i :: 0 <= i < |names| ==> EntryAt(disk.files, i) == Entry(names[i], inodes[i])
      invariant forall i :: 0 <= i < |names| ==> LeadsTo(disk.files, names[i], hits[i])
      decreases |disk.files| + 1 - |names|
    {
      var hit := disk.Finddir(true, disk.direntName);
      names, inodes, hits := names + [CStr(disk.direntName)], inodes + [disk.direntIno], hits + [hit];
      more := disk.Readdir(true, |names|);
    }
    DevFound(disk.files, names[0], hits[0]);
    forall i | 0 <= i < |disk.files| ensures inodes[i + 1] == disk.nodes[i].inode == i {
      assert EntryAt(disk.files, i + 1) == Entry(names[i + 1], inodes[i + 1]);
      NodeFields(disk.nodes[i], disk.files[i], i);
    }
    forall i | 0 <= i < |disk.files|
      ensures hits[i + 1] == Root(i) <==> forall k :: 0 <= k < i + 1 ==> names[k] != names[i + 1]
    {
      assert EntryAt(disk.files, i + 1) == Entry(names[i + 1], inodes[i + 1]);
      LookupListed(disk.files, i, hits[i + 1]);
    }
  }

  lemma FewFiles(disk: Initrd)
    requires disk.Valid()
    ensures |disk.files| < MAX_HEADERS
  {
    hide HeadersAdjusted, AllData, OffsetOf, Load;
  }

  lemma DevFound(files: seq<File>, name: seq<byte>, r: Found)
    requires name == DEV && LeadsTo(files, name, r)
    ensures r == Dev
  {
  }

  /**
   * The round trip: the image written for any files, put anywhere in memory, initialised and read at any
   * place of any file, gives that slice of that file.
   */
  method RoundTrip(files: seq<File>, junk: seq<byte>, m: seq<byte>, base: nat, cleared: seq<byte>,
                   i: nat, offset: word, size: word) returns (buffer: seq<byte>)
    requires |files| < MAX_HEADERS && |junk| == HEADERS_BYTES && |m| == WORD && base + ImageSize(files) < WORD
    requires forall k :: 0 <= k < |files| ==> files[k].name != [] && NameOk(files[k])
    requires |cleared| == NODE_NAME_BYTES && forall k :: 0 <= k < |cleared| ==> cleared[k] == 0
    requires i < |files| && offset + size < WORD
    ensures buffer == if offset > |files[i].data| then []
                      else files[i].data[offset..Least(offset + size, |files[i].data|)]
  {
    hide Holds, OffsetOf, NameOk;
    var image := CreateImage(files, junk);
    var loaded := m[..base] + image + m[base + |image|..];
    assert loaded[base..base + |image|] == image;
    Loaded(image, loaded, base, files);
    var disk := new Initrd(loaded, base, cleared, files);
    buffer := disk.Read(i, offset, size);
  }

  lemma FitsInWord(files: seq<File>, i: nat, base: int)
    requires i < |files| && 0 <= base && base + ImageSize(files) < WORD
    ensures 0 <= OffsetOf(files, i) + base < WORD && (OffsetOf(files, i) + base) % WORD == OffsetOf(files, i) + base
  {
    OffsetsGrow(files, i, |files|);
  }
}
