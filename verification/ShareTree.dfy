/** The file and directory lists carried by browse, search and folder messages. */
module ShareTree {
  import opened Bytes
  import opened Wire
  import Utf8

  datatype SharedFile = SharedFile(name: string, size: u64, extension: string, attributes: seq<(u32, u32)>)

  datatype SharedDirectory = SharedDirectory(path: string, files: seq<SharedFile>)

  // ---- the grammar -------------------------------------------------------

  function ReadAttribute(s: seq<byte>): Parsed<(u32, u32)> {
    var (kind, s1) :- ReadU32(s);
    var (value, s2) :- ReadU32(s1);
    Ok((kind, value), s2)
  }

  function ReadFile(s: seq<byte>): Parsed<SharedFile> {
    var (_, s1) :- ReadU8(s);
    var (name, s2) :- ReadString(s1);
    var (size, s3) :- ReadFileSize(s2);
    var (extension, s4) :- ReadString(s3);
    var (attributes, s5) :- ReadList(ReadAttribute, s4);
    Ok(SharedFile(name, size, extension, attributes), s5)
  }

  function ReadFiles(s: seq<byte>): Parsed<seq<SharedFile>> {
    ReadList(ReadFile, s)
  }

  /** Every `/` becomes the canonical separator `\`. */
  function Backslashes(path: string): (r: string)
    ensures |r| == |path|
    ensures forall i :: 0 <= i < |path| ==> r[i] == if path[i] == '/' then '\\' else path[i]
  {
    seq(|path|, i requires 0 <= i < |path| => if path[i] == '/' then '\\' else path[i])
  }

  function ReadDirectory(s: seq<byte>): Parsed<SharedDirectory> {
    var (path, s1) :- ReadString(s);
    var (files, s2) :- ReadFiles(s1);
    Ok(SharedDirectory(Backslashes(path), files), s2)
  }

  function ReadDirectories(s: seq<byte>): Parsed<seq<SharedDirectory>> {
    ReadList(ReadDirectory, s)
  }

  // ---- the encoders as functions -----------------------------------------

  function AttributeBytes(a: (u32, u32)): seq<byte> {
    U32Bytes(a.0) + U32Bytes(a.1)
  }

  function FileBytes(f: SharedFile): (r: seq<byte>)
    ensures |Utf8.Encode(f.name)| + |Utf8.Encode(f.extension)| + 21 <= |r|
  {
    [1] + StringBytes(f.name) + U64Bytes(f.size) + StringBytes(f.extension) + ListBytes(AttributeBytes, f.attributes)
  }

  function FilesBytes(files: seq<SharedFile>): seq<byte> {
    ListBytes(FileBytes, files)
  }

  function DirectoryBytes(d: SharedDirectory): (r: seq<byte>)
    ensures |Utf8.Encode(d.path)| + |FilesBytes(d.files)| + 4 == |r|
  {
    StringBytes(d.path) + FilesBytes(d.files)
  }

  function DirectoriesBytes(ds: seq<SharedDirectory>): seq<byte> {
    ListBytes(DirectoryBytes, ds)
  }

  // ---- normal forms --------------------------------------------------------

  function NormalFile(f: SharedFile): SharedFile {
    f.(size := NormalSize(f.size))
  }

  function NormalFiles(files: seq<SharedFile>): seq<SharedFile> {
    MapSeq(NormalFile, files)
  }

  function NormalDirectory(d: SharedDirectory): SharedDirectory {
    SharedDirectory(Backslashes(d.path), NormalFiles(d.files))
  }

  function NormalDirectories(ds: seq<SharedDirectory>): seq<SharedDirectory> {
    MapSeq(NormalDirectory, ds)
  }

  // ---- decoding what was encoded -------------------------------------------

  lemma AttributeInverts(a: (u32, u32), t: seq<byte>)
    ensures ReadAttribute(AttributeBytes(a) + t) == Ok(a, t)
  {
    assert AttributeBytes(a) + t == U32Bytes(a.0) + (U32Bytes(a.1) + t);
    ReadU32Inverts(a.0, U32Bytes(a.1) + t);
    ReadU32Inverts(a.1, t);
  }

  lemma MapSame<T>(f: T -> T, xs: seq<T>)
    requires forall x :: x in xs ==> f(x) == x
    ensures MapSeq(f, xs) == xs
  {
    assert forall i :: 0 <= i < |xs| ==> MapSeq(f, xs)[i] == xs[i];
  }

  lemma {:induction false} AttributesSize(xs: seq<(u32, u32)>)
    ensures |ManyBytes(AttributeBytes, xs)| == 8 * |xs|
  {
    if xs != [] {
      AttributesSize(xs[1..]);
    }
  }

  lemma AttributesInvert(xs: seq<(u32, u32)>, t: seq<byte>)
    requires |ListBytes(AttributeBytes, xs)| < U32_LIMIT
    ensures ReadList(ReadAttribute, ListBytes(AttributeBytes, xs) + t) == Ok(xs, t)
  {
    AttributesSize(xs);
    var id := (a: (u32, u32)) => a;
    forall a, t | a in xs
      ensures ReadAttribute(AttributeBytes(a) + t) == Ok(id(a), t)
    {
      AttributeInverts(a, t);
    }
    ListInverts(ReadAttribute, AttributeBytes, id, xs, t);
    MapSame(id, xs);
  }

  lemma FileInverts(f: SharedFile, t: seq<byte>)
    requires |FileBytes(f)| < U32_LIMIT
    ensures ReadFile(FileBytes(f) + t) == Ok(NormalFile(f), t)
  {
    hide StringBytes, U64Bytes, ReadString, ReadFileSize, ReadList, ListBytes;
    var s4 := ListBytes(AttributeBytes, f.attributes) + t;
    var s3 := StringBytes(f.extension) + s4;
    var s2 := U64Bytes(f.size) + s3;
    var s1 := StringBytes(f.name) + s2;
    assert FileBytes(f) + t == [1] + s1;
    TakeFront([1], s1);
    StringInverts(f.name, s2);
    ReadFileSizeInverts(f.size, s3);
    StringInverts(f.extension, s4);
    AttributesInvert(f.attributes, t);
  }

  lemma FilesInvert(files: seq<SharedFile>, t: seq<byte>)
    requires |FilesBytes(files)| < U32_LIMIT
    ensures ReadFiles(FilesBytes(files) + t) == Ok(NormalFiles(files), t)
  {
    hide ReadFile, FileBytes;
    ManyBytesCount(FileBytes, files);
    forall f, t | f in files
      ensures ReadFile(FileBytes(f) + t) == Ok(NormalFile(f), t)
    {
      var i :| 0 <= i < |files| && files[i] == f;
      ManyBytesSize(FileBytes, files, i);
      FileInverts(f, t);
    }
    ListInverts(ReadFile, FileBytes, NormalFile, files, t);
  }

  lemma DirectoryInverts(d: SharedDirectory, t: seq<byte>)
    requires |DirectoryBytes(d)| < U32_LIMIT
    ensures ReadDirectory(DirectoryBytes(d) + t) == Ok(NormalDirectory(d), t)
  {
    assert DirectoryBytes(d) + t == StringBytes(d.path) + (FilesBytes(d.files) + t);
    StringInverts(d.path, FilesBytes(d.files) + t);
    FilesInvert(d.files, t);
  }

  /** Decoding the encoding of any tree under 4 GiB gives its normal form and stops where the tree ends. */
  lemma DirectoriesInvert(ds: seq<SharedDirectory>, t: seq<byte>)
    requires |DirectoriesBytes(ds)| < U32_LIMIT
    ensures ReadDirectories(DirectoriesBytes(ds) + t) == Ok(NormalDirectories(ds), t)
  {
    hide ReadDirectory, DirectoryBytes;
    ManyBytesCount(DirectoryBytes, ds);
    forall d, t | d in ds
      ensures ReadDirectory(DirectoryBytes(d) + t) == Ok(NormalDirectory(d), t)
    {
      var i :| 0 <= i < |ds| && ds[i] == d;
      ManyBytesSize(DirectoryBytes, ds, i);
      DirectoryInverts(d, t);
    }
    ListInverts(ReadDirectory, DirectoryBytes, NormalDirectory, ds, t);
  }

  lemma NormalFilesFixed(files: seq<SharedFile>)
    ensures NormalFiles(NormalFiles(files)) == NormalFiles(files)
  {
    MapSame(NormalFile, NormalFiles(files));
  }

  /** The codec is a projection: normal forms are fixed points. */
  lemma NormalDirectoriesFixed(ds: seq<SharedDirectory>)
    ensures NormalDirectories(NormalDirectories(ds)) == NormalDirectories(ds)
  {
    forall d | d in NormalDirectories(ds)
      ensures NormalDirectory(d) == d
    {
      var i :| 0 <= i < |ds| && NormalDirectories(ds)[i] == d;
      NormalFilesFixed(ds[i].files);
      assert Backslashes(Backslashes(ds[i].path)) == Backslashes(ds[i].path);
    }
    MapSame(NormalDirectory, NormalDirectories(ds));
  }

  lemma ReadFilesIsNormal(s: seq<byte>)
    requires ReadFiles(s).Ok?
    ensures NormalFiles(ReadFiles(s).value) == ReadFiles(s).value
  {
    hide ReadFile, NormalFile, ReadU32;
    forall b | ReadFile(b).Ok? ensures NormalFile(ReadFile(b).value) == ReadFile(b).value {
      ReadFileIsNormal(b);
    }
    ManyIsNormal(ReadFile, NormalFile, ReadU32(s).value, ReadU32(s).rest);
  }

  lemma ReadFileIsNormal(s: seq<byte>)
    requires ReadFile(s).Ok?
    ensures NormalFile(ReadFile(s).value) == ReadFile(s).value
  {
    hide ReadU8, ReadString, ReadFileSize, ReadList, NormalSize;
    var s2 := ReadString(ReadU8(s).rest).rest;
    ReadSizeIsNormal(s2);
  }

  lemma ReadDirectoryIsNormal(s: seq<byte>)
    requires ReadDirectory(s).Ok?
    ensures NormalDirectory(ReadDirectory(s).value) == ReadDirectory(s).value
  {
    hide ReadString, ReadFiles, NormalFiles;
    ReadFilesIsNormal(ReadString(s).rest);
    var path := ReadString(s).value;
    assert Backslashes(Backslashes(path)) == Backslashes(path);
  }

  /** Whatever bytes a tree is read from, it is in normal form. */
  lemma ReadDirectoriesIsNormal(s: seq<byte>)
    requires ReadDirectories(s).Ok?
    ensures NormalDirectories(ReadDirectories(s).value) == ReadDirectories(s).value
  {
    hide ReadDirectory, NormalDirectory, ReadU32;
    forall b | ReadDirectory(b).Ok? ensures NormalDirectory(ReadDirectory(b).value) == ReadDirectory(b).value {
      ReadDirectoryIsNormal(b);
    }
    ManyIsNormal(ReadDirectory, NormalDirectory, ReadU32(s).value, ReadU32(s).rest);
  }

  // ---- the shape of the input alone decides --------------------------------

  lemma StringLocal(s: seq<byte>, t: seq<byte>)
    requires ReadString(s).Ok?
    ensures |s| - |ReadString(s).rest| >= 4
    ensures ReadString(s + t) == Ok(ReadString(s).value, ReadString(s).rest + t)
  {
    TakeLocal(4, s, t);
    TakeLocal(ReadU32(s).value, ReadU32(s).rest, t);
  }

  lemma AttributeLocal()
    ensures Local(ReadAttribute) && OnlyEof(ReadAttribute)
    ensures Consumes(ReadAttribute, (a: (u32, u32)) => 8)
  {
    forall s, t | ReadAttribute(s).Ok?
      ensures ReadAttribute(s + t) == Ok(ReadAttribute(s).value, ReadAttribute(s).rest + t)
    {
      TakeLocal(4, s, t);
      TakeLocal(4, ReadU32(s).rest, t);
    }
  }

  function FileCost(f: SharedFile): nat {
    21 + 8 * |f.attributes|
  }

  function DirectoryCost(d: SharedDirectory): nat {
    8 + Total(FileCost, d.files)
  }

  lemma {:induction false} TotalConstant<T>(c: nat, xs: seq<T>)
    ensures Total((x: T) => c, xs) == c * |xs|
  {
    if xs != [] {
      TotalConstant(c, xs[1..]);
    }
  }

  lemma PrimitivesLocal(s: seq<byte>, t: seq<byte>)
    ensures ReadU8(s).Ok? ==>
      |s| - |ReadU8(s).rest| == 1 && ReadU8(s + t) == Ok(ReadU8(s).value, ReadU8(s).rest + t)
    ensures ReadFileSize(s).Ok? ==>
      |s| - |ReadFileSize(s).rest| == 8 && ReadFileSize(s + t) == Ok(ReadFileSize(s).value, ReadFileSize(s).rest + t)
  {
    if |s| >= 1 {
      TakeLocal(1, s, t);
    }
    if |s| >= 8 {
      TakeLocal(8, s, t);
    }
  }

  lemma AttributesLocal(s: seq<byte>, t: seq<byte>)
    requires ReadList(ReadAttribute, s).Ok?
    ensures var r := ReadList(ReadAttribute, s);
      && |s| - |r.rest| >= 4 + 8 * |r.value|
      && ReadList(ReadAttribute, s + t) == Ok(r.value, r.rest + t)
  {
    AttributeLocal();
    ListLocal(ReadAttribute, s, t);
    var n := ReadU32(s).value;
    ManyConsumes(ReadAttribute, (a: (u32, u32)) => 8, n, ReadU32(s).rest);
    TotalConstant(8, ReadList(ReadAttribute, s).value);
  }

  lemma FileLocalAt(s: seq<byte>, t: seq<byte>)
    requires ReadFile(s).Ok?
    ensures ReadFile(s + t) == Ok(ReadFile(s).value, ReadFile(s).rest + t)
    ensures |s| - |ReadFile(s).rest| >= FileCost(ReadFile(s).value)
  {
    hide ReadU8, ReadString, ReadFileSize, ReadList;
    var s1 := ReadU8(s).rest;
    var s2 := ReadString(s1).rest;
    var s3 := ReadFileSize(s2).rest;
    var s4 := ReadString(s3).rest;
    PrimitivesLocal(s, t);
    StringLocal(s1, t);
    PrimitivesLocal(s2, t);
    StringLocal(s3, t);
    AttributesLocal(s4, t);
  }

  lemma FileOnlyEof(s: seq<byte>)
    requires ReadFile(s).Err?
    ensures ReadFile(s).error.UnexpectedEof?
  {
    AttributeLocal();
    if ReadU8(s).Ok? {
      var s1 := ReadU8(s).rest;
      if ReadString(s1).Ok? && ReadFileSize(ReadString(s1).rest).Ok? {
        var s3 := ReadFileSize(ReadString(s1).rest).rest;
        if ReadString(s3).Ok? && ReadU32(ReadString(s3).rest).Ok? {
          var n := ReadU32(ReadString(s3).rest);
          ManyOnlyEof(ReadAttribute, n.value, n.rest);
        }
      }
    }
  }

  lemma FileLocal()
    ensures Local(ReadFile) && OnlyEof(ReadFile) && Consumes(ReadFile, FileCost)
  {
    hide ReadU8, ReadString, ReadFileSize, ReadList, FileCost;
    forall s | ReadFile(s).Ok?
      ensures |s| - |ReadFile(s).rest| >= FileCost(ReadFile(s).value)
    {
      FileLocalAt(s, []);
    }
    forall s, t {:trigger ReadFile(s + t)} | ReadFile(s).Ok?
      ensures ReadFile(s + t) == Ok(ReadFile(s).value, ReadFile(s).rest + t)
    {
      FileLocalAt(s, t);
    }
    forall s | ReadFile(s).Err?
      ensures ReadFile(s).error.UnexpectedEof?
    {
      FileOnlyEof(s);
    }
  }

  lemma DirectoryLocalAt(s: seq<byte>, t: seq<byte>)
    requires ReadDirectory(s).Ok?
    ensures ReadDirectory(s + t) == Ok(ReadDirectory(s).value, ReadDirectory(s).rest + t)
    ensures |s| - |ReadDirectory(s).rest| >= DirectoryCost(ReadDirectory(s).value)
  {
    var s1 := ReadString(s).rest;
    StringLocal(s, t);
    FileLocal();
    ListLocal(ReadFile, s1, t);
    ManyConsumes(ReadFile, FileCost, ReadU32(s1).value, ReadU32(s1).rest);
  }

  lemma DirectoryOnlyEof(s: seq<byte>)
    requires ReadDirectory(s).Err?
    ensures ReadDirectory(s).error.UnexpectedEof?
  {
    FileLocal();
    if ReadString(s).Ok? {
      var n := ReadU32(ReadString(s).rest);
      if n.Ok? {
        ManyOnlyEof(ReadFile, n.value, n.rest);
      }
    }
  }

  lemma DirectoryLocal()
    ensures Local(ReadDirectory) && OnlyEof(ReadDirectory) && Consumes(ReadDirectory, DirectoryCost)
  {
    hide ReadString, ReadFiles, DirectoryCost;
    forall s | ReadDirectory(s).Ok?
      ensures |s| - |ReadDirectory(s).rest| >= DirectoryCost(ReadDirectory(s).value)
    {
      DirectoryLocalAt(s, []);
    }
    forall s, t {:trigger ReadDirectory(s + t)} | ReadDirectory(s).Ok?
      ensures ReadDirectory(s + t) == Ok(ReadDirectory(s).value, ReadDirectory(s).rest + t)
    {
      DirectoryLocalAt(s, t);
    }
    forall s | ReadDirectory(s).Err?
      ensures ReadDirectory(s).error.UnexpectedEof?
    {
      DirectoryOnlyEof(s);
    }
  }

  /**
   Reading a tree depends only on the bytes it consumes: what follows changes
   nothing, and cutting inside them always reports the end of the input.
   */
  lemma TreeIsLocal(s: seq<byte>, t: seq<byte>, k: nat)
    requires ReadDirectories(s).Ok?
    ensures ReadDirectories(s + t) == Ok(ReadDirectories(s).value, ReadDirectories(s).rest + t)
    ensures k < |s| - |ReadDirectories(s).rest| ==>
      ReadDirectories(s[..k]).Err? && ReadDirectories(s[..k]).error.UnexpectedEof?
  {
    hide ReadDirectory, ReadList, Local, OnlyEof, Consumes;
    DirectoryLocal();
    ListLocal(ReadDirectory, s, t);
    if k < |s| - |ReadDirectories(s).rest| {
      var (front, back) := (s[..k], s[k..]);
      assert front + back == s;
      if ReadDirectories(front).Ok? {
        ListLocal(ReadDirectory, front, back);
      } else {
        TreeOnlyEof(front);
      }
    }
  }

  lemma TreeOnlyEof(s: seq<byte>)
    requires ReadDirectories(s).Err?
    ensures ReadDirectories(s).error.UnexpectedEof?
  {
    DirectoryLocal();
    if ReadU32(s).Ok? {
      ManyOnlyEof(ReadDirectory, ReadU32(s).value, ReadU32(s).rest);
    }
  }

  /** However large the counts an input claims, a tree read from it is paid for in bytes. */
  lemma TreeIsPaidFor(s: seq<byte>)
    requires ReadDirectories(s).Ok?
    ensures |s| - |ReadDirectories(s).rest| >= 4 + Total(DirectoryCost, ReadDirectories(s).value)
  {
    DirectoryLocal();
    ManyConsumes(ReadDirectory, DirectoryCost, ReadU32(s).value, ReadU32(s).rest);
  }

  // ---- the decoding loops ----------------------------------------------------

  method DecodeAttributes(r: Reader) returns (res: Result<seq<(u32, u32)>, DecodeError>)
    requires r.Valid()
    modifies r
    ensures r.Follows(ReadList(ReadAttribute, old(r.Unread())), res)
  {
    hide ReadU32;
    var count :- r.U32();
    ghost var s1 := r.Unread();
    var attributes: seq<(u32, u32)> := [];
    var i: nat := 0;
    PrependEnds(Many(ReadAttribute, count, s1), attributes, s1);
    while i < count
      invariant r.Valid() && i <= count
      invariant Many(ReadAttribute, count, s1) == Prepend(attributes, Many(ReadAttribute, count - i, r.Unread()))
    {
      PrependStep(ReadAttribute, attributes, count - i, r.Unread());
      var kind :- r.U32();
      var value :- r.U32();
      attributes := attributes + [(kind, value)];
      i := i + 1;
    }
    PrependEnds(Many(ReadAttribute, count, s1), attributes, r.Unread());
    return Success(attributes);
  }

  method DecodeFile(r: Reader) returns (f: Result<SharedFile, DecodeError>)
    requires r.Valid()
    modifies r
    ensures r.Follows(ReadFile(old(r.Unread())), f)
  {
    hide ReadU8, ReadList, ReadString, ReadFileSize;
    var _ :- r.U8();
    var name :- r.String();
    var size :- r.FileSize();
    var extension :- r.String();
    var attributes :- DecodeAttributes(r);
    return Success(SharedFile(name, size, extension, attributes));
  }

  method DecodeFiles(r: Reader) returns (res: Result<seq<SharedFile>, DecodeError>)
    requires r.Valid()
    modifies r
    ensures r.Follows(ReadFiles(old(r.Unread())), res)
  {
    hide ReadFile, ReadU32;
    var count :- r.U32();
    ghost var s1 := r.Unread();
    var files: seq<SharedFile> := [];
    var i: nat := 0;
    PrependEnds(Many(ReadFile, count, s1), files, s1);
    while i < count
      invariant r.Valid() && i <= count
      invariant Many(ReadFile, count, s1) == Prepend(files, Many(ReadFile, count - i, r.Unread()))
    {
      PrependStep(ReadFile, files, count - i, r.Unread());
      var f :- DecodeFile(r);
      files := files + [f];
      i := i + 1;
    }
    PrependEnds(Many(ReadFile, count, s1), files, r.Unread());
    return Success(files);
  }

  method DecodeDirectories(r: Reader) returns (res: Result<seq<SharedDirectory>, DecodeError>)
    requires r.Valid()
    modifies r
    ensures r.Follows(ReadDirectories(old(r.Unread())), res)
  {
    hide ReadString, ReadFiles, ReadU32;
    var count :- r.U32();
    ghost var s1 := r.Unread();
    var dirs: seq<SharedDirectory> := [];
    var i: nat := 0;
    PrependEnds(Many(ReadDirectory, count, s1), dirs, s1);
    while i < count
      invariant r.Valid() && i <= count
      invariant Many(ReadDirectory, count, s1) == Prepend(dirs, Many(ReadDirectory, count - i, r.Unread()))
    {
      PrependStep(ReadDirectory, dirs, count - i, r.Unread());
      var path :- r.String();
      var files :- DecodeFiles(r);
      dirs := dirs + [SharedDirectory(Backslashes(path), files)];
      i := i + 1;
    }
    PrependEnds(Many(ReadDirectory, count, s1), dirs, r.Unread());
    return Success(dirs);
  }

  // ---- the encoding loops ----------------------------------------------------

  lemma FileParts(before: seq<byte>, name: seq<byte>, size: seq<byte>, extension: seq<byte>, attributes: seq<byte>)
    ensures before + [1] + name + size + extension + attributes == before + ([1] + name + size + extension + attributes)
  {
    var head := [1] + name + size + extension;
    assert before + [1] + name + size + extension == before + head;
  }

  method WriteAttributes(buf: Buffer, attributes: seq<(u32, u32)>)
    modifies buf
    ensures buf.data == old(buf.data) + ListBytes(AttributeBytes, attributes)
  {
    hide U32Bytes;
    buf.PutU32(Truncate32(|attributes|));
    ghost var before := buf.data;
    WriteEnds(AttributeBytes, attributes, before);
    var i := 0;
    while i < |attributes|
      invariant 0 <= i <= |attributes|
      invariant buf.data == before + ManyBytes(AttributeBytes, attributes[..i])
    {
      buf.PutU32(attributes[i].0);
      buf.PutU32(attributes[i].1);
      WriteStep(AttributeBytes, attributes, i, before);
      i := i + 1;
    }
  }

  method WriteFile(buf: Buffer, f: SharedFile)
    modifies buf
    ensures buf.data == old(buf.data) + FileBytes(f)
  {
    hide StringBytes, U64Bytes, ListBytes;
    buf.PutU8(1);
    buf.PutString(f.name);
    buf.PutU64(f.size);
    buf.PutString(f.extension);
    WriteAttributes(buf, f.attributes);
    FileParts(old(buf.data), StringBytes(f.name), U64Bytes(f.size), StringBytes(f.extension),
              ListBytes(AttributeBytes, f.attributes));
  }

  method WriteFiles(buf: Buffer, files: seq<SharedFile>)
    modifies buf
    ensures buf.data == old(buf.data) + FilesBytes(files)
  {
    hide FileBytes, U32Bytes;
    buf.PutU32(Truncate32(|files|));
    ghost var before := buf.data;
    WriteEnds(FileBytes, files, before);
    var i := 0;
    while i < |files|
      invariant 0 <= i <= |files|
      invariant buf.data == before + ManyBytes(FileBytes, files[..i])
    {
      WriteFile(buf, files[i]);
      WriteStep(FileBytes, files, i, before);
      i := i + 1;
    }
  }

  method WriteDirectories(buf: Buffer, dirs: seq<SharedDirectory>)
    modifies buf
    ensures buf.data == old(buf.data) + DirectoriesBytes(dirs)
  {
    hide FilesBytes, StringBytes, U32Bytes;
    buf.PutU32(Truncate32(|dirs|));
    ghost var before := buf.data;
    WriteEnds(DirectoryBytes, dirs, before);
    var i := 0;
    while i < |dirs|
      invariant 0 <= i <= |dirs|
      invariant buf.data == before + ManyBytes(DirectoryBytes, dirs[..i])
    {
      buf.PutString(dirs[i].path);
      WriteFiles(buf, dirs[i].files);
      WriteStep(DirectoryBytes, dirs, i, before);
      i := i + 1;
    }
  }
}
