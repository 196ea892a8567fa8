/** The directory walk and the entry filter of processFile (main.go:31-53).
    filepath.Walk is modelled as a preorder over a tree whose children are
    listed in the lexical order Walk reads them in; each visit is what the
    callback receives. */
module Walker {
  import opened DatePath

  /** Whether each I/O step of moveFile on this file would succeed:
      os.Open of the source, os.Create of the target, io.Copy, Sync and
      os.Remove. */
  datatype IoOutcomes = IoOutcomes(openOk: bool, createOk: bool, copyOk: bool, syncOk: bool, removeOk: bool)

  /** A non-directory entry: its path, its base name, its modification
      date, what an EXIF read of it would give, and how its copy would go. */
  datatype FileEntry = FileEntry(path: string, name: string, modTime: Date, exif: ExifProbe, io: IoOutcomes)

  /** One call of the walk callback: a file, a directory, or an error
      (the `err != nil` case). */
  datatype Visit =
    | FileVisit(file: FileEntry)
    | DirVisit(path: string, name: string)
    | WalkError(path: string)
  {
    function Name(): string
      requires !WalkError?
    {
      if FileVisit? then file.name else name
    }
  }

  /** strings.HasPrefix(name, "."). */
  predicate IsHidden(name: string)
  {
    |name| > 0 && name[0] == '.'
  }

  /** processFile hands the entry to moveFile: no error, not hidden, not a directory. */
  predicate Eligible(v: Visit)
  {
    v.FileVisit? && !IsHidden(v.file.name)
  }

  /** The entries processFile passes to moveFile, in walk order. */
  function Files(vs: seq<Visit>): (r: seq<FileEntry>)
    ensures |r| <= |vs|
  {
    if vs == [] then []
    else (if Eligible(vs[0]) then [vs[0].file] else []) + Files(vs[1..])
  }

  /** A file is handed to moveFile exactly when the walk visits it and its
      name is not hidden. */
  lemma {:induction false} FilesMembership(vs: seq<Visit>, f: FileEntry)
    ensures f in Files(vs) <==> FileVisit(f) in vs && !IsHidden(f.name)
  {
    if vs != [] {
      FilesMembership(vs[1..], f);
      assert vs == [vs[0]] + vs[1..];
    }
  }

  lemma {:induction false} FilesAppend(a: seq<Visit>, b: seq<Visit>)
    ensures Files(a + b) == Files(a) + Files(b)
  {
    if a == [] {
      assert a + b == b;
    } else {
      var head := if Eligible(a[0]) then [a[0].file] else [];
      assert (a + b)[0] == a[0];
      assert (a + b)[1..] == a[1..] + b;
      FilesAppend(a[1..], b);
      calc {
        Files(a + b);
        head + Files(a[1..] + b);
        head + (Files(a[1..]) + Files(b));
        { SeqAssoc(head, Files(a[1..]), Files(b)); }
        (head + Files(a[1..])) + Files(b);
      }
    }
  }

  lemma SeqAssoc<T>(a: seq<T>, b: seq<T>, c: seq<T>)
    ensures a + (b + c) == (a + b) + c
  {
  }

  lemma FilesSnoc(vs: seq<Visit>, i: nat)
    requires i < |vs|
    ensures Files(vs[..i + 1]) == Files(vs[..i]) + Files([vs[i]])
  {
    assert vs[..i + 1] == vs[..i] + [vs[i]];
    FilesAppend(vs[..i], [vs[i]]);
  }

  lemma FilesSplit(vs: seq<Visit>, i: nat)
    requires i <= |vs|
    ensures Files(vs) == Files(vs[..i]) + Files(vs[i..])
  {
    assert vs == vs[..i] + vs[i..];
    FilesAppend(vs[..i], vs[i..]);
  }

  /** A node of the source tree. A file carries everything moveFile will
      learn about it. */
  datatype FsNode =
    | File(name: string, modTime: Date, exif: ExifProbe, io: IoOutcomes)
    | Dir(name: string, children: seq<FsNode>)

  /** The visits filepath.Walk makes for the subtree `n` found at `path`:
      the node itself, then, for a directory, each child in order at
      Join(path, child name). */
  function WalkOrder(n: FsNode, path: string): seq<Visit>
    decreases n, 1
  {
    match n
    case File(name, modTime, exif, io) => [FileVisit(FileEntry(path, name, modTime, exif, io))]
    case Dir(name, children) => [DirVisit(path, name)] + WalkChildren(children, path)
  }

  function WalkChildren(cs: seq<FsNode>, dir: string): seq<Visit>
    decreases cs, 0
  {
    if cs == [] then []
    else WalkOrder(cs[0], Join(dir, cs[0].name)) + WalkChildren(cs[1..], dir)
  }

  /** The files of the subtree `n` found at `path`, at any depth, each with
      the path it is found at: the ones the walk reaches, hidden directory
      or not. */
  ghost predicate FileAt(n: FsNode, path: string, f: FileEntry)
    decreases n
  {
    match n
    case File(name, modTime, exif, io) => f == FileEntry(path, name, modTime, exif, io)
    case Dir(_, children) =>
      exists i :: 0 <= i < |children| && FileAt(children[i], Join(path, children[i].name), f)
  }

  /** Every file under the root whose own name is not hidden is handed to
      moveFile, however many hidden directories lie above it: the callback
      returns nil, not filepath.SkipDir, for a hidden directory. Conversely
      nothing else is. */
  lemma {:induction false} WalkReachesVisibleFiles(n: FsNode, path: string, f: FileEntry)
    ensures f in Files(WalkOrder(n, path)) <==> FileAt(n, path, f) && !IsHidden(f.name)
    decreases n, 1
  {
    match n
    case File(_, _, _, _) =>
      FilesMembership(WalkOrder(n, path), f);
    case Dir(name, children) =>
      FilesAppend([DirVisit(path, name)], WalkChildren(children, path));
      ChildrenReachVisibleFiles(children, path, f);
  }

  lemma {:induction false} ChildrenReachVisibleFiles(cs: seq<FsNode>, dir: string, f: FileEntry)
    ensures f in Files(WalkChildren(cs, dir)) <==>
      !IsHidden(f.name) && exists i :: 0 <= i < |cs| && FileAt(cs[i], Join(dir, cs[i].name), f)
    decreases cs, 0
  {
    if cs != [] {
      var p := Join(dir, cs[0].name);
      FilesAppend(WalkOrder(cs[0], p), WalkChildren(cs[1..], dir));
      WalkReachesVisibleFiles(cs[0], p, f);
      ChildrenReachVisibleFiles(cs[1..], dir, f);
      if exists i :: 0 <= i < |cs| && FileAt(cs[i], Join(dir, cs[i].name), f) {
        var i :| 0 <= i < |cs| && FileAt(cs[i], Join(dir, cs[i].name), f);
        if i > 0 {
          assert cs[1..][i - 1] == cs[i];
        }
      }
      if exists i :: 0 <= i < |cs[1..]| && FileAt(cs[1..][i], Join(dir, cs[1..][i].name), f) {
        var i :| 0 <= i < |cs[1..]| && FileAt(cs[1..][i], Join(dir, cs[1..][i].name), f);
        assert cs[i + 1] == cs[1..][i];
      }
    }
  }
}
