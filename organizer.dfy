/** The run: the global counter and configuration, moveFile with its
    copy-then-maybe-delete steps, the processFile callback, doWork and main
    (main.go:23-101). The file system is seen through the calls the program
    makes: each call is recorded as an Effect, and whether it succeeds is
    given per file by its IoOutcomes. */
module MediaOrganizer {
  import opened DatePath
  import opened Config
  import opened Walker

  /** A call moveFile makes on the file system. */
  datatype Effect =
    | ReadExif(path: string)              // os.Open in getJpegTime
    | MakeDirs(dir: string)               // os.MkdirAll
    | OpenSource(path: string)            // os.Open
    | CreateTarget(path: string)          // os.Create, truncating an existing file
    | CopyBytes(from: string, to: string) // io.Copy
    | SyncTarget(path: string)            // File.Sync
    | RemoveSource(path: string)          // os.Remove

  /** The calls that open nothing for reading only: they create, write or delete. */
  predicate Mutates(e: Effect)
  {
    !e.ReadExif? && !e.OpenSource?
  }

  /** file_moved after the copy steps: only the err of Sync survives the
      reassignments, and Sync of the nil handle left by a failed os.Create
      returns an error. Whether os.Open and io.Copy succeeded is not consulted. */
  predicate FileMoved(cfg: AppConfig, io: IoOutcomes)
  {
    !cfg.dryRun && io.createOk && io.syncOk
  }

  /** new_path for a file. */
  function Target(cfg: AppConfig, f: FileEntry): string
  {
    DestPath(cfg.dst, FileTime(f.name, f.exif, f.modTime), f.name)
  }

  /** The read-only open of getJpegTime, for a JPEG name. */
  function ProbeEffects(f: FileEntry): seq<Effect>
  {
    if IsJpegName(f.name) then [ReadExif(f.path)] else []
  }

  /** The copy steps, all attempted whatever the earlier ones returned. */
  function CopyEffects(cfg: AppConfig, f: FileEntry): seq<Effect>
  {
    var date := FileTime(f.name, f.exif, f.modTime);
    var target := DestPath(cfg.dst, date, f.name);
    if cfg.dryRun then []
    else [MakeDirs(DestDir(cfg.dst, date)), OpenSource(f.path), CreateTarget(target),
          CopyBytes(f.path, target), SyncTarget(target)]
  }

  /** The removal of the source. */
  function RemoveEffects(cfg: AppConfig, f: FileEntry): seq<Effect>
  {
    if cfg.delete && FileMoved(cfg, f.io) then [RemoveSource(f.path)] else []
  }

  /** The calls one moveFile makes, in order. */
  function MoveEffects(cfg: AppConfig, f: FileEntry): seq<Effect>
  {
    ProbeEffects(f) + CopyEffects(cfg, f) + RemoveEffects(cfg, f)
  }

  /** A dry run touches nothing: the only call left is the read-only open
      that looks for EXIF data in a JPEG. */
  lemma DryRunMoveReadsOnly(cfg: AppConfig, f: FileEntry)
    requires cfg.dryRun
    ensures forall e :: e in MoveEffects(cfg, f) ==> e == ReadExif(f.path) && !Mutates(e)
    ensures |MoveEffects(cfg, f)| <= 1
  {
  }

  /** The source is removed exactly when deletion is on, it is not a dry
      run, and os.Create and Sync succeeded; failures of os.Open and
      io.Copy do not prevent it. Nothing else is ever removed. */
  lemma RemoveGate(cfg: AppConfig, f: FileEntry, p: string)
    ensures RemoveSource(p) in MoveEffects(cfg, f) <==>
      p == f.path && cfg.delete && !cfg.dryRun && f.io.createOk && f.io.syncOk
  {
  }

  /** The errors of os.Open, io.Copy and os.Remove change nothing: they are
      logged and then overwritten or dropped. */
  lemma EarlierErrorsOverwritten(cfg: AppConfig, f: FileEntry, io: IoOutcomes)
    requires io.createOk == f.io.createOk && io.syncOk == f.io.syncOk
    ensures MoveEffects(cfg, f.(io := io)) == MoveEffects(cfg, f)
  {
  }

  /** Outside a dry run the directory `dst/YYYY-MM-DD` is created, and the
      copy is created, filled from the source and synced at
      `dst/YYYY-MM-DD/name`: no directory, create, copy or sync goes anywhere else. */
  lemma CopyGoesToTarget(cfg: AppConfig, f: FileEntry)
    requires !cfg.dryRun
    ensures var date := FileTime(f.name, f.exif, f.modTime);
      && MakeDirs(DestDir(cfg.dst, date)) in MoveEffects(cfg, f)
      && CreateTarget(DestPath(cfg.dst, date, f.name)) in MoveEffects(cfg, f)
      && CopyBytes(f.path, DestPath(cfg.dst, date, f.name)) in MoveEffects(cfg, f)
      && SyncTarget(DestPath(cfg.dst, date, f.name)) in MoveEffects(cfg, f)
    ensures forall e :: e in MoveEffects(cfg, f) ==>
      && (e.MakeDirs? ==> e.dir == DestDir(cfg.dst, FileTime(f.name, f.exif, f.modTime)))
      && (e.CreateTarget? || e.SyncTarget? ==> e.path == Target(cfg, f))
      && (e.CopyBytes? ==> e.from == f.path && e.to == Target(cfg, f))
  {
    var date := FileTime(f.name, f.exif, f.modTime);
    var target := Target(cfg, f);
    var copy := [MakeDirs(DestDir(cfg.dst, date)), OpenSource(f.path), CreateTarget(target),
                 CopyBytes(f.path, target), SyncTarget(target)];
    var moves := MoveEffects(cfg, f);
    var k := |ProbeEffects(f)|;
    assert CopyEffects(cfg, f) == copy;
    assert moves == ProbeEffects(f) + copy + RemoveEffects(cfg, f);
    assert moves[k] == copy[0];
    assert moves[k + 2] == copy[2];
    assert moves[k + 3] == copy[3];
    assert moves[k + 4] == copy[4];
    forall e | e in moves
      ensures e.MakeDirs? ==> e.dir == DestDir(cfg.dst, date)
      ensures e.CreateTarget? || e.SyncTarget? ==> e.path == target
      ensures e.CopyBytes? ==> e.from == f.path && e.to == target
    {
      assert e in ProbeEffects(f) || e in copy || e in RemoveEffects(cfg, f);
    }
  }

  /** The flag defaults give a dry run with a limit of 100: such a run hands
      at most 100 files to moveFile (exactly min(N, 100) of N eligible ones,
      the count main reaches for these flags) and creates, writes and
      deletes nothing. */
  lemma DefaultsTouchNothing(src: string, dst: string, files: seq<FileEntry>)
    ensures var cfg := Defaults(src, dst);
      var moved := if cfg.limit > 0 then Min(|files|, cfg.limit) else |files|;
      && moved == Min(|files|, 100) && moved <= 100
      && forall e :: e in AllEffects(cfg, files[..moved]) ==> e.ReadExif? && !Mutates(e)
  {
    var cfg := Defaults(src, dst);
    DryRunReadsOnly(cfg, files[..Min(|files|, 100)]);
  }

  /** The calls of a sequence of moveFile invocations. */
  function AllEffects(cfg: AppConfig, files: seq<FileEntry>): seq<Effect>
  {
    if files == [] then [] else MoveEffects(cfg, files[0]) + AllEffects(cfg, files[1..])
  }

  lemma {:induction false} AllEffectsAppend(cfg: AppConfig, a: seq<FileEntry>, b: seq<FileEntry>)
    ensures AllEffects(cfg, a + b) == AllEffects(cfg, a) + AllEffects(cfg, b)
  {
    if a == [] {
      assert a + b == b;
    } else {
      var head := MoveEffects(cfg, a[0]);
      assert (a + b)[0] == a[0];
      assert (a + b)[1..] == a[1..] + b;
      AllEffectsAppend(cfg, a[1..], b);
      calc {
        AllEffects(cfg, a + b);
        head + AllEffects(cfg, a[1..] + b);
        head + (AllEffects(cfg, a[1..]) + AllEffects(cfg, b));
        { SeqAssoc(head, AllEffects(cfg, a[1..]), AllEffects(cfg, b)); }
        (head + AllEffects(cfg, a[1..])) + AllEffects(cfg, b);
      }
    }
  }

  /** What one visit adds to the run. */
  lemma OneVisit(cfg: AppConfig, v: Visit)
    ensures Files([v]) == if Eligible(v) then [v.file] else []
    ensures AllEffects(cfg, Files([v])) == if Eligible(v) then MoveEffects(cfg, v.file) else []
  {
    assert [v][1..] == [];
    if Eligible(v) {
      assert Files([v]) == [v.file];
      assert [v.file][1..] == [];
    }
  }

  /** A dry run over any number of files creates, writes and deletes nothing. */
  lemma {:induction false} DryRunReadsOnly(cfg: AppConfig, files: seq<FileEntry>)
    requires cfg.dryRun
    ensures forall e :: e in AllEffects(cfg, files) ==> e.ReadExif? && !Mutates(e)
  {
    if files != [] {
      DryRunMoveReadsOnly(cfg, files[0]);
      DryRunReadsOnly(cfg, files[1..]);
    }
  }

  /** Over a run, a path is removed exactly when it is the source of a
      handled file whose os.Create and Sync succeeded, with deletion on and
      outside a dry run. */
  lemma {:induction false} RemovalsOverRun(cfg: AppConfig, files: seq<FileEntry>, p: string)
    ensures RemoveSource(p) in AllEffects(cfg, files) <==>
      cfg.delete && !cfg.dryRun &&
      exists i :: 0 <= i < |files| && files[i].path == p && files[i].io.createOk && files[i].io.syncOk
  {
    if files != [] {
      RemoveGate(cfg, files[0], p);
      RemovalsOverRun(cfg, files[1..], p);
      if exists i :: 0 <= i < |files| && files[i].path == p && files[i].io.createOk && files[i].io.syncOk {
        var i :| 0 <= i < |files| && files[i].path == p && files[i].io.createOk && files[i].io.syncOk;
        if i > 0 {
          assert files[1..][i - 1] == files[i];
        }
      }
      if exists i :: 0 <= i < |files[1..]| && files[1..][i].path == p && files[1..][i].io.createOk && files[1..][i].io.syncOk {
        var i :| 0 <= i < |files[1..]| && files[1..][i].path == p && files[1..][i].io.createOk && files[1..][i].io.syncOk;
        assert files[i + 1] == files[1..][i];
      }
    }
  }

  function Min(a: int, b: int): int
  {
    if a <= b then a else b
  }

  /** The process-wide state: the configuration, the moved_files counter,
      whether os.Exit has ended the run, and the calls made so far. */
  class Organizer {
    const config: AppConfig
    var movedFiles: nat
    var exited: bool
    var effects: seq<Effect>

    /** The run has exited exactly when a positive limit has been reached,
        and the counter never passes a positive limit. */
    ghost predicate Valid()
      reads this
    {
      && (exited <==> config.limit > 0 && movedFiles == config.limit)
      && (config.limit > 0 ==> movedFiles <= config.limit)
    }

    constructor (cfg: AppConfig)
      ensures Valid()
      ensures config == cfg && movedFiles == 0 && !exited && effects == []
    {
      config := cfg;
      movedFiles := 0;
      exited := false;
      effects := [];
    }

    /** moveFile: date the file, copy it unless this is a dry run, remove
        the source if asked and the copy is taken as done, count it, and
        exit when the limit is reached. The counter goes up by one on every
        call, dry run or failed copy alike. */
    method MoveFile(f: FileEntry)
      requires Valid() && !exited
      modifies this
      ensures Valid()
      ensures movedFiles == old(movedFiles) + 1
      ensures effects == old(effects) + MoveEffects(config, f)
    {
      // the calls this invocation makes, in order
      var calls: seq<Effect> := [];
      if IsJpegName(f.name) {
        calls := calls + [ReadExif(f.path)];
      }
      assert calls == ProbeEffects(f);
      var fileTime := FileTime(f.name, f.exif, f.modTime);
      var newPath := DestPath(config.dst, fileTime, f.name);
      var fileMoved := false;

      if !config.dryRun {
        calls := calls + [MakeDirs(DestDir(config.dst, fileTime))];
        // `failed` is `err != nil`; each step overwrites it
        var failed := !f.io.openOk;
        calls := calls + [OpenSource(f.path)];
        failed := !f.io.createOk;
        calls := calls + [CreateTarget(newPath)];
        // io.Copy fails when either handle could not be opened
        failed := !(f.io.openOk && f.io.createOk && f.io.copyOk);
        calls := calls + [CopyBytes(f.path, newPath)];
        // Sync on the nil handle of a failed os.Create returns an error
        failed := !(f.io.createOk && f.io.syncOk);
        calls := calls + [SyncTarget(newPath)];
        if !failed {
          fileMoved := true;
        }
      }
      assert calls == ProbeEffects(f) + CopyEffects(config, f);
      assert fileMoved == FileMoved(config, f.io);

      if config.delete {
        if fileMoved && !config.dryRun {
          calls := calls + [RemoveSource(f.path)];
        }
      }
      assert calls == MoveEffects(config, f);
      effects := effects + calls;

      movedFiles := movedFiles + 1;

      if config.limit > 0 && movedFiles == config.limit {
        exited := true;
      }
    }

    /** processFile: errors, hidden entries and directories are passed over. */
    method ProcessFile(v: Visit)
      requires Valid() && !exited
      modifies this
      ensures Valid()
      ensures Eligible(v) ==> movedFiles == old(movedFiles) + 1 && effects == old(effects) + MoveEffects(config, v.file)
      ensures !Eligible(v) ==> movedFiles == old(movedFiles) && effects == old(effects) && !exited
    {
      if v.WalkError? {
        return;
      }
      if IsHidden(v.Name()) {
        return;
      }
      if v.FileVisit? {
        MoveFile(v.file);
      }
    }

    /** doWork: the callback for each visit in walk order, until the walk
        ends or os.Exit stops it. With a positive limit L the run hands
        exactly min(N, L - counter) of its N eligible files to moveFile,
        the first ones in walk order; otherwise all N. */
    method DoWork(visits: seq<Visit>)
      requires Valid() && !exited
      modifies this
      ensures Valid()
      ensures var files := Files(visits);
        var n := if config.limit > 0 then Min(|files|, config.limit - old(movedFiles)) else |files|;
        0 <= n <= |files| &&
        movedFiles == old(movedFiles) + n &&
        effects == old(effects) + AllEffects(config, files[..n])
      ensures exited <==> config.limit > 0 && old(movedFiles) + |Files(visits)| >= config.limit
    {
      var i := 0;
      while i < |visits| && !exited
        invariant 0 <= i <= |visits|
        invariant Valid()
        invariant movedFiles == old(movedFiles) + |Files(visits[..i])|
        invariant effects == old(effects) + AllEffects(config, Files(visits[..i]))
      {
        ghost var done := AllEffects(config, Files(visits[..i]));
        ghost var step := AllEffects(config, Files([visits[i]]));
        FilesSnoc(visits, i);
        AllEffectsAppend(config, Files(visits[..i]), Files([visits[i]]));
        OneVisit(config, visits[i]);
        SeqAssoc(old(effects), done, step);
        ProcessFile(visits[i]);
        i := i + 1;
      }
      FilesSplit(visits, i);
      assert Files(visits)[..|Files(visits[..i])|] == Files(visits[..i]);
    }
  }

  /** How the process ends: the walk completed, the limit stopped it, or
      a configuration check called log.Fatal. */
  datatype ExitStatus = Completed | LimitReached | Aborted(message: string)

  /** main: validate the flags, then walk the tree rooted at the source
      directory. A failed check ends the run before any file is touched;
      otherwise exactly min(N, L) of the N eligible files are handled for a
      positive limit L, and all of them otherwise. */
  method RunCli(flags: AppConfig, fs: FileSystem, root: FsNode)
    returns (status: ExitStatus, effects: seq<Effect>, moved: nat)
    ensures status.Aborted? <==> !SrcIsDirectory(flags, fs)
    ensures status.Aborted? ==> status.message == InitConfig(flags, fs).message && effects == [] && moved == 0
    ensures !status.Aborted? ==>
      var files := Files(WalkOrder(root, flags.src));
      && moved == (if flags.limit > 0 then Min(|files|, flags.limit) else |files|)
      && effects == AllEffects(flags, files[..moved])
      && (status == LimitReached <==> flags.limit > 0 && |files| >= flags.limit)
  {
    var checked := InitConfig(flags, fs);
    if checked.Fatal? {
      return Aborted(checked.message), [], 0;
    }
    var organizer := new Organizer(flags);
    organizer.DoWork(WalkOrder(root, flags.src));
    status := if organizer.exited then LimitReached else Completed;
    effects := organizer.effects;
    moved := organizer.movedFiles;
  }
}
