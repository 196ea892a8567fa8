/** The run configuration and its validation as written (main.go:15-21,
    137-197). The file system is seen only through os.Stat, abstracted as a
    map from path to the kind of entry found there; a path absent from the
    map is one os.Stat cannot find. */
module Config {

  /** AppConfig: fixed once InitConfig has run. */
  datatype AppConfig = AppConfig(dryRun: bool, delete: bool, limit: int, src: string, dst: string)

  /** The flag defaults of InitConfig, given the two path flags. */
  function Defaults(src: string, dst: string): (c: AppConfig)
    ensures c.dryRun && !c.delete && c.limit == 100
    ensures c.src == src && c.dst == dst
  {
    AppConfig(true, false, 100, src, dst)
  }

  datatype PathKind = Regular | Directory

  /** What os.Stat reports for each path it can find. */
  type FileSystem = map<string, PathKind>

  /** The pair (bool, error) checkDirExists returns. */
  datatype DirCheck = DirCheck(isDir: bool, statFailed: bool)

  /** The outcome of a check: it passes, or log.Fatal ends the process
      with a message. */
  datatype Outcome = Pass | Fatal(message: string)

  /** The source directory is set and os.Stat finds a directory there. */
  predicate SrcIsDirectory(cfg: AppConfig, fs: FileSystem)
  {
    cfg.src != "" && cfg.src in fs && fs[cfg.src] == Directory
  }

  /** checkDirExists stats config.Src, whatever path it is handed. */
  function CheckDirExists(cfg: AppConfig, fs: FileSystem, path: string): (r: DirCheck)
    ensures r.isDir <==> cfg.src in fs && fs[cfg.src] == Directory
    ensures r.statFailed <==> cfg.src !in fs
    ensures !(r.isDir && r.statFailed)
  {
    if cfg.src in fs then
      if fs[cfg.src] == Directory then DirCheck(true, false) else DirCheck(false, false)
    else DirCheck(false, true)
  }

  /** checkSrc(path). */
  function CheckSrc(cfg: AppConfig, fs: FileSystem, path: string): (r: Outcome)
    ensures r == Pass <==> SrcIsDirectory(cfg, fs)
    ensures cfg.src == "" ==> r == Fatal("src is mandatory")
    ensures cfg.src != "" && cfg.src !in fs ==> r == Fatal("src dir does not exists")
    ensures cfg.src != "" && cfg.src in fs && fs[cfg.src] == Regular ==> r == Fatal("src is not directory")
  {
    if cfg.src == "" then Fatal("src is mandatory")
    else
      var res := CheckDirExists(cfg, fs, path);
      if !res.isDir then
        if !res.statFailed then Fatal("src is not directory") else Fatal("src dir does not exists")
      else Pass
  }

  /** checkDst(path): it tests config.Src for emptiness and, through
      checkDirExists, stats config.Src, so neither the path it is handed
      nor config.Dst is ever examined. */
  function CheckDst(cfg: AppConfig, fs: FileSystem, path: string): (r: Outcome)
    ensures r == Pass <==> SrcIsDirectory(cfg, fs)
    ensures cfg.src == "" ==> r == Fatal("dst is mandatory")
  {
    if cfg.src == "" then Fatal("dst is mandatory")
    else
      var res := CheckDirExists(cfg, fs, path);
      if !res.isDir then
        if !res.statFailed then Fatal("dst is not directory") else Fatal("dst dir does not exists")
      else Pass
  }

  /** The checks of InitConfig after the flags are parsed: checkSrc, then checkDst. */
  function InitConfig(cfg: AppConfig, fs: FileSystem): (r: Outcome)
    ensures r == Pass <==> SrcIsDirectory(cfg, fs)
    ensures r.Fatal? ==> r.message in {"src is mandatory", "src dir does not exists", "src is not directory"}
  {
    match CheckSrc(cfg, fs, cfg.src)
    case Fatal(m) => Fatal(m)
    case Pass => CheckDst(cfg, fs, cfg.dst)
  }

  /** checkDst gives the same verdict whatever path it is handed. */
  lemma CheckDstIgnoresPath(cfg: AppConfig, fs: FileSystem, p: string, q: string)
    ensures CheckDst(cfg, fs, p) == CheckDst(cfg, fs, q)
  {
  }

  /** The destination is accepted whatever it is: empty, missing or a
      regular file, as long as the source is a directory. */
  lemma DstNeverValidated(cfg: AppConfig, fs: FileSystem, dst: string)
    requires SrcIsDirectory(cfg, fs)
    ensures InitConfig(cfg.(dst := dst), fs) == Pass
    ensures InitConfig(cfg.(dst := ""), fs) == Pass
  {
  }

  /** None of the three messages about the destination can ever be printed. */
  lemma DstMessagesUnreachable(cfg: AppConfig, fs: FileSystem)
    ensures InitConfig(cfg, fs) != Fatal("dst is mandatory")
    ensures InitConfig(cfg, fs) != Fatal("dst is not directory")
    ensures InitConfig(cfg, fs) != Fatal("dst dir does not exists")
  {
    var r := InitConfig(cfg, fs);
    if r.Fatal? {
      assert r.message in {"src is mandatory", "src dir does not exists", "src is not directory"};
    }
  }
}
