# media_organizer, modelled in Dafny

media_organizer is a command-line tool. It walks a source directory and
copies each file into `dst/YYYY-MM-DD/<name>`. For `.jpg`/`.jpeg` files the
date comes from the EXIF capture time, and for every other file from the
modification time. The tool can also delete the original, and it stops
after a configurable number of files. This project models the decision
procedure inside `main.go` and proves its properties:

- `DatePath` (`date_path.dfy`): the date bucket (Go layout `"2006-01-02"`),
  `filepath.Ext`, ASCII lower-casing, the JPEG test of `getFileTime`, the
  capture-time/modification-time choice of `getJpegTime`, and the
  destination path `dst/YYYY-MM-DD/name`.
- `Config` (`config.dfy`): `AppConfig`, the flag defaults, and
  `checkSrc`/`checkDst`/`checkDirExists` as written. `os.Stat` is modelled as
  a map from path to `Regular | Directory`.
- `Walker` (`walker.dfy`): `filepath.Walk` as a preorder over a tree whose
  children come in lexical order, the visits the callback receives, and the
  entry filter of `processFile`.
- `MediaOrganizer` (`organizer.dfy`): the process state (`config`,
  `moved_files`, whether `os.Exit` ended the run) as the class `Organizer`.
  Its methods `MoveFile`, `ProcessFile` and `DoWork` follow the Go functions
  step by step. `RunCli` stands for `main`. Every file-system call is
  recorded as an `Effect`. Each call's success is an input, given per file
  in `IoOutcomes`, and the EXIF result is an `ExifProbe`.

Where the code does something other than its messages, flag help or names suggest, the model follows the code:

- **Delete after a failed copy.** `err` is reassigned by every step, so only
  the `Sync` result sets `file_moved`. A failed `os.Open` or `io.Copy`
  followed by a successful `Sync` still removes the source. `Sync` on the
  nil handle left by a failed `os.Create` returns an error, so a failed
  create does block removal (`RemoveGate`, `EarlierErrorsOverwritten`).
- **dst validation.** `checkDst` tests `config.Src` for emptiness, and
  `checkDirExists` stats `config.Src` whatever it is handed. Validation
  therefore passes exactly when `src` is a non-empty path to a directory;
  `dst` is never examined (`InitConfig`, `DstNeverValidated`).
- **The counter.** `moved_files` counts every call of `moveFile`, including
  dry runs and failed copies, not only successful moves.
- **Dry runs.** A dry run creates, writes and deletes nothing. It does open
  each JPEG read-only to look for EXIF data (`DryRunMoveReadsOnly`).
- **Empty dst.** `filepath.Join` drops an empty `dst`, so the copies then go
  to `YYYY-MM-DD/name` relative to the working directory.

## Model

The rows below are mostly lemmas about definitions that model the Go code directly:

- `DatePath.DateDir`: `file_time.Format("2006-01-02")` (main.go:58).
- `DatePath.DestDir` and `DatePath.DestPath`: `filepath.Dir(new_path)` and `new_path` (main.go:58, 65).
- `DatePath.Ext`, `DatePath.Lower` and `DatePath.IsJpegName`: the extension switch of `getFileTime` (main.go:110-113).
- `DatePath.FileTime`: `getFileTime` (main.go:109-116).
- `Config.Defaults`: the flag defaults (main.go:140-144).
- `Walker.Eligible` and `Walker.Files`: the filter of `processFile` (main.go:39-50).
- `Walker.WalkOrder`: `filepath.Walk` (main.go:32).
- `MediaOrganizer.MoveEffects`: the calls of one `moveFile` (main.go:56-93).
- `MediaOrganizer.AllEffects`: those of a sequence of calls.

The step-by-step `Organizer.MoveFile` is proved to make exactly the calls `MoveEffects` lists.

| member | source | states |
|---|---|---|
| `DatePath.Digits` | main.go:58 | a numeric date field is written with at least the requested number of digits, every character a decimal digit |
| `DatePath.DigitsRoundTrip` | main.go:58 | zero padding loses nothing: reading a padded field back gives its value |
| `DatePath.DigitsWidth` | main.go:58 | a value below 10^w takes exactly w digits |
| `DatePath.DateDirShape` | main.go:58 | for years 0..9999 the date directory is exactly ten characters `YYYY-MM-DD`: digits with '-' at positions 4 and 7 |
| `DatePath.DateDirRoundTrip` | main.go:58 | the date directory name parses back to the date it was made from |
| `DatePath.DateDirInjective` | main.go:58 | distinct dates (years 0..9999) get distinct directories |
| `DatePath.ExtSpec` | main.go:110 | the extension is the suffix from the last '.' of the final element, with no other '.' or '/', and empty exactly when that element has no '.' |
| `DatePath.ExtAt` | main.go:110 | a '.' followed only by characters other than '.' and '/' starts the extension |
| `DatePath.JpegNameIff` | main.go:110-113 | the JPEG branch is taken exactly when the name ends in ".jpg" or ".jpeg", in any letter case |
| `DatePath.JpegTime` | main.go:118-135 | the capture time when open, decode and DateTime all succeed, otherwise the modification time |
| `DatePath.FileTimeChoice` | main.go:109-135 | the capture time dates a file exactly when its name ends in .jpg/.jpeg (any case) and a capture time was read; every other file gets its modification time |
| `DatePath.DestPathRoundTrip` | main.go:58 | the destination splits back into the effective date (years 0..9999) and exactly the original name |
| `DatePath.DestPathCollision` | main.go:58 | for years 0..9999, two files get the same destination path exactly when they share effective date and name |
| `Config.CheckDirExists` | main.go:186-197 | reports on config.Src whatever path it is given: a directory, a non-directory, or a failed stat |
| `Config.CheckSrc` | main.go:152-167 | passes exactly when src is non-empty and a directory; otherwise the matching one of its three fatal messages |
| `Config.CheckDst` | main.go:169-184 | passes exactly when src (not dst) is non-empty and a directory |
| `Config.InitConfig` | main.go:137-150 | validation passes exactly when src is a directory; a failure always carries one of the src messages |
| `Config.CheckDstIgnoresPath` | main.go:169-197 | checkDst gives the same verdict for every path it is handed |
| `Config.DstNeverValidated` | main.go:148-149 | an empty, missing or non-directory dst is accepted whenever src is a directory |
| `Config.DstMessagesUnreachable` | main.go:169-184 | none of the three dst messages can ever be produced |
| `Walker.FilesMembership` | main.go:38-53 | a visit reaches moveFile exactly when it is a non-error, non-directory entry whose name does not start with '.' |
| `Walker.WalkReachesVisibleFiles` | main.go:44-52 | every file in the tree whose own name is not hidden reaches moveFile, however many hidden directories lie above it, and nothing else does |
| `MediaOrganizer.DryRunMoveReadsOnly` | main.go:62-64 | in a dry run moveFile makes no call that creates, writes or deletes; at most the read-only EXIF open of a JPEG |
| `MediaOrganizer.RemoveGate` | main.go:78-92 | the source, and only it, is removed exactly when delete is on, dry run is off, and os.Create and Sync succeeded |
| `MediaOrganizer.EarlierErrorsOverwritten` | main.go:67-79 | whether os.Open, io.Copy or os.Remove fail changes nothing moveFile does |
| `MediaOrganizer.CopyGoesToTarget` | main.go:58-78 | outside a dry run `dst/YYYY-MM-DD` is created, and the copy is created, filled by io.Copy from the source and synced at `dst/YYYY-MM-DD/name`; no directory, create, copy or sync goes to any other path |
| `MediaOrganizer.DefaultsTouchNothing` | main.go:140-144 | with the default flags (dry run on, delete off, limit 100) exactly min(N, 100) of the N eligible files reach moveFile, never more than 100, and nothing is created, written or deleted |
| `MediaOrganizer.OneVisit` | main.go:38-53 | one callback adds the calls of one moveFile for an eligible visit and nothing otherwise |
| `MediaOrganizer.DryRunReadsOnly` | main.go:62-93 | a whole dry run makes no call that creates, writes or deletes |
| `MediaOrganizer.RemovalsOverRun` | main.go:86-92 | over a run, a path is removed exactly when it is the source of a handled file whose create and sync succeeded, with delete on and dry run off |
| `MediaOrganizer.Organizer.constructor` | main.go:23-24 | the run starts with the given configuration, a zero counter and no calls made |
| `MediaOrganizer.Organizer.MoveFile` | main.go:55-101 | makes exactly the calls of one moveFile, adds one to the counter whatever happened, and exits when a positive limit is reached |
| `MediaOrganizer.Organizer.ProcessFile` | main.go:38-53 | errors, hidden entries and directories change nothing; every other visit is one moveFile |
| `MediaOrganizer.Organizer.DoWork` | main.go:31-36 | with a positive limit L the first min(N, L - counter) of the N eligible files are handled, in walk order, otherwise all N; the run exits exactly when the limit is reached |
| `MediaOrganizer.RunCli` | main.go:26-29 | failed validation ends the run before any call; otherwise exactly min(N, L) files are handled for a positive limit L (all N otherwise), with "limit reached" exactly when N >= L |

## Left out

- Flag parsing: the parsed `AppConfig` is an input. Only the defaults are modelled (`Config.Defaults`, with their consequence in `DefaultsTouchNothing`).
- Logging: every `log.Print` line, including the "Deleting" line that a dry run prints when delete is on.
- EXIF decoding by `github.com/rwcarlsen/goexif`: a foreign library. Its outcome is the input `ExifProbe`.
- `time.Time` and time zones: a date is the (year, month, day) the time shows in its own location. Month and day ranges are the only calendar facts used.
- `DatePath.Lower` lower-cases ASCII letters only; Go's `strings.ToLower` also maps other Unicode letters.
- `DatePath.Join`: the cleaning `filepath.Join` does (`..`, repeated or trailing separators) is not modelled. `dst` is taken as written, and only an empty `dst` is dropped.
- File contents, the bytes copied and the state of the disk. The model records the calls made, and each call's success is an input in `IoOutcomes`, so it cannot say that a removed source had a complete copy.
- The `MkdirAll` result, which the code discards, is not an input.
- `filepath.Walk` internals: it is a preorder over a given tree whose children are already in lexical order. A failed `Lstat` reaches the callback as a `WalkError` visit, which `processFile` skips. A walk error therefore never reaches `log.Fatal` in `doWork`, and that path is not modelled. Symbolic links are non-directory entries.
- File handles: the unclosed handle in `getJpegTime`, the deferred `Close` calls, and `os.Exit` skipping them.
- `os.Exit` and `log.Fatal` end the process. Here they become the `exited` flag and the `Aborted` status.
- `moved_files` is a Go `int` and its overflow is not modelled. The counter cannot pass a positive limit anyway.
