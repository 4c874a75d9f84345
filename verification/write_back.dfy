/**
  Writing a batch back (`OverwriteOriginalFilesAsync` and
  `SaveOptimizedFilesAsync` in SolutionOptimizerService.cs), on the file
  system value of module FileSystem.

  Overwrite: after a "y", each optimised file is first copied into a fresh
  backup directory next to the solution and only then overwritten; a failure
  of either step is caught for that file alone. Save: each optimised file's
  code goes to `optimized_<name>` in an output directory; nothing catches a
  failing write, so it ends the whole save.
*/
module WriteBack {
  import opened Wrappers
  import opened Text
  import opened Paths
  import opened Models
  import opened FileSystem
  import opened Aggregation

  /** `answer?.ToLower() == "y"`. */
  predicate Confirmed(answer: Option<string>) {
    answer.Some? && ToLower(answer.value) == "y"
  }

  /** Exactly "y" and "Y" confirm; no answer (end of input) does not. */
  lemma ConfirmedAnswers(answer: Option<string>)
    ensures Confirmed(answer) <==> answer == Some("y") || answer == Some("Y")
  {
    if answer.Some? && |answer.value| == 1 {
      var c := answer.value[0];
      assert answer.value == [c];
      assert ToLower(answer.value) == [LowerChar(c)];
    }
  }

  /** `Path.Combine(Path.GetDirectoryName(solution) ?? ".", "backup_" + stamp)`. */
  function BackupDirectory(solutionPath: string, stamp: string): string {
    Combine(DirectoryName(solutionPath).GetOr("."), "backup_" + stamp)
  }

  /** Where the backup of `path` goes: its file name under the backup
      directory. */
  function BackupPath(backupDir: string, path: string): string {
    Combine(backupDir, FileName(path))
  }

  /** What happened to one file, as the console reports it. */
  datatype FileOutcome =
    | Overwritten(path: string)
    | CopyFailed(path: string, error: IoError)
    | WriteFailed(path: string, error: IoError)

  /** One round of the overwrite loop: back up, then overwrite. A failed copy
      leaves everything as it was; a failed write leaves the backup. */
  function OverwriteStep(fs: FileSystem, backupDir: string, f: FileResult): (FileSystem, FileOutcome) {
    match Copy(fs, f.filePath, BackupPath(backupDir, f.filePath))
    case Thrown(e) => (fs, CopyFailed(f.filePath, e))
    case Done(copied) =>
      match WriteAllText(copied, f.filePath, f.optimizedCode)
      case Thrown(e) => (copied, WriteFailed(f.filePath, e))
      case Done(written) => (written, Overwritten(f.filePath))
  }

  /** The overwrite loop over `files`, in order. */
  function OverwriteEach(fs: FileSystem, backupDir: string, files: seq<FileResult>): (r: (FileSystem, seq<FileOutcome>))
    ensures |r.1| == |files|
  {
    if files == [] then (fs, [])
    else
      var before := OverwriteEach(fs, backupDir, files[..|files| - 1]);
      var step := OverwriteStep(before.0, backupDir, files[|files| - 1]);
      (step.0, before.1 + [step.1])
  }

  /** Specification of `OverwriteOriginalFilesAsync`. */
  function OverwriteRun(result: SolutionResult, confirm: Option<string>, stamp: string, fs: FileSystem)
    : (FileSystem, seq<FileOutcome>)
  {
    if !Confirmed(confirm) then (fs, [])
    else
      var backupDir := BackupDirectory(result.solutionPath, stamp);
      OverwriteEach(CreateDirectory(fs, backupDir), backupDir, Optimized(result.fileResults))
  }

  /** `OverwriteOriginalFilesAsync`. */
  method OverwriteOriginalFiles(result: SolutionResult, confirm: Option<string>, stamp: string, fs: FileSystem)
    returns (r: FileSystem, outcomes: seq<FileOutcome>)
    ensures (r, outcomes) == OverwriteRun(result, confirm, stamp, fs)
  {
    if !Confirmed(confirm) {
      return fs, [];
    }
    var backupDir := BackupDirectory(result.solutionPath, stamp);
    var created := CreateDirectory(fs, backupDir);
    r, outcomes := OverwriteFiles(created, backupDir, Optimized(result.fileResults));
  }

  /** One round of the loop: copy the original to its backup name, then
      write the optimised code over it. */
  method OverwriteFile(fs: FileSystem, backupDir: string, fileResult: FileResult)
    returns (r: FileSystem, outcome: FileOutcome)
    ensures (r, outcome) == OverwriteStep(fs, backupDir, fileResult)
  {
    r := fs;
    var backupFileName := BackupPath(backupDir, fileResult.filePath);
    var copied := Copy(r, fileResult.filePath, backupFileName);
    if copied.Thrown? {
      outcome := CopyFailed(fileResult.filePath, copied.error);
    } else {
      r := copied.fs;
      var written := WriteAllText(r, fileResult.filePath, fileResult.optimizedCode);
      if written.Thrown? {
        outcome := WriteFailed(fileResult.filePath, written.error);
      } else {
        r := written.fs;
        outcome := Overwritten(fileResult.filePath);
      }
    }
  }

  /** The loop of `OverwriteOriginalFilesAsync`, each round in its own
      try/catch. */
  method OverwriteFiles(fs: FileSystem, backupDir: string, files: seq<FileResult>)
    returns (r: FileSystem, outcomes: seq<FileOutcome>)
    ensures (r, outcomes) == OverwriteEach(fs, backupDir, files)
  {
    r, outcomes := fs, [];
    var i := 0;
    while i < |files|
      invariant 0 <= i <= |files|
      invariant (r, outcomes) == OverwriteEach(fs, backupDir, files[..i])
    {
      assert files[..i + 1][..i] == files[..i];
      var next, outcome := OverwriteFile(r, backupDir, files[i]);
      r, outcomes := next, outcomes + [outcome];
      i := i + 1;
    }
    assert files[..i] == files;
  }

  /** The backup protocol, relative to the file system `fs0` before the
      loop: no file disappears, directories stay as they are, every file
      whose content changed has a non-empty name and a backup holding its
      original content, and only the given paths changed. */
  ghost predicate BackedUp(fs0: FileSystem, fs: FileSystem, backupDir: string, paths: set<string>) {
    && fs.dirs == fs0.dirs
    && (forall p :: p in fs0.files ==> p in fs.files)
    && (forall p :: p in fs0.files && fs.files[p] != fs0.files[p] ==>
          && p in paths
          && FileName(p) != ""
          && BackupPath(backupDir, p) in fs.files
          && fs.files[BackupPath(backupDir, p)] == fs0.files[p])
  }

  /** One round keeps the protocol: a file is overwritten only right after
      its original content was copied to a backup name that was free. */
  lemma OverwriteStepBacksUp(fs0: FileSystem, fs: FileSystem, backupDir: string, paths: set<string>, f: FileResult)
    requires backupDir in fs0.dirs
    requires BackedUp(fs0, fs, backupDir, paths)
    ensures BackedUp(fs0, OverwriteStep(fs, backupDir, f).0, backupDir, paths + {f.filePath})
  {
    var w := f.filePath;
    var b := BackupPath(backupDir, w);
    var copied := Copy(fs, w, b);
    if copied.Done? {
      assert FileName(w) != "" by {
        assert FileName(w) == "" ==> b == backupDir;
      }
      assert b != w;
      var fs1 := copied.fs;
      var next := OverwriteStep(fs, backupDir, f).0;
      assert next.files == fs1.files || next.files == fs1.files[w := f.optimizedCode];
      forall p | p in fs0.files && next.files[p] != fs0.files[p]
        ensures && p in paths + {w} && FileName(p) != ""
                && BackupPath(backupDir, p) in next.files
                && next.files[BackupPath(backupDir, p)] == fs0.files[p]
      {
        assert p != b;
        if p != w {
          assert fs.files[p] != fs0.files[p];
          FileNameOfCombine(backupDir, FileName(p));
          assert FileName(BackupPath(backupDir, p)) == FileName(p);
          assert BackupPath(backupDir, p) != w;
        } else {
          assert fs.files[w] == fs0.files[w];
        }
      }
    }
  }

  /** The whole loop keeps the protocol. */
  lemma {:induction false} OverwriteEachBacksUp(fs0: FileSystem, backupDir: string, files: seq<FileResult>)
    requires backupDir in fs0.dirs
    ensures BackedUp(fs0, OverwriteEach(fs0, backupDir, files).0, backupDir, set f | f in files :: f.filePath)
    decreases |files|
  {
    if files != [] {
      var prefix := files[..|files| - 1];
      OverwriteEachBacksUp(fs0, backupDir, prefix);
      var paths := set f | f in prefix :: f.filePath;
      OverwriteStepBacksUp(fs0, OverwriteEach(fs0, backupDir, prefix).0, backupDir, paths, files[|files| - 1]);
      assert files == prefix + [files[|files| - 1]];
      assert (set f | f in files :: f.filePath) == paths + {files[|files| - 1].filePath};
    }
  }

  /** `OverwriteOriginalFilesAsync` without a "y" changes nothing. With one,
      no file disappears; a file whose content changed is the path of an
      optimised entry, and a backup under the backup directory holds its
      original content; the outcomes list one line per optimised entry. */
  lemma OverwriteIsBackedUp(result: SolutionResult, confirm: Option<string>, stamp: string, fs: FileSystem)
    ensures !Confirmed(confirm) ==> OverwriteRun(result, confirm, stamp, fs) == (fs, [])
    ensures Confirmed(confirm) ==>
      var (r, outcomes) := OverwriteRun(result, confirm, stamp, fs);
      var backupDir := BackupDirectory(result.solutionPath, stamp);
      && |outcomes| == |Optimized(result.fileResults)|
      && r.dirs == fs.dirs + {backupDir}
      && (forall p :: p in fs.files ==> p in r.files)
      && (forall p :: p in fs.files && r.files[p] != fs.files[p] ==>
            && (exists f :: f in result.fileResults && f.hasOptimizations && f.filePath == p)
            && BackupPath(backupDir, p) in r.files
            && r.files[BackupPath(backupDir, p)] == fs.files[p])
  {
    if Confirmed(confirm) {
      var backupDir := BackupDirectory(result.solutionPath, stamp);
      var start := CreateDirectory(fs, backupDir);
      var files := Optimized(result.fileResults);
      OverwriteEachBacksUp(start, backupDir, files);
      OptimizedMembers(result.fileResults);
    }
  }

  /** A file that fails to back up is not written: the round changes
      nothing. A round whose copy succeeds leaves the backup in place even
      when the write then fails. */
  lemma OverwriteStepIsolated(fs: FileSystem, backupDir: string, f: FileResult)
    ensures var (next, outcome) := OverwriteStep(fs, backupDir, f);
      && outcome.path == f.filePath
      && (outcome.CopyFailed? ==> next == fs)
      && (outcome.WriteFailed? ==> next.files == fs.files[BackupPath(backupDir, f.filePath) := fs.files[f.filePath]])
      && (outcome.Overwritten? ==>
            next.files == fs.files[BackupPath(backupDir, f.filePath) := fs.files[f.filePath]][f.filePath := f.optimizedCode])
  {
  }

  /** `Path.Combine(outputDirectory, "optimized_" + Path.GetFileName(path))`. */
  function SavePath(outputDir: string, f: FileResult): string {
    Combine(outputDir, "optimized_" + FileName(f.filePath))
  }

  /** The save loop over `files`: the first failing write ends it. */
  function SaveEach(fs: FileSystem, outputDir: string, files: seq<FileResult>): (FileSystem, Outcome) {
    if files == [] then (fs, Pass)
    else
      var before := SaveEach(fs, outputDir, files[..|files| - 1]);
      if before.1.Fail? then before
      else
        var f := files[|files| - 1];
        match WriteAllText(before.0, SavePath(outputDir, f), f.optimizedCode)
        case Thrown(e) => (before.0, Fail(Message(e)))
        case Done(written) => (written, Pass)
  }

  /** Specification of `SaveOptimizedFilesAsync`. */
  function SaveRun(result: SolutionResult, outputDir: string, fs: FileSystem): (FileSystem, Outcome) {
    SaveEach(CreateDirectory(fs, outputDir), outputDir, Optimized(result.fileResults))
  }

  /** `SaveOptimizedFilesAsync`. */
  method SaveOptimizedFiles(result: SolutionResult, outputDir: string, fs: FileSystem)
    returns (r: FileSystem, outcome: Outcome)
    ensures (r, outcome) == SaveRun(result, outputDir, fs)
  {
    var created := CreateDirectory(fs, outputDir);
    r, outcome := SaveFiles(created, outputDir, Optimized(result.fileResults));
  }

  /** The loop of `SaveOptimizedFilesAsync`: the exception of a failing
      write leaves the method, so the remaining files are not saved. */
  method SaveFiles(fs: FileSystem, outputDir: string, files: seq<FileResult>)
    returns (r: FileSystem, outcome: Outcome)
    ensures (r, outcome) == SaveEach(fs, outputDir, files)
  {
    r := fs;
    var i := 0;
    while i < |files|
      invariant 0 <= i <= |files|
      invariant SaveEach(fs, outputDir, files[..i]) == (r, Pass)
    {
      var fileResult := files[i];
      var outputFileName := SavePath(outputDir, fileResult);
      assert files[..i + 1][..i] == files[..i];
      var written := WriteAllText(r, outputFileName, fileResult.optimizedCode);
      if written.Thrown? {
        assert SaveEach(fs, outputDir, files[..i + 1]) == (r, Fail(Message(written.error)));
        SaveEachStopped(fs, outputDir, files, i + 1);
        assert files[..|files|] == files;
        return r, Fail(Message(written.error));
      }
      r := written.fs;
      i := i + 1;
    }
    assert files[..i] == files;
    return r, Pass;
  }

  /** Once a write has failed, later files change nothing. */
  lemma {:induction false} SaveEachStopped(fs: FileSystem, outputDir: string, files: seq<FileResult>, k: nat)
    requires k <= |files|
    requires SaveEach(fs, outputDir, files[..k]).1.Fail?
    ensures SaveEach(fs, outputDir, files) == SaveEach(fs, outputDir, files[..k])
    decreases |files| - k
  {
    if k < |files| {
      assert files[..k + 1][..k] == files[..k];
      SaveEachStopped(fs, outputDir, files, k + 1);
    } else {
      assert files[..k] == files;
    }
  }

  /** Saving writes only at save paths: every other file keeps its content,
      every new file is at a save path, and directories only gain the
      output directory. */
  lemma {:induction false} SaveEachOnlySavePaths(fs: FileSystem, outputDir: string, files: seq<FileResult>)
    ensures var r := SaveEach(fs, outputDir, files).0;
      && r.dirs == fs.dirs && r.readOnly == fs.readOnly
      && (forall p :: p in fs.files ==> p in r.files)
      && (forall p :: p in r.files && (p !in fs.files || r.files[p] != fs.files[p]) ==>
            exists f :: f in files && p == SavePath(outputDir, f))
    decreases |files|
  {
    if files != [] {
      var prefix := files[..|files| - 1];
      SaveEachOnlySavePaths(fs, outputDir, prefix);
      forall f | f in prefix ensures f in files { }
    }
  }

  /** The save passes exactly when no save path is a directory or refuses
      writes. */
  lemma {:induction false} SaveEachPasses(fs: FileSystem, outputDir: string, files: seq<FileResult>)
    ensures SaveEach(fs, outputDir, files).1.Pass? <==>
      forall f :: f in files ==> SavePath(outputDir, f) !in fs.dirs && SavePath(outputDir, f) !in fs.readOnly
    decreases |files|
  {
    if files != [] {
      var prefix := files[..|files| - 1];
      SaveEachPasses(fs, outputDir, prefix);
      SaveEachOnlySavePaths(fs, outputDir, prefix);
      assert files == prefix + [files[|files| - 1]];
    }
  }

  /** Without failures and with distinct save paths, every file's code is at
      its save path. */
  lemma {:induction false} SaveEachWritesAll(fs: FileSystem, outputDir: string, files: seq<FileResult>)
    requires SaveEach(fs, outputDir, files).1.Pass?
    requires forall i, j :: 0 <= i < j < |files| ==> SavePath(outputDir, files[i]) != SavePath(outputDir, files[j])
    ensures forall i :: 0 <= i < |files| ==>
      SavePath(outputDir, files[i]) in SaveEach(fs, outputDir, files).0.files &&
      SaveEach(fs, outputDir, files).0.files[SavePath(outputDir, files[i])] == files[i].optimizedCode
    decreases |files|
  {
    if files != [] {
      var n := |files| - 1;
      var prefix := files[..n];
      SaveEachWritesAll(fs, outputDir, prefix);
      var before := SaveEach(fs, outputDir, prefix).0;
      var after := SaveEach(fs, outputDir, files).0;
      assert after.files == before.files[SavePath(outputDir, files[n]) := files[n].optimizedCode];
      forall i | 0 <= i < n
        ensures SavePath(outputDir, files[i]) in after.files
        ensures after.files[SavePath(outputDir, files[i])] == files[i].optimizedCode
      {
        assert prefix[i] == files[i];
        assert SavePath(outputDir, files[i]) != SavePath(outputDir, files[n]);
      }
    }
  }

  /** `SaveOptimizedFilesAsync`: the output directory exists afterwards; only
      save paths of optimised entries change; the save passes exactly when
      every such path is writable, and then, with distinct save paths, each
      holds its entry's optimised code. */
  lemma SaveWritesOptimized(result: SolutionResult, outputDir: string, fs: FileSystem)
    ensures var (r, outcome) := SaveRun(result, outputDir, fs);
      && r.dirs == fs.dirs + {outputDir}
      && (forall p :: p in fs.files ==> p in r.files)
      && (forall p :: p in r.files && (p !in fs.files || r.files[p] != fs.files[p]) ==>
            exists f :: f in result.fileResults && f.hasOptimizations && p == SavePath(outputDir, f))
      && (outcome.Pass? <==> forall f :: f in result.fileResults && f.hasOptimizations ==>
            SavePath(outputDir, f) !in fs.dirs + {outputDir} && SavePath(outputDir, f) !in fs.readOnly)
    ensures var (r, outcome) := SaveRun(result, outputDir, fs);
      var saved := Optimized(result.fileResults);
      outcome.Pass? &&
      (forall i, j :: 0 <= i < j < |saved| ==> SavePath(outputDir, saved[i]) != SavePath(outputDir, saved[j])) ==>
      forall i :: 0 <= i < |saved| ==>
        SavePath(outputDir, saved[i]) in r.files && r.files[SavePath(outputDir, saved[i])] == saved[i].optimizedCode
  {
    var start := CreateDirectory(fs, outputDir);
    var files := Optimized(result.fileResults);
    OptimizedMembers(result.fileResults);
    SaveEachOnlySavePaths(start, outputDir, files);
    SaveEachPasses(start, outputDir, files);
    if SaveEach(start, outputDir, files).1.Pass? &&
      forall i, j :: 0 <= i < j < |files| ==> SavePath(outputDir, files[i]) != SavePath(outputDir, files[j])
    {
      SaveEachWritesAll(start, outputDir, files);
    }
  }
}
