/** What each state-changing operation of `FileUtility` does, as a function
    from the base path, the options and the filesystem before the call to
    the result and the filesystem after it, together with the properties the
    façade promises. The class `FileUtilities.FileUtility` is proved to
    follow these functions. */
module FileUtilitySpec {
  import opened Strings
  import opened Paths
  import opened Outcomes
  import opened FileSystem
  import opened Options

  /** The outcome of one operation: `true` or the exception it throws, and
      the filesystem it leaves. */
  datatype Step = Step(result: Result<bool>, fs: Fs)

  /** `mkdir(path, mode, recursive)` on the path exactly as given: an
      existing directory is success at once; otherwise the directory is
      created, and a failed creation (which leaves it missing) is an error. */
  function MkdirStep(fs: Fs, path: string, recursive: bool): (s: Step)
    ensures Disjoint(fs) ==> Disjoint(s.fs)
  {
    if IsDir(fs, path) then Step(Ok(true), fs)
    else match MakeDir(fs, path, recursive)
      case Some(made) => Step(Ok(true), made)
      case None => Step(Err(CreateDirFailed(path)), fs)
  }

  /** The destination step shared by `copy` and `move`: when the
      destination's folder is not a directory and either `createDest` or the
      `create_directories` option asks for it, `mkdir` that folder. */
  function PrepareDestination(opts: OptionMap, fs: Fs, destPath: string, createDest: bool): (s: Step)
    ensures Disjoint(fs) ==> Disjoint(s.fs)
    ensures s.result.Ok? ==> s.fs.files == fs.files && fs.dirs <= s.fs.dirs
    ensures s.result.Err? ==> s.fs == fs
  {
    var destDir := Dirname(destPath);
    if !IsDir(fs, destDir) && (createDest || Flag(opts, CreateDirectoriesKey))
    then MkdirStep(fs, destDir, true)
    else Step(Ok(true), fs)
  }

  /** `write(path, contents)`. */
  function WriteStep(base: string, opts: OptionMap, fs: Fs, path: string, contents: string): (s: Step)
    ensures Disjoint(fs) ==> Disjoint(s.fs)
  {
    var full := ResolvePath(base, path);
    var dir := Dirname(full);
    var createDir := !IsDir(fs, dir) && Flag(opts, CreateDirectoriesKey);
    if FileExists(fs, full) && !Flag(opts, OverwriteKey) then Step(Err(AlreadyExists(full)), fs)
    else if createDir && MakeDir(fs, dir, true).None? then Step(Err(CreateDirFailed(dir)), fs)
    else
      var prepared := if createDir then MakeDir(fs, dir, true).value else fs;
      match PutContents(prepared, full, contents)
      case None => Step(Err(WriteFailed(full)), prepared)
      case Some(written) => Step(Ok(true), written)
  }

  /** `delete(path)`. */
  function DeleteStep(base: string, fs: Fs, path: string): (s: Step)
    ensures Disjoint(fs) ==> Disjoint(s.fs)
  {
    var full := ResolvePath(base, path);
    if !FileExists(fs, full) then Step(Ok(true), fs)
    else match Unlink(fs, full)
      case None => Step(Err(DeleteFailed(full)), fs)
      case Some(removed) => Step(Ok(true), removed)
  }

  /** `copy(source, destination, createDest)`. */
  function CopyStep(base: string, opts: OptionMap, fs: Fs, source: string, destination: string,
                    createDest: bool): (s: Step)
    ensures Disjoint(fs) ==> Disjoint(s.fs)
  {
    var sp := ResolvePath(base, source);
    var dp := ResolvePath(base, destination);
    if !FileExists(fs, sp) then Step(Err(SourceNotFound(sp)), fs)
    else
      var prepared := PrepareDestination(opts, fs, dp, createDest);
      if prepared.result.Err? then prepared
      else match CopyFile(prepared.fs, sp, dp)
        case None => Step(Err(CopyFailed(sp, dp)), prepared.fs)
        case Some(copied) => Step(Ok(true), copied)
  }

  /** `move(source, destination, createDest)` when the rename primitive meets
      the given `crossDevice` condition: rename first, and when that fails
      `copy` and then `delete`, both of which resolve the paths they are
      handed once more. */
  function MoveStep(base: string, opts: OptionMap, fs: Fs, source: string, destination: string,
                    createDest: bool, crossDevice: bool): (s: Step)
    ensures Disjoint(fs) ==> Disjoint(s.fs)
  {
    var sp := ResolvePath(base, source);
    var dp := ResolvePath(base, destination);
    if !FileExists(fs, sp) then Step(Err(SourceNotFound(sp)), fs)
    else
      var prepared := PrepareDestination(opts, fs, dp, createDest);
      if prepared.result.Err? then prepared
      else RenameOrCopy(base, opts, prepared.fs, sp, dp, createDest, crossDevice)
  }

  /** The second half of `move`, once the source is known to exist and the
      destination's folder is prepared: the rename, or `copy` then `delete`. */
  function RenameOrCopy(base: string, opts: OptionMap, fs: Fs, sp: string, dp: string,
                        createDest: bool, crossDevice: bool): (s: Step)
    ensures Disjoint(fs) ==> Disjoint(s.fs)
  {
    match RenameFile(fs, sp, dp, crossDevice)
    case Some(renamed) => Step(Ok(true), renamed)
    case None =>
      var copied := CopyStep(base, opts, fs, sp, dp, createDest);
      if copied.result.Err? then copied else DeleteStep(base, copied.fs, sp)
  }

  /** The destination `rename` computes: the source's folder, one separator,
      and the last component of the new name. */
  function RenameTarget(sourcePath: string, newName: string): string {
    Dirname(sourcePath) + [Sep] + Basename(newName)
  }

  /** `rename(source, newName)`: `move` of the resolved source to the target. */
  function RenameStep(base: string, opts: OptionMap, fs: Fs, source: string, newName: string,
                      crossDevice: bool): (s: Step)
    ensures Disjoint(fs) ==> Disjoint(s.fs)
  {
    var sp := ResolvePath(base, source);
    MoveStep(base, opts, fs, sp, RenameTarget(sp, newName), false, crossDevice)
  }

  // ---------------------------------------------------------------------
  // write
  // ---------------------------------------------------------------------

  /** The existence check comes first: the write is refused with
      AlreadyExists, and nothing changes, exactly when the target exists and
      overwrite is off. */
  lemma WriteRefusedExactlyWhenExisting(base: string, opts: OptionMap, fs: Fs, path: string, contents: string)
    ensures var full := ResolvePath(base, path);
      var s := WriteStep(base, opts, fs, path, contents);
      && (s.result == Err(AlreadyExists(full)) <==> FileExists(fs, full) && !Flag(opts, OverwriteKey))
      && (s.result == Err(AlreadyExists(full)) ==> s.fs == fs)
  {
  }

  /** A successful write stores exactly the written contents under the
      resolved path, keeps every other file, and only adds directories. */
  lemma WriteThenRead(base: string, opts: OptionMap, fs: Fs, path: string, contents: string)
    requires WriteStep(base, opts, fs, path, contents).result.Ok?
    ensures var full := ResolvePath(base, path);
      var after := WriteStep(base, opts, fs, path, contents).fs;
      && GetContents(after, full) == Some(contents)
      && FileSize(after, full) == Some(|contents|)
      && after.files == fs.files[full := contents]
      && fs.dirs <= after.dirs
  {
  }

  /** With overwrite on, an existing file in an existing folder is replaced. */
  lemma WriteOverwrites(base: string, opts: OptionMap, fs: Fs, path: string, contents: string)
    requires Flag(opts, OverwriteKey)
    requires var full := ResolvePath(base, path); full in fs.files && full !in fs.dirs && IsDir(fs, Dirname(full))
    ensures var full := ResolvePath(base, path);
      WriteStep(base, opts, fs, path, contents) == Step(Ok(true), fs.(files := fs.files[full := contents]))
  {
  }

  /** A new file in a missing folder is written when `create_directories` is
      on and no ancestor is a file; the folder is a directory afterwards. */
  lemma WriteCreatesDirectories(base: string, opts: OptionMap, fs: Fs, path: string, contents: string)
    requires Flag(opts, CreateDirectoriesKey)
    requires var full := ResolvePath(base, path); var dir := Dirname(full);
      !FileExists(fs, full) && !FileExists(fs, dir) && Ancestors(dir) !! fs.files.Keys
    ensures var full := ResolvePath(base, path);
      var s := WriteStep(base, opts, fs, path, contents);
      s.result == Ok(true) && IsDir(s.fs, Dirname(full)) && s.fs.files == fs.files[full := contents]
  {
    var full := ResolvePath(base, path);
    var dir := Dirname(full);
    var made := MakeDir(fs, dir, true).value;
    assert full !in Ancestors(dir) && full != dir;
    assert full !in made.dirs;
  }

  /** With `create_directories` off, a missing folder makes the write fail
      with WriteFailed and leaves the filesystem as it was. */
  lemma WriteWithoutCreateDirectoriesFails(base: string, opts: OptionMap, fs: Fs, path: string, contents: string)
    requires !Flag(opts, CreateDirectoriesKey)
    requires var full := ResolvePath(base, path);
      !IsDir(fs, Dirname(full)) && (!FileExists(fs, full) || Flag(opts, OverwriteKey))
    ensures WriteStep(base, opts, fs, path, contents) == Step(Err(WriteFailed(ResolvePath(base, path))), fs)
  {
  }

  // ---------------------------------------------------------------------
  // delete
  // ---------------------------------------------------------------------

  /** Deleting an absent path succeeds and changes nothing. */
  lemma DeleteAbsentIsNoOp(base: string, fs: Fs, path: string)
    requires !FileExists(fs, ResolvePath(base, path))
    ensures DeleteStep(base, fs, path) == Step(Ok(true), fs)
  {
  }

  /** After a successful delete the path no longer exists, and only that
      file is gone. */
  lemma DeleteRemoves(base: string, fs: Fs, path: string)
    requires Disjoint(fs)
    requires DeleteStep(base, fs, path).result.Ok?
    ensures var full := ResolvePath(base, path);
      var after := DeleteStep(base, fs, path).fs;
      && !FileExists(after, full)
      && after.files == fs.files - {full}
      && after.dirs == fs.dirs
  {
  }

  /** Deleting twice is the same as deleting once: same result, same state. */
  lemma DeleteTwiceIsOnce(base: string, fs: Fs, path: string)
    requires Disjoint(fs)
    ensures var once := DeleteStep(base, fs, path);
      DeleteStep(base, once.fs, path) == once
  {
  }

  // ---------------------------------------------------------------------
  // copy
  // ---------------------------------------------------------------------

  /** A missing source is reported before anything else is tried. */
  lemma CopyMissingSource(base: string, opts: OptionMap, fs: Fs, source: string, destination: string,
                          createDest: bool)
    requires !FileExists(fs, ResolvePath(base, source))
    ensures CopyStep(base, opts, fs, source, destination, createDest)
         == Step(Err(SourceNotFound(ResolvePath(base, source))), fs)
  {
  }

  /** A successful copy puts the source's contents at the destination and
      keeps the source and every other file as they were. */
  lemma CopyKeepsSource(base: string, opts: OptionMap, fs: Fs, source: string, destination: string,
                        createDest: bool)
    requires CopyStep(base, opts, fs, source, destination, createDest).result.Ok?
    ensures var sp := ResolvePath(base, source);
      var dp := ResolvePath(base, destination);
      var after := CopyStep(base, opts, fs, source, destination, createDest).fs;
      && sp in fs.files && sp != dp
      && after.files == fs.files[dp := fs.files[sp]]
      && GetContents(after, sp) == GetContents(fs, sp)
      && fs.dirs <= after.dirs
  {
  }

  // ---------------------------------------------------------------------
  // move and rename
  // ---------------------------------------------------------------------

  /** A missing source is reported before anything else is tried. */
  lemma MoveMissingSource(base: string, opts: OptionMap, fs: Fs, source: string, destination: string,
                          createDest: bool, crossDevice: bool)
    requires !FileExists(fs, ResolvePath(base, source))
    ensures MoveStep(base, opts, fs, source, destination, createDest, crossDevice)
         == Step(Err(SourceNotFound(ResolvePath(base, source))), fs)
  {
  }

  /** When both paths resolve to absolute ones, it makes no difference
      whether the rename succeeds or the copy-and-delete fallback runs: the
      result and the filesystem are the same. */
  lemma {:induction false} MoveBranchesAgree(base: string, opts: OptionMap, fs: Fs, source: string,
                                             destination: string, createDest: bool)
    requires IsAbsolutePath(ResolvePath(base, source)) && IsAbsolutePath(ResolvePath(base, destination))
    ensures MoveStep(base, opts, fs, source, destination, createDest, true)
         == MoveStep(base, opts, fs, source, destination, createDest, false)
  {
    var sp := ResolvePath(base, source);
    var dp := ResolvePath(base, destination);
    if FileExists(fs, sp) {
      var prepared := PrepareDestination(opts, fs, dp, createDest);
      if prepared.result.Ok? && RenameFile(prepared.fs, sp, dp, true).None? {
        assert ResolvePath(base, sp) == sp && ResolvePath(base, dp) == dp;
        var p2 := PrepareDestination(opts, prepared.fs, dp, createDest);
        assert p2 == Step(Ok(true), prepared.fs);
        if sp in prepared.fs.files && sp != dp {
          RenameSucceedsIffCopyDoes(prepared.fs, sp, dp);
          if CopyFile(prepared.fs, sp, dp).Some? {
            RenameIsCopyThenUnlink(prepared.fs, sp, dp);
          }
        }
      }
    }
  }

  /** A successful move of a file onto another name, whichever branch ran,
      leaves the former contents at the destination, the source gone, and
      every other file as it was. */
  lemma MoveRelocates(base: string, opts: OptionMap, fs: Fs, source: string, destination: string,
                      createDest: bool, crossDevice: bool)
    requires Disjoint(fs)
    requires IsAbsolutePath(ResolvePath(base, source)) && IsAbsolutePath(ResolvePath(base, destination))
    requires ResolvePath(base, source) != ResolvePath(base, destination)
    requires MoveStep(base, opts, fs, source, destination, createDest, crossDevice).result.Ok?
    ensures var sp := ResolvePath(base, source);
      var dp := ResolvePath(base, destination);
      var after := MoveStep(base, opts, fs, source, destination, createDest, crossDevice).fs;
      && sp in fs.files
      && after.files == (fs.files - {sp})[dp := fs.files[sp]]
      && !FileExists(after, sp)
      && GetContents(after, dp) == GetContents(fs, sp)
  {
    MoveBranchesAgree(base, opts, fs, source, destination, createDest);
  }

  /** A path resolved under an absolute base keeps its folder absolute. */
  lemma TargetStaysAbsolute(sourcePath: string, newName: string)
    requires IsAbsolutePath(sourcePath)
    ensures IsAbsolutePath(RenameTarget(sourcePath, newName))
  {
    var d := Dirname(sourcePath);
    if |d| == 1 {
      assert LastSep(sourcePath) == 1;
    }
  }

  /** `rename` moves the resolved source to the file of the new name's last
      component in the source's own folder; once the source resolves to an
      absolute path this is exactly `move(source, target)`. */
  lemma {:induction false} RenameIsMoveWithinFolder(base: string, opts: OptionMap, fs: Fs, source: string,
                                                    newName: string, crossDevice: bool)
    requires IsAbsolutePath(ResolvePath(base, source))
    ensures var sp := ResolvePath(base, source);
      var target := RenameTarget(sp, newName);
      && Dirname(target) == Dirname(sp)
      && Basename(target) == Basename(newName)
      && RenameStep(base, opts, fs, source, newName, crossDevice)
         == MoveStep(base, opts, fs, source, target, false, crossDevice)
  {
    var sp := ResolvePath(base, source);
    var target := RenameTarget(sp, newName);
    JoinSplitsBack(Dirname(sp), Basename(newName));
    TargetStaysAbsolute(sp, newName);
    assert ResolvePath(base, sp) == sp;
    assert ResolvePath(base, target) == target;
  }

  /** Under a relative base, `rename` hands `move` a path that is already
      resolved, and `move` resolves it again: the source is looked for under
      the base twice, so unless a file happens to exist at that doubled path
      the call fails with SourceNotFound and changes nothing, whether or not
      the file the caller named (resolved once) is there. */
  lemma RenameUnderRelativeBase(base: string, opts: OptionMap, fs: Fs, source: string,
                                newName: string, crossDevice: bool)
    requires base != [] && !IsAbsolutePath(base) && base[|base| - 1] != Sep
    requires !IsAbsolutePath(source)
    requires !FileExists(fs, base + [Sep] + base + [Sep] + source)
    ensures RenameStep(base, opts, fs, source, newName, crossDevice)
         == Step(Err(SourceNotFound(base + [Sep] + base + [Sep] + source)), fs)
  {
    ResolveTwiceUnderRelativeBase(base, source);
  }

  // ---------------------------------------------------------------------
  // mkdir
  // ---------------------------------------------------------------------

  /** An existing directory is success at once and changes nothing; after a
      successful call the path is a directory; and a second call returns what
      the first did and changes nothing more. */
  lemma MkdirIdempotent(fs: Fs, path: string, recursive: bool)
    ensures IsDir(fs, path) ==> MkdirStep(fs, path, recursive) == Step(Ok(true), fs)
    ensures MkdirStep(fs, path, recursive).result.Ok? ==> IsDir(MkdirStep(fs, path, recursive).fs, path)
    ensures var once := MkdirStep(fs, path, recursive);
      MkdirStep(once.fs, path, recursive) == once
  {
  }
}
