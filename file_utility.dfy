/** The `FileUtility` façade: a base path fixed at construction, an option
    array the caller may change, and the filesystem it works on. Each
    operation resolves its paths, checks what the source checks in the order
    it checks it, and calls the modelled OS primitives; each state-changing
    method is proved to end as the matching function of `FileUtilitySpec`
    says. */
module FileUtilities {
  import opened Strings
  import opened Paths
  import opened Outcomes
  import opened FileSystem
  import opened Options
  import opened FileUtilitySpec

  class FileUtility {
    const basePath: string
    var options: OptionMap
    /** The filesystem the operations see and change. */
    var fs: Fs

    /** Both recognised options are always present (the constructor merges
        them in and `setOption` never removes a key), and the filesystem
        never holds a name as both a file and a directory. */
    ghost predicate Valid()
      reads this
    {
      CreateDirectoriesKey in options && OverwriteKey in options && Disjoint(fs)
    }

    /** `new FileUtility(base, supplied)`: an empty base, and also "0" (which
        PHP treats as false), is replaced by the working directory `cwd`; the
        supplied options are merged over the defaults. */
    constructor (base: string, supplied: OptionMap, cwd: string, disk: Fs)
      requires Disjoint(disk)
      ensures Valid()
      ensures basePath == if base == "" || base == "0" then cwd else base
      ensures options == MergeDefaults(supplied)
      ensures fs == disk
    {
      basePath := if base == "" || base == "0" then cwd else base;
      options := MergeDefaults(supplied);
      fs := disk;
    }

    /** `setOption(key, value)`: only that key changes. */
    method SetOption(key: string, value: Value)
      requires Valid()
      modifies this
      ensures Valid()
      ensures options == old(options)[key := value]
      ensures fs == old(fs)
    {
      options := options[key := value];
    }

    /** `getOption(key, default)`: the stored value, or the default when the
        key is missing or holds null. */
    function GetOption(key: string, default: Value): (v: Value)
      reads this
      ensures key in options && options[key] != Null ==> v == options[key]
      ensures key !in options || options[key] == Null ==> v == default
    {
      Lookup(options, key, default)
    }

    /** `exists(path)`: the resolved path is a file or a directory. */
    method Exists(path: string) returns (b: bool)
      ensures b <==> (ResolvePath(basePath, path) in fs.files || ResolvePath(basePath, path) in fs.dirs)
    {
      b := FileExists(fs, ResolvePath(basePath, path));
    }

    /** `size(path)`: NotFound for a missing path, the length of the contents
        of a file, and SizeFailed when the size cannot be had (a directory). */
    method Size(path: string) returns (r: Result<nat>)
      ensures var full := ResolvePath(basePath, path);
        && (!FileExists(fs, full) ==> r == Err(NotFound(full)))
        && (full in fs.files ==> r == Ok(|fs.files[full]|))
        && (full in fs.dirs && full !in fs.files ==> r == Err(SizeFailed(full)))
    {
      var full := ResolvePath(basePath, path);
      if !FileExists(fs, full) {
        return Err(NotFound(full));
      }
      var size := FileSize(fs, full);
      if size.None? {
        return Err(SizeFailed(full));
      }
      r := Ok(size.value);
    }

    /** `read(path)`: NotFound for a missing path, the contents of a file, and
        ReadFailed when there are none to read (a directory). */
    method Read(path: string) returns (r: Result<string>)
      ensures var full := ResolvePath(basePath, path);
        && (!FileExists(fs, full) ==> r == Err(NotFound(full)))
        && (full in fs.files ==> r == Ok(fs.files[full]))
        && (full in fs.dirs && full !in fs.files ==> r == Err(ReadFailed(full)))
    {
      var full := ResolvePath(basePath, path);
      if !FileExists(fs, full) {
        return Err(NotFound(full));
      }
      var contents := GetContents(fs, full);
      if contents.None? {
        return Err(ReadFailed(full));
      }
      r := Ok(contents.value);
    }

    /** `write(path, contents)`. */
    method Write(path: string, contents: string) returns (r: Result<bool>)
      requires Valid()
      modifies this
      ensures Valid() && options == old(options)
      ensures Step(r, fs) == WriteStep(basePath, options, old(fs), path, contents)
    {
      var full := ResolvePath(basePath, path);
      if FileExists(fs, full) && !Flag(options, OverwriteKey) {
        return Err(AlreadyExists(full));
      }
      var directory := Dirname(full);
      if !IsDir(fs, directory) && Flag(options, CreateDirectoriesKey) {
        var made := MakeDir(fs, directory, true);
        // a failed mkdir leaves the directory missing
        if made.None? {
          return Err(CreateDirFailed(directory));
        }
        fs := made.value;
      }
      var written := PutContents(fs, full, contents);
      if written.None? {
        return Err(WriteFailed(full));
      }
      fs := written.value;
      r := Ok(true);
    }

    /** `delete(path)`. */
    method Delete(path: string) returns (r: Result<bool>)
      requires Valid()
      modifies this
      ensures Valid() && options == old(options)
      ensures Step(r, fs) == DeleteStep(basePath, old(fs), path)
    {
      var full := ResolvePath(basePath, path);
      if !FileExists(fs, full) {
        return Ok(true);
      }
      var removed := Unlink(fs, full);
      if removed.None? {
        return Err(DeleteFailed(full));
      }
      fs := removed.value;
      r := Ok(true);
    }

    /** `mkdir(path, mode, recursive)`, on the path as given. */
    method Mkdir(path: string, recursive: bool) returns (r: Result<bool>)
      requires Valid()
      modifies this
      ensures Valid() && options == old(options)
      ensures Step(r, fs) == MkdirStep(old(fs), path, recursive)
    {
      if IsDir(fs, path) {
        return Ok(true);
      }
      var made := MakeDir(fs, path, recursive);
      if made.None? && !IsDir(fs, path) {
        return Err(CreateDirFailed(path));
      }
      if made.Some? {
        fs := made.value;
      }
      r := Ok(true);
    }

    /** `copy(source, destination, createDest)`. */
    method Copy(source: string, destination: string, createDest: bool) returns (r: Result<bool>)
      requires Valid()
      modifies this
      ensures Valid() && options == old(options)
      ensures Step(r, fs) == CopyStep(basePath, options, old(fs), source, destination, createDest)
    {
      var sourcePath := ResolvePath(basePath, source);
      var destPath := ResolvePath(basePath, destination);
      if !FileExists(fs, sourcePath) {
        return Err(SourceNotFound(sourcePath));
      }
      var destDir := Dirname(destPath);
      if !IsDir(fs, destDir) && (createDest || Flag(options, CreateDirectoriesKey)) {
        var made := Mkdir(destDir, true);
        if made.Err? {
          return made;
        }
      }
      var copied := CopyFile(fs, sourcePath, destPath);
      if copied.None? {
        return Err(CopyFailed(sourcePath, destPath));
      }
      fs := copied.value;
      r := Ok(true);
    }

    /** `move(source, destination, createDest)`. Whether the rename reports a
        cross-device failure is not up to the program; either way the method
        ends as `MoveStep` says for that case, and when both paths resolve to
        absolute ones the two cases end alike. */
    method Move(source: string, destination: string, createDest: bool) returns (r: Result<bool>)
      requires Valid()
      modifies this
      ensures Valid() && options == old(options)
      ensures Step(r, fs) == MoveStep(basePath, options, old(fs), source, destination, createDest, false)
           || Step(r, fs) == MoveStep(basePath, options, old(fs), source, destination, createDest, true)
      ensures IsAbsolutePath(ResolvePath(basePath, source)) && IsAbsolutePath(ResolvePath(basePath, destination))
              ==> Step(r, fs) == MoveStep(basePath, options, old(fs), source, destination, createDest, false)
    {
      var sourcePath := ResolvePath(basePath, source);
      var destPath := ResolvePath(basePath, destination);
      if !FileExists(fs, sourcePath) {
        return Err(SourceNotFound(sourcePath));
      }
      var destDir := Dirname(destPath);
      if !IsDir(fs, destDir) && (createDest || Flag(options, CreateDirectoriesKey)) {
        var made := Mkdir(destDir, true);
        if made.Err? {
          return made;
        }
      }
      assert PrepareDestination(options, old(fs), destPath, createDest) == Step(Ok(true), fs);
      var crossDevice: bool := *;
      ghost var expected := RenameOrCopy(basePath, options, fs, sourcePath, destPath, createDest, crossDevice);
      var renamed := RenameFile(fs, sourcePath, destPath, crossDevice);
      if renamed.Some? {
        fs := renamed.value;
        r := Ok(true);
      } else {
        r := Copy(sourcePath, destPath, createDest);
        if r.Ok? {
          r := Delete(sourcePath);
        }
      }
      assert Step(r, fs) == expected;
      assert Step(r, fs) == MoveStep(basePath, options, old(fs), source, destination, createDest, crossDevice);
      if IsAbsolutePath(sourcePath) && IsAbsolutePath(destPath) {
        MoveBranchesAgree(basePath, options, old(fs), source, destination, createDest);
      }
    }

    /** `rename(source, newName)`: `move` to the new name's last component in
        the source's folder. When the source resolves to an absolute path,
        the rename ends as the outcome without a machine-level failure. */
    method Rename(source: string, newName: string) returns (r: Result<bool>)
      requires Valid()
      modifies this
      ensures Valid() && options == old(options)
      ensures Step(r, fs) == RenameStep(basePath, options, old(fs), source, newName, false)
           || Step(r, fs) == RenameStep(basePath, options, old(fs), source, newName, true)
      ensures IsAbsolutePath(ResolvePath(basePath, source))
              ==> Step(r, fs) == RenameStep(basePath, options, old(fs), source, newName, false)
    {
      var sourcePath := ResolvePath(basePath, source);
      var dir := Dirname(sourcePath);
      var destPath := dir + [Sep] + Basename(newName);
      if IsAbsolutePath(sourcePath) {
        TargetStaysAbsolute(sourcePath, newName);
        assert ResolvePath(basePath, sourcePath) == sourcePath;
        assert ResolvePath(basePath, destPath) == destPath;
      }
      r := Move(sourcePath, destPath, false);
    }
  }
}
