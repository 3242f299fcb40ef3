/** The scenarios of the repository's unit tests, replayed against the model.
    Each starts from a fresh temporary directory as the base, the only
    directory there is, runs the calls the test makes, and states what the
    test asserts. A scenario asks only that the names it uses resolve to
    entries directly inside the base; `PlainNameInside` shows that the
    tests' names (relative, one component) under the tests' base (an
    absolute Unix path without a trailing separator) do. */
module FileUtilityScenarios {
  import opened Strings
  import opened Paths
  import opened Outcomes
  import opened FileSystem
  import opened Options
  import opened FileUtilitySpec
  import opened FileUtilities

  /** A base directory as the tests make one under a Unix temporary
      directory: it starts with a separator and does not end with one. */
  predicate TestDir(dir: string) {
    |dir| > 1 && dir[0] == Sep && dir[|dir| - 1] != Sep
  }

  /** A plain file name: non-empty, relative, and a single component. */
  predicate PlainName(name: string) {
    |name| > 0 && !IsAbsolutePath(name) && Sep !in name
  }

  /** A base the constructor keeps: neither empty nor "0". */
  predicate KeptBase(dir: string) {
    dir != "" && dir != "0"
  }

  /** `full` names an entry directly inside `dir`, other than `dir` itself:
      its folder is `dir` and it does not end with a separator (so it is not
      `dir` with a separator appended). */
  predicate Inside(dir: string, full: string) {
    full != dir && Dirname(full) == dir && |full| > 0 && full[|full| - 1] != Sep
  }

  /** The filesystem of a test's start: the base directory and nothing else. */
  function Fresh(testDir: string): Fs {
    Fs(map[], {testDir})
  }

  /** The tests' base is kept by the constructor, and each of their names
      resolves to the base, one separator and the name, directly inside
      the base. */
  lemma PlainNameInside(testDir: string, name: string)
    requires TestDir(testDir) && PlainName(name)
    ensures KeptBase(testDir)
    ensures ResolvePath(testDir, name) == testDir + [Sep] + name
    ensures Inside(testDir, ResolvePath(testDir, name))
  {
    assert |"0"| == 1;
    ResolveUnderFolder(testDir, name);
    assert |testDir + [Sep] + name| > |testDir|;
  }

  /** The empty name is not an entry inside the base: it resolves to the
      base with a separator appended. */
  lemma EmptyNameNotInside(testDir: string)
    ensures !Inside(testDir, ResolvePath(testDir, ""))
  {
    assert !IsAbsolutePath("");
    assert LTrim("") == "";
  }

  /** Two different plain names resolve to two different paths. */
  lemma PlainNamesApart(testDir: string, a: string, b: string)
    requires TestDir(testDir) && PlainName(a) && PlainName(b) && a != b
    ensures ResolvePath(testDir, a) != ResolvePath(testDir, b)
  {
    PlainNameInside(testDir, a);
    PlainNameInside(testDir, b);
    assert (testDir + [Sep] + a)[|testDir| + 1..] == a;
    assert (testDir + [Sep] + b)[|testDir| + 1..] == b;
  }

  /** A path of three plain components under the tests' base resolves to
      a file two folders below the base, so its folder is not the base. */
  lemma NestedPathBelow(testDir: string, outer: string, inner: string, name: string)
    requires TestDir(testDir) && PlainName(outer) && PlainName(inner) && PlainName(name)
    ensures var full := ResolvePath(testDir, outer + [Sep] + inner + [Sep] + name);
      && full == testDir + [Sep] + outer + [Sep] + inner + [Sep] + name
      && Dirname(full) == testDir + [Sep] + outer + [Sep] + inner
      && full[|full| - 1] != Sep
      && full != testDir && Dirname(full) != testDir
  {
    var p := outer + [Sep] + inner + [Sep] + name;
    assert p == outer + [Sep] + (inner + [Sep] + name);
    RelativeJoinStaysRelative(outer, inner + [Sep] + name);
    assert RTrim(testDir) == testDir;
    ResolveRelativeShape(testDir, p);
    var dir := testDir + [Sep] + outer + [Sep] + inner;
    assert testDir + [Sep] + p == dir + [Sep] + name;
    JoinSplitsBack(dir, name);
    assert |dir| > |testDir|;
  }

  /** Writing a new file directly inside the base stores it and nothing
      else changes. */
  lemma WriteFresh(testDir: string, opts: OptionMap, files: map<string, string>, name: string, content: string)
    requires Inside(testDir, ResolvePath(testDir, name))
    requires ResolvePath(testDir, name) !in files
    ensures WriteStep(testDir, opts, Fs(files, {testDir}), name, content)
         == Step(Ok(true), Fs(files[ResolvePath(testDir, name) := content], {testDir}))
  {
  }

  /** Deleting a file directly inside the base removes it and nothing else. */
  lemma DeleteWritten(testDir: string, files: map<string, string>, name: string)
    requires Inside(testDir, ResolvePath(testDir, name))
    requires ResolvePath(testDir, name) in files
    ensures DeleteStep(testDir, Fs(files, {testDir}), name)
         == Step(Ok(true), Fs(files - {ResolvePath(testDir, name)}, {testDir}))
  {
  }

  /** Copying a file directly inside the base to another name there adds
      the copy and nothing else. */
  lemma CopyWritten(testDir: string, opts: OptionMap, files: map<string, string>, source: string,
                    destination: string)
    requires Inside(testDir, ResolvePath(testDir, source))
    requires Inside(testDir, ResolvePath(testDir, destination))
    requires ResolvePath(testDir, source) in files
    requires ResolvePath(testDir, source) != ResolvePath(testDir, destination)
    ensures var sp, dp := ResolvePath(testDir, source), ResolvePath(testDir, destination);
      CopyStep(testDir, opts, Fs(files, {testDir}), source, destination, false)
      == Step(Ok(true), Fs(files[dp := files[sp]], {testDir}))
  {
    var fs := Fs(files, {testDir});
    var dp := ResolvePath(testDir, destination);
    assert PrepareDestination(opts, fs, dp, false) == Step(Ok(true), fs);
  }

  /** `testWriteAndRead`: a written file exists and reads back as written. */
  method WriteAndRead(testDir: string, cwd: string, name: string, content: string)
    returns (written: Result<bool>, present: bool, readBack: Result<string>)
    requires KeptBase(testDir) && Inside(testDir, ResolvePath(testDir, name))
    ensures written == Ok(true) && present && readBack == Ok(content)
  {
    var utility := new FileUtility(testDir, map[], cwd, Fresh(testDir));
    WriteFresh(testDir, utility.options, map[], name, content);
    written := utility.Write(name, content);
    present := utility.Exists(name);
    readBack := utility.Read(name);
  }

  /** `testReadNonExistentFileThrowsException`: reading a missing file fails
      with "File not found" naming the resolved path. */
  method ReadMissing(testDir: string, cwd: string, name: string) returns (readBack: Result<string>)
    requires KeptBase(testDir) && Inside(testDir, ResolvePath(testDir, name))
    ensures readBack == Err(NotFound(ResolvePath(testDir, name)))
  {
    var utility := new FileUtility(testDir, map[], cwd, Fresh(testDir));
    readBack := utility.Read(name);
  }

  /** `testWriteCreatesDirectories`: writing below folders that do not exist
      yet creates them, and the file exists afterwards. */
  method WriteNested(testDir: string, cwd: string, path: string, content: string)
    returns (written: Result<bool>, present: bool)
    requires KeptBase(testDir)
    requires ResolvePath(testDir, path) != testDir && Dirname(ResolvePath(testDir, path)) != testDir
    requires var full := ResolvePath(testDir, path); |full| > 0 && full[|full| - 1] != Sep
    ensures written == Ok(true) && present
  {
    var utility := new FileUtility(testDir, map[], cwd, Fresh(testDir));
    DefaultFlags(map[]);
    WriteCreatesDirectories(testDir, utility.options, utility.fs, path, content);
    written := utility.Write(path, content);
    present := utility.Exists(path);
  }

  /** `testDelete`: a written file exists, and after `delete` it does not. */
  method WriteThenDelete(testDir: string, cwd: string, name: string, content: string)
    returns (before: bool, deleted: Result<bool>, after: bool)
    requires KeptBase(testDir) && Inside(testDir, ResolvePath(testDir, name))
    ensures before && deleted == Ok(true) && !after
  {
    var utility := new FileUtility(testDir, map[], cwd, Fresh(testDir));
    WriteFresh(testDir, utility.options, map[], name, content);
    var written := utility.Write(name, content);
    before := utility.Exists(name);
    DeleteWritten(testDir, utility.fs.files, name);
    deleted := utility.Delete(name);
    after := utility.Exists(name);
  }

  /** `testCopy`: the copy exists and reads back as the source's contents. */
  method WriteThenCopy(testDir: string, cwd: string, source: string, destination: string, content: string)
    returns (copied: Result<bool>, present: bool, readBack: Result<string>)
    requires KeptBase(testDir)
    requires Inside(testDir, ResolvePath(testDir, source))
    requires Inside(testDir, ResolvePath(testDir, destination))
    requires ResolvePath(testDir, source) != ResolvePath(testDir, destination)
    ensures copied == Ok(true) && present && readBack == Ok(content)
  {
    var utility := new FileUtility(testDir, map[], cwd, Fresh(testDir));
    WriteFresh(testDir, utility.options, map[], source, content);
    var written := utility.Write(source, content);
    CopyWritten(testDir, utility.options, utility.fs.files, source, destination);
    copied := utility.Copy(source, destination, false);
    present := utility.Exists(destination);
    readBack := utility.Read(destination);
  }

  /** `testSize`: the size of a written file is the length of its contents. */
  method WriteThenSize(testDir: string, cwd: string, name: string, content: string)
    returns (size: Result<nat>)
    requires KeptBase(testDir) && Inside(testDir, ResolvePath(testDir, name))
    ensures size == Ok(|content|)
  {
    var utility := new FileUtility(testDir, map[], cwd, Fresh(testDir));
    WriteFresh(testDir, utility.options, map[], name, content);
    var written := utility.Write(name, content);
    size := utility.Size(name);
  }

  /** `testOptions`: with overwrite off, the second write to the same file
      fails with "already exists" and the first contents stay. */
  method WriteTwiceWithoutOverwrite(testDir: string, cwd: string, name: string, first: string, second: string)
    returns (again: Result<bool>, readBack: Result<string>)
    requires KeptBase(testDir) && Inside(testDir, ResolvePath(testDir, name))
    ensures again == Err(AlreadyExists(ResolvePath(testDir, name)))
    ensures readBack == Ok(first)
  {
    var supplied := map[OverwriteKey := Bool(false), CreateDirectoriesKey := Bool(true)];
    var utility := new FileUtility(testDir, supplied, cwd, Fresh(testDir));
    DefaultFlags(supplied);
    WriteFresh(testDir, utility.options, map[], name, first);
    var written := utility.Write(name, first);
    again := utility.Write(name, second);
    readBack := utility.Read(name);
  }
}
