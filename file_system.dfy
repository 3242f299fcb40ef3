/** An abstract filesystem standing in for the operating system: the files
    with their contents and the set of directories, each named by the exact
    string the OS is handed. The functions here model the PHP builtins the
    façade calls, each with the failure conditions the model gives it; a
    failed call changes nothing. */
module FileSystem {
  import opened Strings
  import opened Paths
  import opened Outcomes

  datatype Fs = Fs(files: map<string, string>, dirs: set<string>)

  /** `file_exists`: a file or a directory. */
  predicate FileExists(fs: Fs, p: string) {
    p in fs.files || p in fs.dirs
  }

  /** `is_dir`. */
  predicate IsDir(fs: Fs, p: string) {
    p in fs.dirs
  }

  /** No name is both a file and a directory, as on any real filesystem. */
  predicate Disjoint(fs: Fs) {
    fs.files.Keys !! fs.dirs
  }

  /** Every proper ancestor of `p`: its `dirname`, the `dirname` of that, and
      so on while a separator is left. */
  function Ancestors(p: string): (a: set<string>)
    ensures LastSep(p) >= 0 ==> Dirname(p) in a
    ensures forall d :: d in a ==> |d| < |p|
    decreases |p|
  {
    if LastSep(p) < 0 then {} else {Dirname(p)} + Ancestors(Dirname(p))
  }

  /** `mkdir(p, mode, recursive)`: fails when `p` already exists; a recursive
      call also creates each missing ancestor and fails when one of them is a
      file, a plain call fails when the parent is not a directory. */
  function MakeDir(fs: Fs, p: string, recursive: bool): (r: Option<Fs>)
    ensures r.Some? ==> p in r.value.dirs && fs.dirs <= r.value.dirs && r.value.files == fs.files
    ensures r.Some? && Disjoint(fs) ==> Disjoint(r.value)
  {
    if FileExists(fs, p) then None
    else if recursive then
      if Ancestors(p) !! fs.files.Keys then Some(Fs(fs.files, fs.dirs + {p} + Ancestors(p))) else None
    else if IsDir(fs, Dirname(p)) then Some(Fs(fs.files, fs.dirs + {p}))
    else None
  }

  /** `file_put_contents`: creates or truncates a file; fails on a directory
      and when the parent directory is missing. */
  function PutContents(fs: Fs, p: string, contents: string): (r: Option<Fs>)
    ensures r.Some? && Disjoint(fs) ==> Disjoint(r.value)
  {
    if p in fs.dirs || !IsDir(fs, Dirname(p)) then None
    else Some(fs.(files := fs.files[p := contents]))
  }

  /** `file_get_contents`: only a file has contents. */
  function GetContents(fs: Fs, p: string): Option<string> {
    if p in fs.files then Some(fs.files[p]) else None
  }

  /** `filesize`: the length of a file's contents, one character per byte. */
  function FileSize(fs: Fs, p: string): Option<nat> {
    if p in fs.files then Some(|fs.files[p]|) else None
  }

  /** `unlink`: removes a file; fails on anything else. */
  function Unlink(fs: Fs, p: string): (r: Option<Fs>)
    ensures r.Some? && Disjoint(fs) ==> Disjoint(r.value)
  {
    if p in fs.files then Some(fs.(files := fs.files - {p})) else None
  }

  /** `copy`: the source must be a file other than the destination, the
      destination must not be a directory and its parent must be one. */
  function CopyFile(fs: Fs, s: string, d: string): (r: Option<Fs>)
    ensures r.Some? && Disjoint(fs) ==> Disjoint(r.value)
  {
    if s in fs.files && s != d && d !in fs.dirs && IsDir(fs, Dirname(d))
    then Some(fs.(files := fs.files[d := fs.files[s]]))
    else None
  }

  /** `rename` of a file: renaming onto itself succeeds and changes nothing;
      otherwise it may fail for reasons of the machine the model does not
      see (`crossDevice`), and it fails when the destination is a directory
      or when its parent is missing. */
  function RenameFile(fs: Fs, s: string, d: string, crossDevice: bool): (r: Option<Fs>)
    ensures r.Some? && Disjoint(fs) ==> Disjoint(r.value)
  {
    if s !in fs.files then None
    else if s == d then Some(fs)
    else if crossDevice || d in fs.dirs || !IsDir(fs, Dirname(d)) then None
    else Some(fs.(files := (fs.files - {s})[d := fs.files[s]]))
  }

  /** A successful rename and a successful copy followed by an unlink of the
      source leave the same filesystem. */
  lemma RenameIsCopyThenUnlink(fs: Fs, s: string, d: string)
    requires CopyFile(fs, s, d).Some?
    ensures Unlink(CopyFile(fs, s, d).value, s).Some?
    ensures RenameFile(fs, s, d, false) == Unlink(CopyFile(fs, s, d).value, s)
  {
    assert (fs.files - {s})[d := fs.files[s]] == fs.files[d := fs.files[s]] - {s};
  }

  /** The rename succeeds on one device exactly when the copy would. */
  lemma RenameSucceedsIffCopyDoes(fs: Fs, s: string, d: string)
    requires s != d
    ensures RenameFile(fs, s, d, false).Some? <==> CopyFile(fs, s, d).Some?
  {
  }
}
