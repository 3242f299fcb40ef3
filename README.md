# file-utilities in Dafny

A model of the core of the PHP library `file-utilities`, with proofs about it.

- `FileUtility` is a façade over the filesystem:
  - it holds a base directory, fixed at construction, and an option array;
  - relative paths are resolved against the base;
  - it offers `exists`, `size`, `read`, `write`, `delete`, `copy`, `move`, `rename` and `mkdir`, each with the checks and exceptions of the PHP code.
- `FileUtilityHelper::buildPath` joins path segments into one normalized path.

The filesystem the façade talks to is abstract. It is a datatype of files with their contents plus a set of directories. Each PHP builtin the façade calls becomes a function on it: `file_exists`, `is_dir`, `mkdir`, `file_put_contents`, `file_get_contents`, `filesize`, `unlink`, `copy` and `rename`. Each fails under the conditions its function states; where these differ from the real call, "## Left out" says how.

An exception becomes an `Err` value naming the path that the exception message names: the resolved path, except for the public `mkdir`, which names the path as given. The separator (`DIRECTORY_SEPARATOR`) is `'/'`.

Modules, in dependency order:

- `Strings`: `ltrim`, `rtrim` and `trim` with the separator as the character list.
- `Paths`: the protected helpers `isAbsolutePath` and `resolvePath`, and the `dirname` and `basename` that `write`, `copy`, `move` and `rename` use.
- `Outcomes`: `Option`, `Result`, and one `Error` per exception message.
- `FileSystem`: the abstract filesystem and the modelled builtins.
- `Options`: PHP option values, PHP truthiness, `??`, and the `array_merge` of the defaults.
- `FileUtilitySpec`: each state-changing operation as a function from (base, options, filesystem) to (result, filesystem), with the lemmas that state what the operations promise.
- `FileUtilities`: the class `FileUtility`. Its methods update the option and filesystem fields in place and are proved to end exactly as the matching `FileUtilitySpec` function says.
- `FileUtilityHelper`: `buildPath` as a method with its `foreach` loop, proved equal to the function `NormalizedPath`, and the lemmas about that function.
- `FileUtilityScenarios`: the PHPUnit tests of `tests/FileUtilityTest.php`, replayed as client methods of the class.

Points of the code's behaviour that a reader may not expect, which the model keeps:

- `buildPath` trims separators from both ends of every segment, the first one included. A leading `/` is therefore not preserved (`NormalizedPathDropsLeadingSeparator`).
- The public `mkdir` works on the path as given. It is not resolved against the base.
- `move` resolves its arguments, then hands the already resolved paths to `copy` and `delete` in its fallback. `rename` resolves the source, then hands the resulting path to `move`, which resolves it again.
  - Under an absolute base this second resolution changes nothing (`ResolveIdempotent`, `MoveBranchesAgree`, `RenameIsMoveWithinFolder`).
  - Under a relative base it puts the base in front twice (`ResolveTwiceUnderRelativeBase`, `RenameUnderRelativeBase`). The model keeps this behaviour as written.

## Model

| member | source | states |
|---|---|---|
| Strings.LTrim | src/FileUtility.php:108 | the result is a suffix of the input; every character dropped is a separator; the result does not start with one |
| Strings.RTrim | src/FileUtility.php:108 | the result is a prefix of the input; every character dropped is a separator; the result does not end with one |
| Strings.Trim | src/FileUtilityHelper.php:22 | the result has no separator at either end; it is no longer than the input; an input without separators at its ends is returned unchanged |
| Strings.TrimEmpty | src/FileUtilityHelper.php:22-23 | trimming gives the empty string exactly when the segment consists only of separators (the `!== ''` test drops exactly those segments) |
| Strings.TrimBothEnds | src/FileUtilityHelper.php:22 | rtrim followed by ltrim leaves no separator at either end, and is empty exactly for all-separator input |
| Strings.RTrimDrops | src/FileUtility.php:108 | rtrim removes exactly a trailing run of separators and stops at a non-separator |
| Strings.LTrimDrops | src/FileUtility.php:108 | ltrim removes exactly a leading run of separators and stops at a non-separator |
| Strings.TrimStrips | src/FileUtilityHelper.php:22 | trimming any runs of separators around a non-empty core without separators at its ends gives back that core |
| Strings.TrimLeading | src/FileUtilityHelper.php:22 | one leading separator is trimmed away |
| Strings.TrimTrailing | src/FileUtilityHelper.php:22 | one trailing separator is trimmed away |
| Paths.IsAbsolutePath | src/FileUtility.php:114-126 | a path is absolute when it starts with '/' or has ':' as its second character; its cases are proved in `IsAbsolutePathCases` |
| Paths.ResolvePath | src/FileUtility.php:100-109 | an absolute path as given, otherwise the rtrimmed base, one separator and the ltrimmed path; its properties are proved in the `Resolve*` lemmas |
| Paths.IsAbsolutePathCases | src/FileUtility.php:114-126 | a leading '/' or a ':' as second character makes a path absolute; the empty string, bare names, "./x" and UNC paths are not absolute |
| Paths.ResolveFixesExactlyAbsolute | src/FileUtility.php:100-109 | resolution leaves a path unchanged if and only if the path is absolute |
| Paths.ResolveRelativeShape | src/FileUtility.php:100-109 | a relative path resolves to the rtrimmed base, exactly one separator, then the path itself (its ltrim is a no-op) |
| Paths.ResolveIgnoresTrailingSeparator | src/FileUtility.php:108 | a trailing separator on the base does not change any resolution |
| Paths.ResolveUnderAbsoluteBase | src/FileUtility.php:98-109 | under an absolute base every path resolves to an absolute path, as the doc comment "Resolved absolute path" promises |
| Paths.ResolveIdempotent | src/FileUtility.php:100-109 | resolving an absolute result again changes nothing |
| Paths.ResolveTwiceUnderRelativeBase | src/FileUtility.php:100-109 | under a relative base without a trailing separator, "base/p" stays relative and resolves again to "base/base/p" |
| Paths.RelativeJoinStaysRelative | src/FileUtility.php:114-126 | a non-empty relative folder joined with anything is relative |
| Paths.LastSep | src/FileUtility.php:172 | the index of the last separator, or -1 when there is none |
| Paths.Dirname | src/FileUtility.php:172 | the folder is a prefix of the path, and shorter than the path when it has a separator |
| Paths.Basename | src/FileUtility.php:268 | the last component has no separator and is a suffix of the path |
| Paths.DirnameBasenameSplit | src/FileUtility.php:267-268 | folder, separator and last component put back together give the path; without a separator the whole path is the last component |
| Paths.LastSepOfJoin | src/FileUtility.php:267-268 | in "d/b" with b free of separators, the last separator is the one joined in |
| Paths.JoinSplitsBack | src/FileUtility.php:267-268 | dirname and basename of "d/b" are d and b when b has no separator |
| Paths.ResolveUnderFolder | src/FileUtility.php:100-109 | a single-component relative name under a base without a trailing separator resolves to "base/name", with folder base and last component name |
| FileSystem.FileExists | src/FileUtility.php:73 | `file_exists`: the name is a file or a directory (names compared as exact strings, see "## Left out") |
| FileSystem.IsDir | src/FileUtility.php:173 | `is_dir`: the name is a directory |
| FileSystem.GetContents | src/FileUtility.php:149-152 | `file_get_contents`: a file's contents; no value for anything else |
| FileSystem.FileSize | src/FileUtility.php:87-90 | `filesize`: the length of a file's contents; no value for anything else |
| FileSystem.Ancestors | src/FileUtility.php:174 | what a recursive mkdir creates: the folder chain above a path, every member shorter than the path |
| FileSystem.MakeDir | src/FileUtility.php:174 | a successful mkdir makes the path a directory, keeps every directory and every file, and keeps files and directories apart |
| FileSystem.PutContents | src/FileUtility.php:178 | a write keeps files and directories apart |
| FileSystem.Unlink | src/FileUtility.php:197 | an unlink keeps files and directories apart |
| FileSystem.CopyFile | src/FileUtility.php:225 | a copy keeps files and directories apart |
| FileSystem.RenameFile | src/FileUtility.php:250 | a rename keeps files and directories apart |
| FileSystem.RenameIsCopyThenUnlink | src/FileUtility.php:250-256 | where the copy succeeds, a rename on one device leaves the same filesystem as the copy followed by an unlink of the source |
| FileSystem.RenameSucceedsIffCopyDoes | src/FileUtility.php:250-256 | for distinct names, a rename on one device succeeds exactly when the copy would |
| Options.Truthy | src/FileUtility.php:169 | PHP's conversion to bool: null, false, 0, "" and "0" are false, every other value true |
| Options.Flag | src/FileUtility.php:169 | an option read in a condition: a missing key counts as null, so as false |
| Options.Lookup | src/FileUtility.php:53 | `??`: the stored value unless the key is missing or holds null, then the default; properties in `LookupMissing` and `LookupAfterSet` |
| Options.MergeDefaults | src/FileUtility.php:25-30 | the merged options have every supplied key with its supplied value, plus both defaults (`create_directories` true, `overwrite` false) where not supplied |
| Options.DefaultFlags | src/FileUtility.php:25-30 | without supplied values directories are created and nothing is overwritten; a supplied value decides its flag by PHP truthiness |
| Options.LookupMissing | src/FileUtility.php:51-54 | a missing key reads as the caller's default |
| Options.LookupAfterSet | src/FileUtility.php:41-54 | after setting a key, it reads back as set (the default when set to null); every other key reads and flags as before |
| FileUtilitySpec.MkdirStep | src/FileUtility.php:276-292 | mkdir keeps files and directories apart |
| FileUtilitySpec.PrepareDestination | src/FileUtility.php:220-223 | preparing the destination folder never touches a file; on success it only adds directories; on failure it changes nothing |
| FileUtilitySpec.WriteStep | src/FileUtility.php:166-184 | write keeps files and directories apart |
| FileUtilitySpec.DeleteStep | src/FileUtility.php:191-202 | delete keeps files and directories apart |
| FileUtilitySpec.CopyStep | src/FileUtility.php:211-230 | copy keeps files and directories apart |
| FileUtilitySpec.RenameOrCopy | src/FileUtility.php:249-256 | move after its source check and destination folder: the rename, or when it fails the copy of the resolved paths followed by their delete |
| FileUtilitySpec.RenameTarget | src/FileUtility.php:267-268 | the rename target: the source's folder, one separator, the new name's last component; its shape is proved in `RenameIsMoveWithinFolder` |
| FileUtilitySpec.MoveStep | src/FileUtility.php:235-259 | move keeps files and directories apart |
| FileUtilitySpec.RenameStep | src/FileUtility.php:264-271 | rename keeps files and directories apart |
| FileUtilitySpec.WriteRefusedExactlyWhenExisting | src/FileUtility.php:168-171 | write fails with AlreadyExists exactly when the target exists and overwrite is off, and then nothing changes |
| FileUtilitySpec.WriteThenRead | src/FileUtility.php:166-184 | after a successful write, reading the path gives the written contents and size; every other file is kept; directories are only added |
| FileUtilitySpec.WriteOverwrites | src/FileUtility.php:168-184 | with overwrite on, an existing file in an existing folder is replaced and nothing else changes |
| FileUtilitySpec.WriteCreatesDirectories | src/FileUtility.php:172-183 | with `create_directories` on, a new file in a missing folder is written and the folder exists afterwards |
| FileUtilitySpec.WriteWithoutCreateDirectoriesFails | src/FileUtility.php:172-181 | with `create_directories` off, a missing folder makes the write fail with WriteFailed and changes nothing |
| FileUtilitySpec.DeleteAbsentIsNoOp | src/FileUtility.php:193-196 | deleting an absent path succeeds and changes nothing |
| FileUtilitySpec.DeleteRemoves | src/FileUtility.php:191-202 | after a successful delete the path does not exist, exactly that file is gone, and the directories are as before |
| FileUtilitySpec.DeleteTwiceIsOnce | src/FileUtility.php:191-202 | a second delete returns the same result and changes nothing more |
| FileUtilitySpec.CopyMissingSource | src/FileUtility.php:213-218 | a missing source fails with SourceNotFound before anything else is tried, and changes nothing |
| FileUtilitySpec.CopyKeepsSource | src/FileUtility.php:211-230 | a successful copy puts the source's contents at the destination, keeps the source and every other file, and only adds directories |
| FileUtilitySpec.MoveMissingSource | src/FileUtility.php:237-242 | a missing source fails with SourceNotFound and changes nothing, whatever the rename would do |
| FileUtilitySpec.MoveBranchesAgree | src/FileUtility.php:249-258 | with absolute resolved paths, the atomic rename and the copy-and-delete fallback give the same result and the same filesystem |
| FileUtilitySpec.MoveRelocates | src/FileUtility.php:235-259 | a successful move onto another name leaves the contents at the destination, the source gone, and every other file as it was |
| FileUtilitySpec.TargetStaysAbsolute | src/FileUtility.php:266-268 | the rename target built from an absolute source path is absolute |
| FileUtilitySpec.RenameIsMoveWithinFolder | src/FileUtility.php:264-271 | the rename target is in the source's folder and is named by the new name's last component; with an absolute resolved source, rename is exactly move to that target |
| FileUtilitySpec.RenameUnderRelativeBase | src/FileUtility.php:264-271 | under a relative base, rename looks for the source at the doubly resolved path; if no file is there, it fails with SourceNotFound and changes nothing |
| FileUtilitySpec.MkdirIdempotent | src/FileUtility.php:276-292 | an existing directory is immediate success; after success the path is a directory; a second call gives the same outcome and changes nothing more |
| FileUtilities.FileUtility.constructor | src/FileUtility.php:22-31 | the base is the working directory when the given one is falsy ("" or "0"), otherwise the given one; the options are the defaults merged with the supplied ones |
| FileUtilities.FileUtility.SetOption | src/FileUtility.php:41-46 | only the given key changes, to the given value; the filesystem is untouched |
| FileUtilities.FileUtility.GetOption | src/FileUtility.php:51-54 | the stored value, or the default for a missing key or a null value |
| FileUtilities.FileUtility.Exists | src/FileUtility.php:71-74 | true exactly when the resolved path is a file or a directory |
| FileUtilities.FileUtility.Size | src/FileUtility.php:81-93 | NotFound for a missing path; a file's length; SizeFailed for a directory |
| FileUtilities.FileUtility.Read | src/FileUtility.php:140-155 | NotFound for a missing path; a file's contents; ReadFailed for a directory |
| FileUtilities.FileUtility.Write | src/FileUtility.php:166-184 | result and new filesystem are those of `WriteStep`; options unchanged |
| FileUtilities.FileUtility.Delete | src/FileUtility.php:191-202 | result and new filesystem are those of `DeleteStep` |
| FileUtilities.FileUtility.Mkdir | src/FileUtility.php:276-292 | result and new filesystem are those of `MkdirStep` |
| FileUtilities.FileUtility.Copy | src/FileUtility.php:211-230 | result and new filesystem are those of `CopyStep`, including a failed creation of the destination folder |
| FileUtilities.FileUtility.Move | src/FileUtility.php:235-259 | result and new filesystem are those of `MoveStep`, for whichever cross-device outcome the rename met; with absolute resolved paths, the same-device one |
| FileUtilities.FileUtility.Rename | src/FileUtility.php:264-271 | result and new filesystem are those of `RenameStep` for one of the two cross-device outcomes; with an absolute resolved source, the same-device one |
| FileUtilityHelper.KeptSegments | src/FileUtilityHelper.php:20-26 | no more segments come out than go in |
| FileUtilityHelper.KeptOf | src/FileUtilityHelper.php:22-25 | a segment contributes at most one part, and none exactly when it trims to the empty string |
| FileUtilityHelper.Implode | src/FileUtilityHelper.php:27 | `implode("/", parts)`: the parts in order with one separator between neighbours; properties in `ImplodeEnds` and `ImplodeAppend` |
| FileUtilityHelper.NormalizedPath | src/FileUtilityHelper.php:18-28 | the reference definition of `buildPath`: the join of the kept segments; `BuildPath` is proved equal to it and the `NormalizedPath*` lemmas state its properties |
| FileUtilityHelper.KeptSegmentsAllKept | src/FileUtilityHelper.php:20-26 | every collected segment is non-empty and has no separator at its ends |
| FileUtilityHelper.BuildPath | src/FileUtilityHelper.php:18-28 | the loop's result is the normalized path of the segments, and it has no separator at either end |
| FileUtilityHelper.ImplodeEnds | src/FileUtilityHelper.php:27 | joining kept parts is empty only for no parts, and has no separator at its ends |
| FileUtilityHelper.ImplodeAppend | src/FileUtilityHelper.php:27 | joining two non-empty lists one after the other is joining their joins with one separator |
| FileUtilityHelper.KeptSegmentsSnoc | src/FileUtilityHelper.php:21-26 | one more segment at the end adds exactly what that segment contributes |
| FileUtilityHelper.KeptSegmentsPrefix | src/FileUtilityHelper.php:21-26 | one more loop iteration adds exactly what the next segment contributes |
| FileUtilityHelper.KeptSegmentsAppend | src/FileUtilityHelper.php:21-26 | the kept segments of two lists together are those of each, in order |
| FileUtilityHelper.NormalizedPathUnframed | src/FileUtilityHelper.php:18-28 | the built path never starts or ends with a separator |
| FileUtilityHelper.NoneKeptAllEmpty | src/FileUtilityHelper.php:21-26 | when nothing is kept, every segment trims to the empty string |
| FileUtilityHelper.AllEmptyNoneKept | src/FileUtilityHelper.php:21-26 | when every segment trims to the empty string, nothing is kept |
| FileUtilityHelper.NormalizedPathEmpty | src/FileUtilityHelper.php:18-28 | the built path is empty exactly when every segment trims to the empty string |
| FileUtilityHelper.NormalizedPathSingle | src/FileUtilityHelper.php:18-28 | one segment comes out trimmed |
| FileUtilityHelper.NormalizedPathAppend | src/FileUtilityHelper.php:18-28 | building from two lists together joins the two built paths with one separator (nothing is added when one is empty) |
| FileUtilityHelper.NormalizedPathIdempotent | src/FileUtilityHelper.php:18-28 | a built path built again is unchanged |
| FileUtilityHelper.NormalizedPathPair | src/FileUtilityHelper.php:18-28 | two surviving segments are joined by exactly one separator |
| FileUtilityHelper.NormalizedPathTriple | src/FileUtilityHelper.php:18-28 | three surviving segments are joined in order by single separators |
| FileUtilityHelper.NormalizedPathSkipsSeparators | src/FileUtilityHelper.php:22-25 | a segment made only of separators (the empty one included) anywhere in the list changes nothing |
| FileUtilityHelper.NormalizedPathExample | src/FileUtilityHelper.php:18-28 | ["a/", "/b/", "c"] builds "a/b/c", for any kept names a, b, c |
| FileUtilityHelper.NormalizedPathDropsLeadingSeparator | src/FileUtilityHelper.php:22 | ["/a", "b/"] builds "a/b": the leading separator of the first segment is trimmed too |
| FileUtilityScenarios.PlainNameInside | tests/FileUtilityTest.php:16-21 | under the tests' base (absolute, no trailing separator), a non-empty relative single-component name resolves to "base/name", directly inside the base; the constructor keeps the base |
| FileUtilityScenarios.EmptyNameNotInside | src/FileUtility.php:100-109 | the empty name resolves to the base with a separator appended, which is not an entry inside the base, so no scenario covers it |
| FileUtilityScenarios.PlainNamesApart | tests/FileUtilityTest.php:64-73 | two different plain names resolve to two different paths |
| FileUtilityScenarios.NestedPathBelow | tests/FileUtilityTest.php:48-53 | "outer/inner/name" resolves to a file two folders below the base, with no trailing separator |
| FileUtilityScenarios.WriteFresh | src/FileUtility.php:166-184 | writing a new file directly inside the base stores it and changes nothing else |
| FileUtilityScenarios.DeleteWritten | src/FileUtility.php:191-202 | deleting a file directly inside the base removes it and changes nothing else |
| FileUtilityScenarios.CopyWritten | src/FileUtility.php:211-230 | copying a file directly inside the base to another name there adds the copy and changes nothing else |
| FileUtilityScenarios.WriteAndRead | tests/FileUtilityTest.php:31-38 | a written file exists and reads back as written |
| FileUtilityScenarios.ReadMissing | tests/FileUtilityTest.php:40-46 | reading a missing file fails with NotFound naming the resolved path |
| FileUtilityScenarios.WriteNested | tests/FileUtilityTest.php:48-53 | a write to a path not ending in a separator, below folders that do not exist, succeeds, and the file exists afterwards |
| FileUtilityScenarios.WriteThenDelete | tests/FileUtilityTest.php:55-62 | a written file exists, the delete succeeds, and afterwards the file does not exist |
| FileUtilityScenarios.WriteThenCopy | tests/FileUtilityTest.php:64-73 | the copy succeeds, and the destination exists and reads back as the source's contents |
| FileUtilityScenarios.WriteThenSize | tests/FileUtilityTest.php:75-81 | the size of a written file is the length of its contents |
| FileUtilityScenarios.WriteTwiceWithoutOverwrite | tests/FileUtilityTest.php:83-96 | with overwrite off, the second write fails with AlreadyExists and the first contents stay |

## Left out

- File modes and `umask` (src/FileUtility.php:174 and 282-285): permission bits are not modelled, so the `mode` argument of `mkdir` is dropped.
- `is_readable` (src/FileUtility.php:146-148): the model has no permissions, so every existing file is readable and the "File not readable" error cannot arise.
- Failures of the OS beyond those modelled: full disks, I/O errors, races with other processes. Each builtin fails only under the conditions its function states.
- FileSystem.FileExists: names are compared as exact strings, while the OS ignores trailing separators, treats a run of separators as one, resolves `.` and `..` segments and follows symbolic links. So under base "/t", with "/t" the only directory and default options, `write("")` resolves to "/t/". PHP finds "/t/" existing and throws AlreadyExists; the model creates a file named "/t/" beside the directory "/t". Likewise `write("./a")` under "/t" stores a file named "/t/./a" in a directory "/t/.", so a later `exists("a")` is false in the model, while PHP finds "/t/a".
- FileSystem.IsDir: compares names as exact strings too, so "/t/sub/" is not the directory "/t/sub" in the model.
- Paths.Dirname: a run of separators before the last component is kept in the folder. So `write("sub//f")` under "/t", with "/t/sub" a directory and `create_directories` off, fails with WriteFailed in the model, because its folder is "/t/sub/". PHP's `dirname` gives "/t/sub" and the write succeeds.
- Strings and bytes: each Dafny `char` stands for one byte of the PHP string. The checks of `isAbsolutePath`, the lengths `Size` reports and the separator trims are about bytes, so a multi-byte character counts as several `char`s.
- Concurrency: the filesystem changes only through the operations of the model.
- FileSystem.RenameFile: only files are renamed. A directory source makes the rename fail, where PHP's `rename` moves the directory. So `move` of a directory, which passes the `file_exists` check (src/FileUtility.php:240), falls back to the copy and ends in CopyFailed in the model, while PHP moves it.
- FileSystem.Unlink: removes files only; `delete` on a directory fails with DeleteFailed, as PHP's `unlink` does.
- A recursive `mkdir` that fails part-way: the model's `mkdir` either creates the whole chain or changes nothing.
- Paths.Dirname: also leaves out the corner cases of PHP's `dirname`: "." for a path without a separator, "/" for the root, and the stripping of trailing separators. The model's folder is everything before the last separator ("" when there is none).
- Paths.Basename: the last component is everything after the last separator. PHP's `basename` strips trailing separators first, so `basename("n/")` is "n" where the model gives "". This reaches `rename` (src/FileUtility.php:268): `rename("a.txt", "n/")` targets "<dir>/" in the model and "<dir>/n" in PHP.
- Windows paths: only the ':' test of `isAbsolutePath` is modelled. The separator is always '/', with no backslash handling and no drive-relative paths.
- `array_merge` renumbering integer keys: option keys are strings. Float and array option values are not modelled.
- `getcwd()` returning false: the working directory is a parameter of the constructor.
- `getBasePath` (src/FileUtility.php:59-62): the base path is the class's `basePath` constant, which callers read directly.
- The `self` that `setOption` returns for chaining: `SetOption` returns nothing.
- FileSystem.FileSize: gives no value for a directory, so `size` of a directory ends in SizeFailed. PHP's `filesize` returns the directory entry's own size, and `size` returns that number.
- FileSystem.GetContents: gives no value for a directory, so `read` of a directory ends in ReadFailed. PHP's `file_get_contents` of a directory gives a warning and may return a value instead of false.
- The `(string)` cast in `buildPath` (src/FileUtilityHelper.php:22): segments are strings already.
- `FileUtilities.FileUtility.Move` and `FileUtilities.FileUtility.Rename`: `rename` may fail for reasons of the machine the model does not see (the `crossDevice` parameter of `RenameFile`). The model states that the methods end as one of the two outcomes, not which; when the resolved paths are absolute (for `Rename`, the resolved source), both end as the outcome without that failure.
- `FileUtilitySpec.MoveBranchesAgree` and `FileUtilitySpec.MoveRelocates`: they are stated only for absolute resolved paths. Under a relative base the fallback resolves the paths a second time (see `RenameUnderRelativeBase`), and the two branches need not agree.
- `FileUtilityScenarios`: the tests' temporary directory, `uniqid` and the `tearDown` clean-up are not modelled. Each scenario starts from a filesystem whose only directory is the base.
- `example.php`: a usage script that prints to the console; it is not part of this model.
