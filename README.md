# xcopy: a verified model of the recursive copy engine

xcopy copies a source folder into a destination folder. It keeps the
directory structure and never overwrites a file that already exists. The
engine is the `XCopy` class in `xcopy/XCopy.cs`. Its constructor stores the
source and destination folders. `RecursiveCopy` lists every folder under the
source with `GetDirsRecursively` and calls `CreateAndCopyDestination` on each
one. `CreateAndCopyDestination` computes the folder's path relative to the
source root with `GetRelativePath`, creates the mirrored folder under the
destination, and copies each of the folder's files there with `File.Copy`,
skipping every copy that throws an `IOException`.

The project is split into these modules:

- `Paths` (Paths.dfy): the directory separator, ASCII upper-casing,
  `Path.Combine` (`Join`), the plain file name of `FileInfo.Name` (`Name`),
  and `GetRelativePath`.
  The relative-path failure is a `Result` error in place of the
  `ArgumentException`.
- `DirTree` (DirTree.dfy): the source tree as the engine sees it through
  `DirectoryInfo`. `Dir` holds a full name, the subdirectories in listing
  order and the file names in listing order. `Traversal` is the list
  `GetDirsRecursively` builds. `Descendants` is an independent reference
  definition: the strict descendants of a folder as a multiset.
- `FileSystems` (FileSystems.dfy): the filesystem as a set of directory paths
  plus a map from file path to contents. The `FileSystem` class holds both
  and offers `CreateDirectory` and `Copy`. Its invariant is that every
  directory's ancestors are directories too.
- `XCopyEngine` (XCopyEngine.dfy): the `XCopy` class and its methods, each
  with loops and invariants as in the source. Beside it are the
  specification functions those methods are proved against:
  - `CopyFiles` copies one folder's files;
  - `CopyFolder` is one `CreateAndCopyDestination` call;
  - `CopyAll` is the whole run.
  The lemmas about these functions state the no-overwrite, mirroring,
  completion and idempotence properties.
- `Scenarios` (Scenarios.dfy): two fully computed runs over a three-level
  source tree.

The model keeps several behaviours of the code exactly as written:

- The prefix test in `GetRelativePath` does not look for a separator:
  `C:\testing` counts as a subfolder of `C:\test`, with relative part `ng`.
- The empty relative path comes back both when the names are equal ignoring
  case and when the subfolder is the root plus exactly one character. The
  doc comment at line 147 promises only the first case;
  `Paths.RelativePathEmpty` states the exact condition.
- A root that ends with a separator (`C:\` or a folder typed as `C:\src\`) loses the first character of
  every relative part, because `Substring(rootLength + 1)` always skips one
  more character than the root. Two consequences follow, and both are
  proved. A top-level folder with a one-character name (`C:\a`) mirrors onto
  the destination folder itself. A folder below it (`C:\a\b`) gets the
  relative part `\b`. `Path.Combine` treats that part as rooted and returns
  it unchanged, so the folder is created outside the destination.
- `GetDirsRecursively` does not list folders in pre-order. It lists all direct
  subdirectories of a folder before any grandchild (lines 128-133).
- Nothing in `RecursiveCopy` catches the `ArgumentException` from
  `GetRelativePath`, so the first folder that fails ends the whole run. The
  folders after it are not visited. `RecursiveCopy` returns `false` at that
  point; `completed` in `RunResult` records the same thing.

`IOException` from `File.Copy(src, dst)` without overwriting is modelled as
"the source file is missing, or the destination already exists as a file or as
a directory". In that case the map is left as it was and the loop goes on.
`Directory.CreateDirectory(p)` adds `p` and every prefix of `p` that ends just
before a separator, except a bare drive such as `C:`.

For a source root whose full name does not end with a separator, the model
proves the tool's promise outright. `DirTree.WellNamed` states the conditions:
- no folder's full name ends with a separator, the root's included;
- each subdirectory's full name is its parent's, a separator and its own name;
- no two subdirectories of a folder share a name;
- no subdirectory shares a name with a file of the same folder.

Below the root, the last three are what a filesystem listing gives. The first
excludes every root that ends with a separator. That is a drive root such as
`C:\`, and equally a folder typed with a trailing separator such as `C:\src\`:
the argument is only trimmed of whitespace, and `DirectoryInfo` keeps the
separator in `FullName`. For such a root, `Paths.TrailingSeparatorDropsChar`,
`XCopyEngine.SeparatorRootChildMerges` and `XCopyEngine.SeparatorRootEscapes`
show what happens instead. Every relative part loses its first character, so
`C:\src\a` merges into the destination root, `C:\src\ab` goes to `b` under
the destination, and `C:\src\a\b` lands outside the destination.

For a well-named source, `XCopyEngine.RecursiveCopyWellNamed` shows that the
run completes and that every file whose mirrored path was free before the run
ends up there with the source's contents. That the run completes holds of the
model only: the source also stops when a mirrored folder or one of its
ancestors is already a file (see the `FileSystems.FileSystem.CreateDirectory`
line under "## Left out"). The copies never block each other because of two
lemmas. `XCopyEngine.MirrorFileInjective` shows that no two files of the tree
meet at one destination path. `XCopyEngine.MirrorFileNotFolder` shows that no
file meets a folder there.

## Model

| member | source | states |
|---|---|---|
| Paths.Upper | xcopy/XCopy.cs:152-153 | `ToUpper` on a full name keeps its length (ASCII letters only; see Left out). |
| Paths.UpperFolds | xcopy/XCopy.cs:152-153 | After upper-casing no lower-case letter is left and nothing but lower-case letters changed. Upper-casing twice is upper-casing once. |
| Paths.Join | xcopy/XCopy.cs:57 | `Path.Combine`. It has no contract of its own; `JoinEnds`, `JoinInjective` and `JoinTwice` state its properties. |
| Paths.JoinEnds | xcopy/XCopy.cs:57 | A combined path ends with its second part. Unless that part is rooted, it starts with the first part and adds at most one separator. |
| Paths.JoinInjective | xcopy/XCopy.cs:68 | Joining two relative parts, neither starting with a separator, onto the same folder gives the same path only when the parts are equal, so distinct file names never share a destination. |
| Paths.JoinTwice | xcopy/XCopy.cs:57-68 | Combining a folder with a relative part and then with a file name is the folder's prefix followed by the relative part combined with the name. |
| Paths.RebaseNotBelow | xcopy/XCopy.cs:57 | A path that does not lie at or below the folder `Join(src, rel)` still does not once the source root is replaced by the destination root in both. |
| Paths.GetRelativePath | xcopy/XCopy.cs:150-166 | A result is always a tail of the subfolder's full name. The error names the subfolder and the root. |
| Paths.RelativePathCases | xcopy/XCopy.cs:150-166 | Names equal ignoring case give `""`. An error naming both folders comes back exactly when the upper-cased subfolder does not start with the upper-cased root. Otherwise the result has length \|sub\| - \|root\| - 1. The subfolder is then its first \|root\|+1 characters followed by the result, and ignoring case it is the root, one character and the result. |
| Paths.RelativePathEmpty | xcopy/XCopy.cs:152-165 | `""` comes back if and only if the names are equal ignoring case, or the subfolder is the root (ignoring case) plus exactly one character. |
| Paths.RelativePathOfJoin | xcopy/XCopy.cs:139-142 | For a root without a trailing separator, the relative path of root joined with a relative part is that part, as in the `C:\test\path` / `to\here` example. The empty part gives the root itself and `""`. |
| Paths.BelowRelative | xcopy/XCopy.cs:150-166 | For a full name strictly below a root without a trailing separator, with no separator at either end of the rest, the relative path succeeds, neither starts nor ends with a separator, and joins back onto the root to give the full name. |
| Paths.TrailingSeparatorDropsChar | xcopy/XCopy.cs:164-165 | For a root that ends with a separator, the relative path of root joined with a non-empty relative part loses the part's first character. |
| Paths.NoSeparatorCheck | xcopy/XCopy.cs:158-165 | The prefix test ignores separators: `C:\test` and `C:\testing` give `ng`. |
| DirTree.Traversal | xcopy/XCopy.cs:120-135 | The list `GetDirsRecursively` builds. It has no contract of its own; the `Traversal*` lemmas below state its properties. |
| DirTree.TraversalIsDescendants | xcopy/XCopy.cs:120-135 | The list without the folder itself holds every strict descendant exactly as often as the reference multiset does, and nothing else. |
| DirTree.TraversalLength | xcopy/XCopy.cs:120-135 | The list has one entry per strict descendant, plus one when includeSelf holds. |
| DirTree.TraversalSelf | xcopy/XCopy.cs:100-127 | With includeSelf the list is the folder followed by the list without it. Its first element is the folder, and the list without includeSelf never contains the folder. |
| DirTree.TraversalInTree | xcopy/XCopy.cs:120-135 | Every folder the full list holds is the root or one of its strict descendants. |
| DirTree.DescendantsShrink | xcopy/XCopy.cs:120-135 | A strict descendant has strictly fewer descendants than its ancestor, so no folder is its own descendant. |
| DirTree.DescendantsSplit | xcopy/XCopy.cs:130-133 | Every strict descendant is a direct subdirectory or lies below one, in the part of the tree the recursive call at line 132 lists for that subdirectory. |
| DirTree.TraversalChildrenFirst | xcopy/XCopy.cs:128 | The direct subdirectories come consecutively, in listing order, right after the optional folder itself. |
| DirTree.TraversalParentFirst | xcopy/XCopy.cs:128-133 | Every entry after the first is a direct subdirectory of an entry listed before it. |
| DirTree.ChildrenBeforeGrandchildren | xcopy/XCopy.cs:128-133 | For a root with subdirectories a and b, where a has one subdirectory x, the list is root, a, b, x. This is not pre-order. |
| DirTree.NestedDescendantPaths | xcopy/XCopy.cs:126-133 | When every subdirectory's full name extends its parent's, every strict descendant's full name strictly extends the root's. |
| DirTree.WellNamedDescendant | xcopy/XCopy.cs:128-133 | In a well-named tree every strict descendant is well named, and its full name is the root's, a separator, and a non-empty rest that neither starts nor ends with a separator. |
| DirTree.WellNamedNested | xcopy/XCopy.cs:128-133 | A well-named tree is nested: every subdirectory's full name strictly extends its parent's. |
| DirTree.NoFolderAtFile | xcopy/XCopy.cs:66-68 | In a well-named tree no folder lies at or below the full name of any file of the tree. |
| FileSystems.CreatedBy | xcopy/XCopy.cs:65 | The directories `CreateDirectory(p)` makes sure exist hold `p`, and each lies at or above `p`. |
| FileSystems.CreatedByClosed | xcopy/XCopy.cs:65 | Creating a directory with its missing ancestors keeps the directory set closed under ancestors. |
| FileSystems.CreateExistingIsNoop | xcopy/XCopy.cs:60-65 | Creating a directory that already exists changes nothing. |
| FileSystems.CopyOne | xcopy/XCopy.cs:70-79 | A copy onto an existing file or directory changes nothing, and a copy adds no path but the destination. |
| FileSystems.CopyOneNoOverwrite | xcopy/XCopy.cs:70-79 | One copy keeps every existing file and its contents. The destination is a file afterwards if and only if it was one before, or the source is a file and the destination is not a directory. An absent destination gets the source's contents. |
| FileSystems.FileSystem.constructor | xcopy/XCopy.cs:61-72 | The filesystem that `Exists`, `CreateDirectory` and `File.Copy` act on starts with the given directories and files, closed under ancestors. |
| FileSystems.FileSystem.CreateDirectory | xcopy/XCopy.cs:65 | The directory and its ancestors are added; nothing else changes; the ancestor invariant is kept; an existing directory changes nothing. |
| FileSystems.FileSystem.Copy | xcopy/XCopy.cs:70-79 | Reports success exactly when the source exists and the destination is neither a file nor a directory. The new file map is a copy without overwriting, and the directories are unchanged. |
| XCopyEngine.CopyFiles | xcopy/XCopy.cs:66-80 | Copying one folder's files in listing order never loses or overwrites a file. |
| XCopyEngine.CopyFilesTargets | xcopy/XCopy.cs:66-80 | Copying one folder's files adds only destination paths of listed files. |
| XCopyEngine.CopyFilesCopiesAbsent | xcopy/XCopy.cs:66-80 | A listed file whose source exists and whose destination was neither a file nor a directory ends up at the destination with the source's contents, whatever happened to the files before it. |
| XCopyEngine.CopyFilesNoop | xcopy/XCopy.cs:66-80 | When every destination path is already a file or a directory, copying a folder's files changes nothing. |
| XCopyEngine.CopyFilesCovers | xcopy/XCopy.cs:66-80 | When every listed source exists, every destination path is afterwards a file or a directory that blocked the copy. |
| XCopyEngine.DestFolder | xcopy/XCopy.cs:56-57 | The source root mirrors onto the destination root, and a failure is GetRelativePath's, naming the folder and the root. |
| XCopyEngine.CopyFolder | xcopy/XCopy.cs:54-81 | One `CreateAndCopyDestination` never removes a directory and never loses or overwrites a file. |
| XCopyEngine.CopyFolderMirrors | xcopy/XCopy.cs:54-81 | One folder fails exactly when its relative path does. Otherwise the mirrored folder exists and the directories gain exactly it and its ancestors. No file is lost or overwritten, only listed destinations are added, and each destination that was neither a file nor a directory gets the source's contents. |
| XCopyEngine.CopyFolderFails | xcopy/XCopy.cs:54-57 | A folder fails exactly when GetRelativePath does, with GetRelativePath's error. |
| XCopyEngine.CopyFolderExistingDir | xcopy/XCopy.cs:56-65 | When the mirrored folder already exists, the directories stay as they were. |
| XCopyEngine.SeparatorRootEscapes | xcopy/XCopy.cs:56-57 | Below a root ending in a separator, a folder under a one-character top-level folder mirrors onto its rooted relative part (`\b`), outside the destination. |
| XCopyEngine.SeparatorRootChildMerges | xcopy/XCopy.cs:56-57 | Below a root ending in a separator, a one-character top-level folder mirrors onto the destination folder itself. |
| XCopyEngine.Step | xcopy/XCopy.cs:41-44 | One loop iteration never removes a directory or loses or overwrites a file, and a stopped run stays stopped. |
| XCopyEngine.CopyAll | xcopy/XCopy.cs:16-45 | A whole run never removes a directory and never removes or overwrites a file ("Files will NOT be overwritten"). |
| XCopyEngine.CopyAllCompleted | xcopy/XCopy.cs:34-45 | A run gets through every folder if and only if every folder's relative path succeeds. |
| XCopyEngine.CopyAllAbortStays | xcopy/XCopy.cs:41-44 | Once a folder has failed, the folders after it change nothing. |
| XCopyEngine.CopyAllCreatesDirs | xcopy/XCopy.cs:41-65 | After a completed run, every folder's mirrored folder exists together with its ancestors. |
| XCopyEngine.CopyAllFrame | xcopy/XCopy.cs:34-81 | A run adds only mirrored file paths and mirrored folders with their ancestors. A completed run has created exactly those directories. |
| XCopyEngine.CopyAllGrows | xcopy/XCopy.cs:34-81 | After a completed run, every directory and every file, with its contents, that any first part of the run produced is still there. |
| XCopyEngine.CopyAllCopiesAbsent | xcopy/XCopy.cs:34-81 | After a completed run, a listed file whose source exists holds the source's contents at its mirrored path. This needs the path to have been neither a file nor a directory, no earlier folder's file to mirror onto it, and no earlier folder's created directories to include it. |
| XCopyEngine.CopyAllCopiesShared | xcopy/XCopy.cs:34-81 | The same conclusion, where earlier files may mirror onto the path as long as they have the same full name as this file. |
| XCopyEngine.MirroredFilesFrom | xcopy/XCopy.cs:41-68 | Every file path a run may add is the mirrored path of a listed file of one of the folders. |
| XCopyEngine.MirroredDirsOutside | xcopy/XCopy.cs:41-65 | A path that is no folder's mirrored folder or ancestor of one is no directory the run creates. |
| XCopyEngine.MirroredDirsGrow | xcopy/XCopy.cs:41-65 | The directories a first part of the run creates are among those the whole run creates. |
| XCopyEngine.FolderSettles | xcopy/XCopy.cs:54-81 | When a folder's listed source files exist, after its `CreateAndCopyDestination` its mirrored folder and every destination path exist. |
| XCopyEngine.SettledIsFixpoint | xcopy/XCopy.cs:56-80 | A folder whose mirrored folder and destination files all exist is left unchanged when copied again. |
| XCopyEngine.CopyAllStable | xcopy/XCopy.cs:34-81 | A run over folders that are all settled changes nothing, and completes exactly when every relative path succeeds. |
| XCopyEngine.CopyAllSettles | xcopy/XCopy.cs:34-81 | When all listed source files exist, after a run every folder the run reached is settled. |
| XCopyEngine.CopyAllIdempotent | xcopy/XCopy.cs:34-81 | Repeating a run over folders whose listed source files exist gives back the same filesystem and the same outcome. |
| XCopyEngine.RecursiveCopyCompletes | xcopy/XCopy.cs:34-45 | When every subdirectory's full name extends its parent's, the run over the source's traversal never fails. |
| XCopyEngine.RecursiveCopyMirrors | xcopy/XCopy.cs:30-45 | After a completed run over a source whose listed files exist, each file of each source folder has a file or a blocking directory at its mirrored destination path. |
| XCopyEngine.RecursiveCopyCopies | xcopy/XCopy.cs:30-45 | The run adds no file outside the mirrored file paths and no directory outside the mirrored folders and their ancestors. After a completed run, a source file gets its contents at its mirrored path when that path was free and no earlier folder's file or created directories take it. |
| XCopyEngine.TreeRelative | xcopy/XCopy.cs:56 | For every folder of a well-named tree the relative path succeeds, has no separator at either end, and joins back onto the root to give the folder's full name. |
| XCopyEngine.TreeFileMirror | xcopy/XCopy.cs:56-68 | In a well-named tree a file's mirrored path is the destination's prefix followed by the same part that follows the source root's prefix in the file's full name. |
| XCopyEngine.MirrorFileInjective | xcopy/XCopy.cs:56-68 | In a well-named tree two files with the same mirrored path have the same full name. |
| XCopyEngine.MirrorFileNotFolder | xcopy/XCopy.cs:56-68 | In a well-named tree a file's mirrored path is never a folder's mirrored folder or one of its ancestors. |
| XCopyEngine.TreeFileCopied | xcopy/XCopy.cs:34-81 | In a well-named tree, a file whose source exists and whose mirrored path was neither a file nor a directory holds the source's contents after a completed run. |
| XCopyEngine.RecursiveCopyWellNamed | xcopy/XCopy.cs:16-45 | For a well-named source the run completes, every folder mirrors somewhere, and every file whose source exists and whose mirrored path was neither a file nor a directory ends up there with the source's contents. |
| XCopyEngine.RecursiveCopyIdempotent | xcopy/XCopy.cs:20 | A second RecursiveCopy with an unchanged source leaves the destination as the first one left it. |
| XCopyEngine.XCopy.constructor | xcopy/XCopy.cs:24-28 | Stores the source and the destination. |
| XCopyEngine.XCopy.RecursiveCopy | xcopy/XCopy.cs:34-45 | The new filesystem and the completion flag are exactly those of the run over the source's traversal. The directory invariant is kept. |
| XCopyEngine.XCopy.CreateAndCopyDestination | xcopy/XCopy.cs:54-81 | Returns ok exactly when GetRelativePath succeeds. When ok, the new state is that of one folder's copy and the mirrored folder exists. Otherwise nothing changes. No file is ever lost or overwritten. |
| XCopyEngine.XCopy.GetDirsAndSelf | xcopy/XCopy.cs:100-109 | The list is the traversal with the folder itself. Its first element is the folder, and it holds the folder plus each strict descendant exactly once. |
| XCopyEngine.XCopy.GetDirsRecursively | xcopy/XCopy.cs:111-136 | The list built by the appends and the loop is the traversal. |
| Scenarios.SourceTraversal | xcopy/XCopy.cs:120-135 | The three-level tree is listed as source, a, b. |
| Scenarios.SourceDestFolders | xcopy/XCopy.cs:56-57 | The three folders map to `C:\dst`, `C:\dst\a` and `C:\dst\a\b`. |
| Scenarios.SourceRunState | xcopy/XCopy.cs:34-81 | The run completes, and the state is the two copies plus the three created folders. |
| Scenarios.FreshDestination | xcopy/XCopy.cs:16-45 | When nothing exists at or below `C:\dst`, all three folders are created and both files are copied with their contents. |
| Scenarios.ExistingDestinationFile | xcopy/XCopy.cs:70-79 | An existing `file1.txt` at the destination keeps its contents, and `file2.txt` is still copied, provided its path is not a directory. |

## Left out

- Console output (xcopy/XCopy.cs:63, 69, 76-78, 131): it only logs. Line 63 prints the destination root rather than the subfolder being created, a cosmetic slip with no effect on state.
- `DebugFileList` (xcopy/XCopy.cs:88-98): it is never called and only prints.
- xcopy/Program.cs is not part of this model. It is command-line glue: an argument check, reading lines, trimming, and printing usage. It does not return after printing usage, and it always returns 0.
- File contents are opaque byte sequences. Timestamps, attributes and other metadata that `File.Copy` carries are not modelled.
- `IOException` covers more than the model's condition (source missing, or destination present as a file or a directory). A full disk and a missing destination directory also raise it and are outside the abstract filesystem. Permission failures of `File.Copy` raise `UnauthorizedAccessException`, which the `catch (IOException)` at line 74 does not catch, so the run ends there; the model has no permissions and does not capture that abort.
- FileSystems.FileSystem.CreateDirectory: adds the path even when the path or one of its ancestors is a file. `Directory.CreateDirectory` at line 65 then throws an `IOException` outside the `try`, nothing catches it, and the whole run ends. The model instead goes on. The directory set and the file map are not kept disjoint.
- `Upper`: only ASCII letters are upper-cased, where `String.ToUpper` follows Unicode and culture rules (which can also change a string's length). Likewise the prefix test is an exact character-by-character prefix, where `StartsWith(string)` at line 158 compares by the current culture's rules.
- `Join`: a second part counts as rooted only when it starts with `\`. Parts with a drive (`D:x`) and `/` as a separator are not modelled.
- Path comparison is exact, apart from the upper-casing inside `GetRelativePath`. The real filesystem's case-insensitive lookups and path normalisation (`.`, `..`, duplicate separators) are not modelled. A bare drive such as `C:` is not counted as an ancestor directory: the drive root is taken to exist and is not tracked, so `C:\` and `C:` never both stand for it.
- The listing order of `GetDirectories` and `GetFiles`, and their agreement between the two `GetDirectories` calls at lines 128 and 130, are taken as given by the `Dir` value. The file list of each folder is fixed before the run, so a destination inside the source tree is not modelled.
- The `XCopy` constructor takes the source as an already-listed `Dir` and the destination as its full name. Building a `DirectoryInfo` from a relative or invalid path string, and the `DirectoryNotFoundException` of listing a missing source, are not modelled.
- Concurrent changes to the filesystem during a run are not modelled.
- A `Dir` value is finite. A junction or symbolic-link cycle, on which `GetDirsRecursively` would recurse without end, is not modelled.
