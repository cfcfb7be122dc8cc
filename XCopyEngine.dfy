/** The recursive copy engine of xcopy/XCopy.cs: list every source
    directory, mirror each one under the destination, and copy the files
    of each without overwriting anything. */
module XCopyEngine {
  import opened Paths
  import opened DirTree
  import opened FileSystems

  // ---------------------------------------------------------------------
  // Copying the files of one folder (the foreach at XCopy.cs:66-80)
  // ---------------------------------------------------------------------

  /** The file map after copying, in order, each named file of srcDir to
      the same name under destDir, skipping every copy that fails; dirs is
      the directory set, which the copies do not change. No file is lost
      or overwritten. */
  function CopyFiles(files: map<string, Bytes>, dirs: set<string>, srcDir: string, destDir: string, names: seq<Name>): (r: map<string, Bytes>)
    ensures Extends(files, r)
    decreases |names|
  {
    if names == [] then files
    else
      var n := names[|names| - 1];
      CopyOne(CopyFiles(files, dirs, srcDir, destDir, names[..|names| - 1]), dirs, Join(srcDir, n), Join(destDir, n))
  }

  /** The destination paths of the named files. */
  function Targets(destDir: string, names: seq<Name>): (r: set<string>)
  {
    set n | n in names :: Join(destDir, n)
  }

  /** Copying a folder's files adds nothing but destination paths of
      listed files. */
  lemma {:induction false} CopyFilesTargets(files: map<string, Bytes>, dirs: set<string>, srcDir: string, destDir: string, names: seq<Name>)
    ensures CopyFiles(files, dirs, srcDir, destDir, names).Keys <= files.Keys + Targets(destDir, names)
    decreases |names|
  {
    if names != [] {
      var p := names[..|names| - 1];
      CopyFilesTargets(files, dirs, srcDir, destDir, p);
      TargetsSnoc(destDir, names);
    }
  }

  lemma CopyFilesPrefix(files: map<string, Bytes>, dirs: set<string>, srcDir: string, destDir: string, names: seq<Name>, i: nat)
    requires i < |names|
    ensures CopyFiles(files, dirs, srcDir, destDir, names[..i + 1]) ==
      CopyOne(CopyFiles(files, dirs, srcDir, destDir, names[..i]), dirs, Join(srcDir, names[i]), Join(destDir, names[i]))
  {
    assert names[..i + 1][..i] == names[..i];
  }

  lemma TargetsSnoc(destDir: string, names: seq<Name>)
    requires names != []
    ensures Targets(destDir, names) == Targets(destDir, names[..|names| - 1]) + {Join(destDir, names[|names| - 1])}
  {
    assert names == names[..|names| - 1] + [names[|names| - 1]];
  }

  /** A listed file whose destination was neither a file nor a directory
      ends up there with the source's contents, whatever happened to the
      files listed before it. */
  lemma {:induction false} CopyFilesCopiesAbsent(files: map<string, Bytes>, dirs: set<string>, srcDir: string, destDir: string, names: seq<Name>, n: Name)
    requires n in names
    requires Join(srcDir, n) in files && Join(destDir, n) !in files && Join(destDir, n) !in dirs
    ensures Join(destDir, n) in CopyFiles(files, dirs, srcDir, destDir, names)
    ensures CopyFiles(files, dirs, srcDir, destDir, names)[Join(destDir, n)] == files[Join(srcDir, n)]
    decreases |names|
  {
    var p, m := names[..|names| - 1], names[|names| - 1];
    var before := CopyFiles(files, dirs, srcDir, destDir, p);
    var dst := Join(destDir, n);
    assert n in p || n == m by {
      var k :| 0 <= k < |names| && names[k] == n;
      if k < |names| - 1 {
        assert p[k] == n;
      }
    }
    if n in p {
      CopyFilesCopiesAbsent(files, dirs, srcDir, destDir, p, n);
      assert CopyFiles(files, dirs, srcDir, destDir, names) == CopyOne(before, dirs, Join(srcDir, m), Join(destDir, m));
    } else {
      assert n == m;
      NewTargetAbsent(files, dirs, srcDir, destDir, p, n);
      CopyOneNoOverwrite(before, dirs, Join(srcDir, n), dst);
    }
  }

  /** A file name not listed before has a destination the earlier copies
      did not create. */
  lemma NewTargetAbsent(files: map<string, Bytes>, dirs: set<string>, srcDir: string, destDir: string, names: seq<Name>, n: Name)
    requires n !in names && Join(destDir, n) !in files
    ensures Join(destDir, n) !in CopyFiles(files, dirs, srcDir, destDir, names)
  {
    CopyFilesTargets(files, dirs, srcDir, destDir, names);
    if Join(destDir, n) in Targets(destDir, names) {
      var q :| q in names && Join(destDir, q) == Join(destDir, n);
      JoinInjective(destDir, q, n);
    }
  }

  /** When every destination path is already taken, by a file or by a
      directory, copying changes nothing. */
  lemma {:induction false} CopyFilesNoop(files: map<string, Bytes>, dirs: set<string>, srcDir: string, destDir: string, names: seq<Name>)
    requires forall n :: n in names ==> Join(destDir, n) in files || Join(destDir, n) in dirs
    ensures CopyFiles(files, dirs, srcDir, destDir, names) == files
    decreases |names|
  {
    if names != [] {
      var p := names[..|names| - 1];
      assert forall n :: n in p ==> n in names;
      CopyFilesNoop(files, dirs, srcDir, destDir, p);
    }
  }

  /** When every listed source exists, every destination path is taken
      afterwards: by the copied file, or by a directory that blocked it. */
  lemma CopyFilesCovers(files: map<string, Bytes>, dirs: set<string>, srcDir: string, destDir: string, names: seq<Name>)
    requires forall n :: n in names ==> Join(srcDir, n) in files
    ensures forall n :: n in names ==>
      Join(destDir, n) in CopyFiles(files, dirs, srcDir, destDir, names) || Join(destDir, n) in dirs
  {
    forall n | n in names && Join(destDir, n) !in dirs
      ensures Join(destDir, n) in CopyFiles(files, dirs, srcDir, destDir, names)
    {
      if Join(destDir, n) !in files {
        CopyFilesCopiesAbsent(files, dirs, srcDir, destDir, names, n);
      }
    }
  }

  // ---------------------------------------------------------------------
  // One source folder (CreateAndCopyDestination, XCopy.cs:54-81)
  // ---------------------------------------------------------------------

  /** The mirrored destination folder of a source folder:
      destRoot joined with the folder's path relative to srcRoot. The
      source root itself mirrors onto the destination root, and a failure
      is GetRelativePath's. */
  function DestFolder(srcRoot: string, destRoot: string, folder: string): (r: Result<string>)
    ensures folder == srcRoot ==> r == Ok(destRoot)
    ensures r.Err? ==> r.error == NotASubfolder(folder, srcRoot)
  {
    match GetRelativePath(srcRoot, folder)
    case Ok(rel) => Ok(Join(destRoot, rel))
    case Err(e) => Err(e)
  }

  /** The filesystem after CreateAndCopyDestination(folder): an error, with
      nothing changed, when the folder is not under the source root;
      otherwise the mirrored folder is created and the folder's files are
      copied into it. No directory is removed and no file is lost or
      overwritten. */
  function CopyFolder(st: Fs, srcRoot: string, destRoot: string, folder: Dir): (r: Result<Fs>)
    ensures r.Ok? ==> st.dirs <= r.value.dirs && Extends(st.files, r.value.files)
  {
    match DestFolder(srcRoot, destRoot, folder.path)
    case Err(e) => Err(e)
    case Ok(dd) =>
      var dirs := st.dirs + CreatedBy(dd);
      Ok(Fs(dirs, CopyFiles(st.files, dirs, folder.path, dd, folder.files)))
  }

  /** What CreateAndCopyDestination promises: it fails exactly when the
      relative path fails; otherwise the mirrored folder exists, no file or
      directory is lost or overwritten, each listed file whose destination
      was absent now has the source's contents, and nothing else is added. */
  lemma CopyFolderMirrors(st: Fs, srcRoot: string, destRoot: string, folder: Dir)
    ensures CopyFolder(st, srcRoot, destRoot, folder).Err? <==> GetRelativePath(srcRoot, folder.path).Err?
    ensures CopyFolder(st, srcRoot, destRoot, folder).Ok? ==>
      var st' := CopyFolder(st, srcRoot, destRoot, folder).value;
      var dd := Join(destRoot, GetRelativePath(srcRoot, folder.path).value);
      && dd in st'.dirs
      && st'.dirs == st.dirs + CreatedBy(dd)
      && Extends(st.files, st'.files)
      && st'.files.Keys <= st.files.Keys + Targets(dd, folder.files)
      && (forall n ::
            (n in folder.files && Join(folder.path, n) in st.files &&
             Join(dd, n) !in st.files && Join(dd, n) !in st.dirs) ==>
            Join(dd, n) in st'.files && st'.files[Join(dd, n)] == st.files[Join(folder.path, n)])
  {
    if GetRelativePath(srcRoot, folder.path).Ok? {
      var dd := Join(destRoot, GetRelativePath(srcRoot, folder.path).value);
      var dirs := st.dirs + CreatedBy(dd);
      CopyFilesTargets(st.files, dirs, folder.path, dd, folder.files);
      forall n | n in folder.files && Join(folder.path, n) in st.files &&
          Join(dd, n) !in st.files && Join(dd, n) !in st.dirs
        ensures Join(dd, n) in CopyFiles(st.files, dirs, folder.path, dd, folder.files)
        ensures CopyFiles(st.files, dirs, folder.path, dd, folder.files)[Join(dd, n)] == st.files[Join(folder.path, n)]
      {
        JoinNameNotCreated(dd, n);
        CopyFilesCopiesAbsent(st.files, dirs, folder.path, dd, folder.files, n);
      }
    }
  }

  /** A file name joined onto a folder is never that folder or one of its
      ancestors, so creating the folder never blocks the folder's files. */
  lemma JoinNameNotCreated(dd: string, n: Name)
    ensures Join(dd, n) !in CreatedBy(dd)
  {
    assert |Join(dd, n)| > |dd|;
  }

  /** Below a source root that ends with a separator (such as C:\), a
      folder under a one-character top-level folder gets a relative part
      that starts with a separator. Path.Combine treats that part as
      rooted, so the mirrored folder is the part alone, outside the
      destination. */
  lemma SeparatorRootEscapes(root: string, dest: string, c: char, rest: string)
    requires root != "" && root[|root| - 1] == Sep
    ensures DestFolder(root, dest, root + [c, Sep] + rest) == Ok([Sep] + rest)
  {
    var sub := root + [c, Sep] + rest;
    UpperPrefix(root, sub);
    assert |Upper(sub)| != |Upper(root)|;
    assert sub[|root| + 1..] == [Sep] + rest;
  }

  /** Below such a root, a one-character top-level folder mirrors onto the
      destination folder itself. */
  lemma SeparatorRootChildMerges(root: string, dest: string, c: char)
    requires root != "" && root[|root| - 1] == Sep
    ensures DestFolder(root, dest, root + [c]) == Ok(dest)
  {
    var sub := root + [c];
    UpperPrefix(root, sub);
    assert |Upper(sub)| != |Upper(root)|;
    assert sub[|root| + 1..] == "";
  }

  /** CopyFolder fails exactly when the relative path does, and then
      reports GetRelativePath's error. */
  lemma CopyFolderFails(st: Fs, srcRoot: string, destRoot: string, folder: Dir)
    ensures CopyFolder(st, srcRoot, destRoot, folder).Err? <==> GetRelativePath(srcRoot, folder.path).Err?
    ensures CopyFolder(st, srcRoot, destRoot, folder).Err? ==>
      CopyFolder(st, srcRoot, destRoot, folder).error == GetRelativePath(srcRoot, folder.path).error
  {
  }

  /** Creating a mirrored folder that already exists leaves the directories
      as they were. */
  lemma CopyFolderExistingDir(st: Fs, srcRoot: string, destRoot: string, folder: Dir)
    requires AncestorClosed(st.dirs)
    requires DestFolder(srcRoot, destRoot, folder.path).Ok?
    requires DestFolder(srcRoot, destRoot, folder.path).value in st.dirs
    ensures CopyFolder(st, srcRoot, destRoot, folder).value.dirs == st.dirs
  {
    CreateExistingIsNoop(st.dirs, DestFolder(srcRoot, destRoot, folder.path).value);
  }

  // ---------------------------------------------------------------------
  // The whole run (RecursiveCopy, XCopy.cs:34-45)
  // ---------------------------------------------------------------------

  /** The filesystem after a run, and whether the run got through every
      folder; it stops at the first folder whose relative path fails. */
  datatype RunResult = RunResult(fs: Fs, completed: bool)

  /** One iteration of RecursiveCopy's loop: nothing once the run has
      stopped, otherwise CreateAndCopyDestination(folder). It never removes
      a directory and never loses or overwrites a file, and a stopped run
      stays stopped. */
  function Step(r: RunResult, srcRoot: string, destRoot: string, folder: Dir): (r': RunResult)
    ensures r.fs.dirs <= r'.fs.dirs && Extends(r.fs.files, r'.fs.files)
    ensures r'.completed ==> r.completed
  {
    if !r.completed then r
    else match CopyFolder(r.fs, srcRoot, destRoot, folder)
      case Err(_) => RunResult(r.fs, false)
      case Ok(st') => RunResult(st', true)
  }

  /** CreateAndCopyDestination over the folders in order, stopping at the
      first error. A run never removes a directory, and never removes or
      overwrites a file ("Files will NOT be overwritten"). */
  function CopyAll(st: Fs, srcRoot: string, destRoot: string, folders: seq<Dir>): (r: RunResult)
    ensures st.dirs <= r.fs.dirs && Extends(st.files, r.fs.files)
    decreases |folders|
  {
    if folders == [] then RunResult(st, true)
    else Step(CopyAll(st, srcRoot, destRoot, folders[..|folders| - 1]), srcRoot, destRoot, folders[|folders| - 1])
  }

  lemma CopyAllPrefix(st: Fs, srcRoot: string, destRoot: string, folders: seq<Dir>, i: nat)
    requires i < |folders|
    ensures CopyAll(st, srcRoot, destRoot, folders[..i + 1]) ==
      Step(CopyAll(st, srcRoot, destRoot, folders[..i]), srcRoot, destRoot, folders[i])
  {
    assert folders[..i + 1][..i] == folders[..i];
  }

  /** A completed run got through all folders but the last, and then
      copied the last folder's files. */
  lemma LastStepFiles(st: Fs, srcRoot: string, destRoot: string, folders: seq<Dir>)
    requires folders != [] && CopyAll(st, srcRoot, destRoot, folders).completed
    ensures var f := folders[|folders| - 1];
      var r := CopyAll(st, srcRoot, destRoot, folders[..|folders| - 1]);
      && r.completed
      && DestFolder(srcRoot, destRoot, f.path).Ok?
      && CopyAll(st, srcRoot, destRoot, folders).fs.files ==
           CopyFiles(r.fs.files, r.fs.dirs + CreatedBy(DestFolder(srcRoot, destRoot, f.path).value),
                     f.path, DestFolder(srcRoot, destRoot, f.path).value, f.files)
      && r.fs.dirs <= CopyAll(st, srcRoot, destRoot, folders).fs.dirs
      && CreatedBy(DestFolder(srcRoot, destRoot, f.path).value) <= CopyAll(st, srcRoot, destRoot, folders).fs.dirs
  {
  }

  /** Every folder lies under srcRoot as far as GetRelativePath can tell. */
  ghost predicate AllResolve(srcRoot: string, folders: seq<Dir>)
  {
    forall j :: 0 <= j < |folders| ==> GetRelativePath(srcRoot, folders[j].path).Ok?
  }

  lemma AllResolveSnoc(srcRoot: string, folders: seq<Dir>)
    requires folders != []
    ensures AllResolve(srcRoot, folders) <==>
      AllResolve(srcRoot, folders[..|folders| - 1]) && GetRelativePath(srcRoot, folders[|folders| - 1].path).Ok?
  {
    var p := folders[..|folders| - 1];
    assert forall j :: 0 <= j < |p| ==> p[j] == folders[j];
  }

  /** A run gets through every folder exactly when every relative path
      succeeds. */
  lemma {:induction false} CopyAllCompleted(st: Fs, srcRoot: string, destRoot: string, folders: seq<Dir>)
    ensures CopyAll(st, srcRoot, destRoot, folders).completed <==> AllResolve(srcRoot, folders)
    decreases |folders|
  {
    if folders != [] {
      var p := folders[..|folders| - 1];
      CopyAllCompleted(st, srcRoot, destRoot, p);
      var r := CopyAll(st, srcRoot, destRoot, p);
      CopyFolderFails(r.fs, srcRoot, destRoot, folders[|folders| - 1]);
      AllResolveSnoc(srcRoot, folders);
    }
  }

  /** Once a run has stopped, the remaining folders change nothing. */
  lemma {:induction false} CopyAllAbortStays(st: Fs, srcRoot: string, destRoot: string, folders: seq<Dir>, k: nat)
    requires k <= |folders|
    requires !CopyAll(st, srcRoot, destRoot, folders[..k]).completed
    ensures CopyAll(st, srcRoot, destRoot, folders) == CopyAll(st, srcRoot, destRoot, folders[..k])
    decreases |folders|
  {
    if k < |folders| {
      var p := folders[..|folders| - 1];
      assert p[..k] == folders[..k];
      CopyAllAbortStays(st, srcRoot, destRoot, p, k);
    } else {
      assert folders[..k] == folders;
    }
  }

  /** A completed run has created the mirrored folder of every source
      folder, with all its ancestors. */
  lemma CopyAllCreatesDirs(st: Fs, srcRoot: string, destRoot: string, folders: seq<Dir>)
    ensures CopyAll(st, srcRoot, destRoot, folders).completed ==>
      forall j :: 0 <= j < |folders| ==>
        DestFolder(srcRoot, destRoot, folders[j].path).Ok? &&
        CreatedBy(DestFolder(srcRoot, destRoot, folders[j].path).value) <= CopyAll(st, srcRoot, destRoot, folders).fs.dirs
  {
    forall j | 0 <= j < |folders| && CopyAll(st, srcRoot, destRoot, folders).completed
      ensures DestFolder(srcRoot, destRoot, folders[j].path).Ok?
      ensures CreatedBy(DestFolder(srcRoot, destRoot, folders[j].path).value) <= CopyAll(st, srcRoot, destRoot, folders).fs.dirs
    {
      var q := folders[..j + 1];
      assert q[|q| - 1] == folders[j];
      if CopyAll(st, srcRoot, destRoot, q).completed {
        LastStepFiles(st, srcRoot, destRoot, q);
        CopyAllGrows(st, srcRoot, destRoot, folders, j + 1);
      } else {
        CopyAllAbortStays(st, srcRoot, destRoot, folders, j + 1);
      }
    }
  }

  /** The mirrored paths of a folder's listed files; none when its
      relative path fails. */
  function FolderFiles(srcRoot: string, destRoot: string, f: Dir): (r: set<string>)
  {
    match DestFolder(srcRoot, destRoot, f.path)
    case Ok(dd) => Targets(dd, f.files)
    case Err(_) => {}
  }

  /** A folder's mirrored folder with its ancestors; none when its relative
      path fails. */
  function FolderDirs(srcRoot: string, destRoot: string, f: Dir): (r: set<string>)
  {
    match DestFolder(srcRoot, destRoot, f.path)
    case Ok(dd) => CreatedBy(dd)
    case Err(_) => {}
  }

  /** The file paths a run may add: the mirrored path of every listed file
      of every folder whose relative path succeeds. */
  function MirroredFiles(srcRoot: string, destRoot: string, folders: seq<Dir>): (r: set<string>)
    decreases |folders|
  {
    if folders == [] then {}
    else MirroredFiles(srcRoot, destRoot, folders[..|folders| - 1]) + FolderFiles(srcRoot, destRoot, folders[|folders| - 1])
  }

  /** The directories a run may create: every mirrored folder with its
      ancestors. */
  function MirroredDirs(srcRoot: string, destRoot: string, folders: seq<Dir>): (r: set<string>)
    decreases |folders|
  {
    if folders == [] then {}
    else MirroredDirs(srcRoot, destRoot, folders[..|folders| - 1]) + FolderDirs(srcRoot, destRoot, folders[|folders| - 1])
  }

  /** A run adds no file outside the mirrored file paths and no directory
      outside the mirrored folders and their ancestors; a completed run
      has created exactly those directories. */
  lemma {:induction false} CopyAllFrame(st: Fs, srcRoot: string, destRoot: string, folders: seq<Dir>)
    ensures CopyAll(st, srcRoot, destRoot, folders).fs.files.Keys <= st.files.Keys + MirroredFiles(srcRoot, destRoot, folders)
    ensures CopyAll(st, srcRoot, destRoot, folders).fs.dirs <= st.dirs + MirroredDirs(srcRoot, destRoot, folders)
    ensures CopyAll(st, srcRoot, destRoot, folders).completed ==>
      CopyAll(st, srcRoot, destRoot, folders).fs.dirs == st.dirs + MirroredDirs(srcRoot, destRoot, folders)
    decreases |folders|
  {
    if folders != [] {
      var k := |folders| - 1;
      var p, f := folders[..k], folders[k];
      CopyAllFrame(st, srcRoot, destRoot, p);
      var r := CopyAll(st, srcRoot, destRoot, p);
      if r.completed && CopyFolder(r.fs, srcRoot, destRoot, f).Ok? {
        CopyFolderMirrors(r.fs, srcRoot, destRoot, f);
      }
    }
  }

  /** A completed run leaves the source's contents at the mirrored path of
      each listed file whose source exists, provided the path was neither a
      file nor a directory before the run, is not the mirrored path of a
      file of an earlier folder (two folders can mirror onto the same
      folder; see SeparatorRootChildMerges), and is not a directory that an
      earlier folder's mirroring creates. */
  lemma CopyAllCopiesAbsent(st: Fs, srcRoot: string, destRoot: string, folders: seq<Dir>, j: nat, n: Name)
    requires j < |folders| && n in folders[j].files
    requires Join(folders[j].path, n) in st.files
    requires DestFolder(srcRoot, destRoot, folders[j].path).Ok?
    requires Join(DestFolder(srcRoot, destRoot, folders[j].path).value, n) !in st.files
    requires Join(DestFolder(srcRoot, destRoot, folders[j].path).value, n) !in MirroredFiles(srcRoot, destRoot, folders[..j])
    requires Join(DestFolder(srcRoot, destRoot, folders[j].path).value, n) !in st.dirs + MirroredDirs(srcRoot, destRoot, folders[..j])
    ensures var r := CopyAll(st, srcRoot, destRoot, folders);
      var dst := Join(DestFolder(srcRoot, destRoot, folders[j].path).value, n);
      r.completed ==> dst in r.fs.files && r.fs.files[dst] == st.files[Join(folders[j].path, n)]
  {
    var q := folders[..j + 1];
    assert q[|q| - 1] == folders[j] && q[..|q| - 1] == folders[..j];
    LastFolderCopiesAbsent(st, srcRoot, destRoot, q, n);
    if CopyAll(st, srcRoot, destRoot, q).completed {
      CopyAllGrows(st, srcRoot, destRoot, folders, j + 1);
    } else {
      CopyAllAbortStays(st, srcRoot, destRoot, folders, j + 1);
    }
  }

  /** A completed run removes no directory and overwrites or removes no
      file that any prefix of the run had produced. */
  lemma {:induction false} CopyAllGrows(st: Fs, srcRoot: string, destRoot: string, folders: seq<Dir>, i: nat)
    requires i <= |folders|
    ensures CopyAll(st, srcRoot, destRoot, folders).completed ==>
      && CopyAll(st, srcRoot, destRoot, folders[..i]).fs.dirs <= CopyAll(st, srcRoot, destRoot, folders).fs.dirs
      && Extends(CopyAll(st, srcRoot, destRoot, folders[..i]).fs.files, CopyAll(st, srcRoot, destRoot, folders).fs.files)
    decreases |folders|
  {
    if i == |folders| {
      assert folders[..i] == folders;
    } else if CopyAll(st, srcRoot, destRoot, folders).completed {
      var p, f := folders[..|folders| - 1], folders[|folders| - 1];
      assert p[..i] == folders[..i];
      CopyAllGrows(st, srcRoot, destRoot, p, i);
      LastStepFiles(st, srcRoot, destRoot, folders);
      var r := CopyAll(st, srcRoot, destRoot, p);
      ExtendsTransitive(CopyAll(st, srcRoot, destRoot, folders[..i]).fs.files, r.fs.files,
        CopyAll(st, srcRoot, destRoot, folders).fs.files);
    }
  }

  /** The last-folder case of CopyAllCopiesAbsent. */
  lemma LastFolderCopiesAbsent(st: Fs, srcRoot: string, destRoot: string, folders: seq<Dir>, n: Name)
    requires folders != [] && n in folders[|folders| - 1].files
    requires Join(folders[|folders| - 1].path, n) in st.files
    requires DestFolder(srcRoot, destRoot, folders[|folders| - 1].path).Ok?
    requires Join(DestFolder(srcRoot, destRoot, folders[|folders| - 1].path).value, n) !in st.files
    requires Join(DestFolder(srcRoot, destRoot, folders[|folders| - 1].path).value, n) !in MirroredFiles(srcRoot, destRoot, folders[..|folders| - 1])
    requires Join(DestFolder(srcRoot, destRoot, folders[|folders| - 1].path).value, n) !in
      st.dirs + MirroredDirs(srcRoot, destRoot, folders[..|folders| - 1])
    ensures var r := CopyAll(st, srcRoot, destRoot, folders);
      var dst := Join(DestFolder(srcRoot, destRoot, folders[|folders| - 1].path).value, n);
      r.completed ==> dst in r.fs.files && r.fs.files[dst] == st.files[Join(folders[|folders| - 1].path, n)]
  {
    var k := |folders| - 1;
    var p, f := folders[..k], folders[k];
    var r := CopyAll(st, srcRoot, destRoot, p);
    if CopyAll(st, srcRoot, destRoot, folders).completed {
      LastStepFiles(st, srcRoot, destRoot, folders);
      var ddf := DestFolder(srcRoot, destRoot, f.path).value;
      var dirs := r.fs.dirs + CreatedBy(ddf);
      var cf := CopyFiles(r.fs.files, dirs, f.path, ddf, f.files);
      var src, dst := Join(f.path, n), Join(ddf, n);
      CopyAllFrame(st, srcRoot, destRoot, p);
      assert src in r.fs.files && r.fs.files[src] == st.files[src];
      assert dst !in r.fs.files;
      JoinNameNotCreated(ddf, n);
      assert dst !in dirs;
      CopyFilesCopiesAbsent(r.fs.files, dirs, f.path, ddf, f.files, n);
      assert dst in cf && cf[dst] == st.files[src];
    }
  }

  /** A folder whose mirrored folder and destination files all exist
      already. */
  ghost predicate Settled(fs: Fs, srcRoot: string, destRoot: string, folder: Dir)
  {
    match DestFolder(srcRoot, destRoot, folder.path)
    case Err(_) => true
    case Ok(dd) =>
      && CreatedBy(dd) <= fs.dirs
      && forall n :: n in folder.files ==> Join(dd, n) in fs.files || Join(dd, n) in fs.dirs
  }

  /** A settled folder stays settled when directories and files are added. */
  lemma SettledGrows(fs: Fs, fs': Fs, srcRoot: string, destRoot: string, folder: Dir)
    requires Settled(fs, srcRoot, destRoot, folder)
    requires fs.dirs <= fs'.dirs && fs.files.Keys <= fs'.files.Keys
    ensures Settled(fs', srcRoot, destRoot, folder)
  {
  }

  /** A folder is settled once CreateAndCopyDestination has run on it,
      provided its listed source files exist. */
  lemma FolderSettles(fs: Fs, srcRoot: string, destRoot: string, folder: Dir)
    requires forall n :: n in folder.files ==> Join(folder.path, n) in fs.files
    ensures CopyFolder(fs, srcRoot, destRoot, folder).Ok? ==>
      Settled(CopyFolder(fs, srcRoot, destRoot, folder).value, srcRoot, destRoot, folder)
    ensures CopyFolder(fs, srcRoot, destRoot, folder).Err? ==> Settled(fs, srcRoot, destRoot, folder)
  {
    if DestFolder(srcRoot, destRoot, folder.path).Ok? {
      var dd := DestFolder(srcRoot, destRoot, folder.path).value;
      CopyFilesCovers(fs.files, fs.dirs + CreatedBy(dd), folder.path, dd, folder.files);
    }
  }

  /** Every folder a run would reach is settled. */
  ghost predicate SettledUpTo(fs: Fs, srcRoot: string, destRoot: string, folders: seq<Dir>)
  {
    forall j :: 0 <= j < |folders| && AllResolve(srcRoot, folders[..j]) ==> Settled(fs, srcRoot, destRoot, folders[j])
  }

  /** Every file listed in the folders exists in the file map. */
  ghost predicate SourcesPresent(files: map<string, Bytes>, folders: seq<Dir>)
  {
    forall j, n :: 0 <= j < |folders| && n in folders[j].files ==> Join(folders[j].path, n) in files
  }

  lemma SettledIsFixpoint(fs: Fs, srcRoot: string, destRoot: string, folder: Dir)
    requires Settled(fs, srcRoot, destRoot, folder)
    ensures CopyFolder(fs, srcRoot, destRoot, folder).Ok? ==> CopyFolder(fs, srcRoot, destRoot, folder).value == fs
  {
    if DestFolder(srcRoot, destRoot, folder.path).Ok? {
      CopyFilesNoop(fs.files, fs.dirs, folder.path, DestFolder(srcRoot, destRoot, folder.path).value, folder.files);
    }
  }

  lemma {:induction false} CopyAllStable(fs: Fs, srcRoot: string, destRoot: string, folders: seq<Dir>)
    requires SettledUpTo(fs, srcRoot, destRoot, folders)
    ensures CopyAll(fs, srcRoot, destRoot, folders) == RunResult(fs, AllResolve(srcRoot, folders))
    decreases |folders|
  {
    if folders != [] {
      var k := |folders| - 1;
      var p, f := folders[..k], folders[k];
      forall j | 0 <= j < |p| && AllResolve(srcRoot, p[..j]) ensures Settled(fs, srcRoot, destRoot, p[j]) {
        assert p[..j] == folders[..j] && p[j] == folders[j];
      }
      CopyAllStable(fs, srcRoot, destRoot, p);
      AllResolveSnoc(srcRoot, folders);
      CopyFolderFails(fs, srcRoot, destRoot, f);
      if AllResolve(srcRoot, p) {
        SettledIsFixpoint(fs, srcRoot, destRoot, f);
      }
    }
  }

  lemma {:induction false} CopyAllSettles(st: Fs, srcRoot: string, destRoot: string, folders: seq<Dir>)
    requires SourcesPresent(st.files, folders)
    ensures SettledUpTo(CopyAll(st, srcRoot, destRoot, folders).fs, srcRoot, destRoot, folders)
    decreases |folders|
  {
    if folders != [] {
      var k := |folders| - 1;
      var p, f := folders[..k], folders[k];
      assert forall j :: 0 <= j < |p| ==> p[j] == folders[j];
      assert forall j :: 0 <= j <= |p| ==> p[..j] == folders[..j];
      CopyAllSettles(st, srcRoot, destRoot, p);
      CopyAllCompleted(st, srcRoot, destRoot, p);
      var r := CopyAll(st, srcRoot, destRoot, p);
      var out := CopyAll(st, srcRoot, destRoot, folders);
      assert forall n :: n in f.files ==> Join(f.path, n) in r.fs.files;
      FolderSettles(r.fs, srcRoot, destRoot, f);
      forall j | 0 <= j < |folders| && AllResolve(srcRoot, folders[..j])
        ensures Settled(out.fs, srcRoot, destRoot, folders[j])
      {
        if j < |p| {
          assert Settled(r.fs, srcRoot, destRoot, p[j]);
          SettledGrows(r.fs, out.fs, srcRoot, destRoot, p[j]);
        } else {
          assert r.completed;
        }
      }
    }
  }

  /** Running the copy again over a source whose listed files all exist
      changes nothing: every file is skipped and every folder exists. */
  lemma CopyAllIdempotent(st: Fs, srcRoot: string, destRoot: string, folders: seq<Dir>)
    requires SourcesPresent(st.files, folders)
    ensures var r := CopyAll(st, srcRoot, destRoot, folders);
      CopyAll(r.fs, srcRoot, destRoot, folders) == r
  {
    var r := CopyAll(st, srcRoot, destRoot, folders);
    CopyAllSettles(st, srcRoot, destRoot, folders);
    CopyAllStable(r.fs, srcRoot, destRoot, folders);
    CopyAllCompleted(st, srcRoot, destRoot, folders);
  }

  /** The run over GetDirsRecursively(source) gets through every folder
      when the source tree's names extend their parents' names. */
  lemma RecursiveCopyCompletes(st: Fs, source: Dir, dest: string)
    requires Nested(source)
    ensures CopyAll(st, source.path, dest, Traversal(source, true)).completed
  {
    var t := Traversal(source, true);
    TraversalSelf(source);
    TraversalIsDescendants(source);
    forall j | 0 <= j < |t| ensures GetRelativePath(source.path, t[j].path).Ok? {
      if j > 0 {
        assert t[j] in Traversal(source, false);
        assert t[j] in Descendants(source);
        NestedDescendantPaths(t[j], source);
        UpperPrefix(source.path, t[j].path);
      }
    }
    CopyAllCompleted(st, source.path, dest, t);
  }

  /** After a completed run over a source whose listed files exist, the
      mirrored destination path of every source file is taken: by a file,
      or by a directory that blocked the copy. */
  lemma RecursiveCopyMirrors(st: Fs, source: Dir, dest: string)
    requires SourcesPresent(st.files, Traversal(source, true))
    ensures var t := Traversal(source, true);
      var r := CopyAll(st, source.path, dest, t);
      r.completed ==>
        forall j, n :: 0 <= j < |t| && n in t[j].files ==>
          DestFolder(source.path, dest, t[j].path).Ok? &&
          (Join(DestFolder(source.path, dest, t[j].path).value, n) in r.fs.files ||
           Join(DestFolder(source.path, dest, t[j].path).value, n) in r.fs.dirs)
  {
    var t := Traversal(source, true);
    var r := CopyAll(st, source.path, dest, t);
    CopyAllSettles(st, source.path, dest, t);
    CopyAllCompleted(st, source.path, dest, t);
    if r.completed {
      forall j, n | 0 <= j < |t| && n in t[j].files
        ensures DestFolder(source.path, dest, t[j].path).Ok?
        ensures Join(DestFolder(source.path, dest, t[j].path).value, n) in r.fs.files ||
                Join(DestFolder(source.path, dest, t[j].path).value, n) in r.fs.dirs
      {
        assert AllResolve(source.path, t[..j]);
        assert Settled(r.fs, source.path, dest, t[j]);
      }
    }
  }

  /** A completed run copies the contents of every source file whose
      mirrored path was absent before the run and is not the mirrored path
      of a file of an earlier folder; it adds no file outside the mirrored
      paths and no directory outside the mirrored folders and their
      ancestors. */
  lemma RecursiveCopyCopies(st: Fs, source: Dir, dest: string)
    ensures var t := Traversal(source, true);
      var r := CopyAll(st, source.path, dest, t);
      && r.fs.files.Keys <= st.files.Keys + MirroredFiles(source.path, dest, t)
      && r.fs.dirs <= st.dirs + MirroredDirs(source.path, dest, t)
      && (r.completed ==>
        forall j, n ::
          (&& 0 <= j < |t| && n in t[j].files && Join(t[j].path, n) in st.files
           && DestFolder(source.path, dest, t[j].path).Ok?
           && Join(DestFolder(source.path, dest, t[j].path).value, n) !in st.files
           && Join(DestFolder(source.path, dest, t[j].path).value, n) !in MirroredFiles(source.path, dest, t[..j])
           && Join(DestFolder(source.path, dest, t[j].path).value, n) !in st.dirs + MirroredDirs(source.path, dest, t[..j]))
          ==>
          && Join(DestFolder(source.path, dest, t[j].path).value, n) in r.fs.files
          && r.fs.files[Join(DestFolder(source.path, dest, t[j].path).value, n)] == st.files[Join(t[j].path, n)])
  {
    var t := Traversal(source, true);
    CopyAllFrame(st, source.path, dest, t);
    forall j, n | 0 <= j < |t| && n in t[j].files && Join(t[j].path, n) in st.files &&
        DestFolder(source.path, dest, t[j].path).Ok? &&
        Join(DestFolder(source.path, dest, t[j].path).value, n) !in st.files &&
        Join(DestFolder(source.path, dest, t[j].path).value, n) !in MirroredFiles(source.path, dest, t[..j]) &&
        Join(DestFolder(source.path, dest, t[j].path).value, n) !in st.dirs + MirroredDirs(source.path, dest, t[..j])
      ensures CopyAll(st, source.path, dest, t).completed ==>
        Join(DestFolder(source.path, dest, t[j].path).value, n) in CopyAll(st, source.path, dest, t).fs.files &&
        CopyAll(st, source.path, dest, t).fs.files[Join(DestFolder(source.path, dest, t[j].path).value, n)] == st.files[Join(t[j].path, n)]
    {
      CopyAllCopiesAbsent(st, source.path, dest, t, j, n);
    }
  }

  /** Every mirrored file path of a run is the mirrored path of a listed
      file of one of the folders. */
  lemma {:induction false} MirroredFilesFrom(srcRoot: string, destRoot: string, folders: seq<Dir>, p: string)
    requires p in MirroredFiles(srcRoot, destRoot, folders)
    ensures exists i :: 0 <= i < |folders| && p in FolderFiles(srcRoot, destRoot, folders[i])
    decreases |folders|
  {
    var k := |folders| - 1;
    var q := folders[..k];
    if p in MirroredFiles(srcRoot, destRoot, q) {
      MirroredFilesFrom(srcRoot, destRoot, q, p);
      var i :| 0 <= i < |q| && p in FolderFiles(srcRoot, destRoot, q[i]);
      assert q[i] == folders[i];
    } else {
      assert p in FolderFiles(srcRoot, destRoot, folders[k]);
    }
  }

  /** A path that is no folder's mirrored folder or ancestor of one is not
      a mirrored directory of the run. */
  lemma {:induction false} MirroredDirsOutside(srcRoot: string, destRoot: string, folders: seq<Dir>, p: string)
    requires forall i :: 0 <= i < |folders| ==> p !in FolderDirs(srcRoot, destRoot, folders[i])
    ensures p !in MirroredDirs(srcRoot, destRoot, folders)
    decreases |folders|
  {
    if folders != [] {
      var q := folders[..|folders| - 1];
      assert forall i :: 0 <= i < |q| ==> q[i] == folders[i];
      MirroredDirsOutside(srcRoot, destRoot, q, p);
    }
  }

  /** The mirrored directories of a first part of the run are among those
      of the whole run. */
  lemma {:induction false} MirroredDirsGrow(srcRoot: string, destRoot: string, folders: seq<Dir>, i: nat)
    requires i <= |folders|
    ensures MirroredDirs(srcRoot, destRoot, folders[..i]) <= MirroredDirs(srcRoot, destRoot, folders)
    decreases |folders|
  {
    if i == |folders| {
      assert folders[..i] == folders;
    } else {
      var q := folders[..|folders| - 1];
      assert q[..i] == folders[..i];
      MirroredDirsGrow(srcRoot, destRoot, q, i);
    }
  }

  /** CopyAllCopiesAbsent without the claim on earlier folders: a completed
      run leaves the source's contents at the mirrored path of a listed file
      whose source exists, whose mirrored path was neither a file nor a
      directory before the run and is no directory an earlier folder's
      mirroring creates, provided every earlier file mirrored onto the same
      path has the same source path. The first such file is copied, and no
      later copy overwrites it. */
  lemma {:induction false} CopyAllCopiesShared(st: Fs, srcRoot: string, destRoot: string, folders: seq<Dir>, j: nat, n: Name)
    requires j < |folders| && n in folders[j].files
    requires Join(folders[j].path, n) in st.files
    requires DestFolder(srcRoot, destRoot, folders[j].path).Ok?
    requires Join(DestFolder(srcRoot, destRoot, folders[j].path).value, n) !in st.files
    requires Join(DestFolder(srcRoot, destRoot, folders[j].path).value, n) !in st.dirs + MirroredDirs(srcRoot, destRoot, folders[..j])
    requires forall i, m ::
      (&& 0 <= i < j && m in folders[i].files && DestFolder(srcRoot, destRoot, folders[i].path).Ok?
       && Join(DestFolder(srcRoot, destRoot, folders[i].path).value, m) == Join(DestFolder(srcRoot, destRoot, folders[j].path).value, n))
      ==> Join(folders[i].path, m) == Join(folders[j].path, n)
    ensures var r := CopyAll(st, srcRoot, destRoot, folders);
      var dst := Join(DestFolder(srcRoot, destRoot, folders[j].path).value, n);
      r.completed ==> dst in r.fs.files && r.fs.files[dst] == st.files[Join(folders[j].path, n)]
    decreases j
  {
    var dst := Join(DestFolder(srcRoot, destRoot, folders[j].path).value, n);
    var q := folders[..j];
    if dst !in MirroredFiles(srcRoot, destRoot, q) {
      CopyAllCopiesAbsent(st, srcRoot, destRoot, folders, j, n);
    } else {
      MirroredFilesFrom(srcRoot, destRoot, q, dst);
      var i :| 0 <= i < |q| && dst in FolderFiles(srcRoot, destRoot, q[i]);
      assert q[i] == folders[i];
      var m :| m in folders[i].files && dst == Join(DestFolder(srcRoot, destRoot, folders[i].path).value, m);
      MirroredDirsGrow(srcRoot, destRoot, q, i);
      assert q[..i] == folders[..i];
      CopyAllCopiesShared(st, srcRoot, destRoot, folders, i, m);
    }
  }

  // ---------------------------------------------------------------------
  // Well-named source trees
  // ---------------------------------------------------------------------

  /** Below a well-named root the relative path of every folder of the
      tree succeeds; it is a plain part that joins back onto the root. */
  lemma TreeRelative(source: Dir, z: Dir)
    requires WellNamed(source) && InTree(z, source)
    ensures GetRelativePath(source.path, z.path).Ok?
    ensures PlainRel(GetRelativePath(source.path, z.path).value)
    ensures z.path == Join(source.path, GetRelativePath(source.path, z.path).value)
  {
    var root := source.path;
    if z == source {
      RelativePathOfJoin(root, "");
    } else {
      assert AtOrBelow(root, z.path) && |root| + 1 < |z.path| &&
        z.path[|root| + 1] != Sep && z.path[|z.path| - 1] != Sep by {
        WellNamedDescendant(source, z);
      }
      assert root != "" && root[|root| - 1] != Sep by {
        assert WellNamedFolder(source);
      }
      BelowRelative(root, z.path);
    }
  }

  /** The mirrored path of a file of a tree folder is the destination root's
      Pre followed by the same part that follows the source root's Pre in
      the file's full name. */
  lemma TreeFileMirror(source: Dir, dest: string, z: Dir, n: Name)
    requires WellNamed(source) && InTree(z, source)
    ensures DestFolder(source.path, dest, z.path).Ok?
    ensures var rel := GetRelativePath(source.path, z.path).value;
      && DestFolder(source.path, dest, z.path).value == Join(dest, rel)
      && Join(DestFolder(source.path, dest, z.path).value, n) == Pre(dest) + Join(rel, n)
      && Join(z.path, n) == Pre(source.path) + Join(rel, n)
  {
    TreeRelative(source, z);
    var rel := GetRelativePath(source.path, z.path).value;
    JoinTwice(dest, rel, n);
    JoinTwice(source.path, rel, n);
  }

  /** In a well-named tree two files with the same mirrored path have the
      same full name. */
  lemma MirrorFileInjective(source: Dir, dest: string, x: Dir, m: Name, y: Dir, n: Name)
    requires WellNamed(source) && InTree(x, source) && InTree(y, source)
    ensures DestFolder(source.path, dest, x.path).Ok? && DestFolder(source.path, dest, y.path).Ok?
    ensures Join(DestFolder(source.path, dest, x.path).value, m) == Join(DestFolder(source.path, dest, y.path).value, n) ==>
      Join(x.path, m) == Join(y.path, n)
  {
    TreeFileMirror(source, dest, x, m);
    TreeFileMirror(source, dest, y, n);
    var a := Join(GetRelativePath(source.path, x.path).value, m);
    var b := Join(GetRelativePath(source.path, y.path).value, n);
    if Pre(dest) + a == Pre(dest) + b {
      assert a == (Pre(dest) + a)[|Pre(dest)|..];
    }
  }

  /** In a well-named tree the mirrored path of a file is never a mirrored
      folder or an ancestor of one. */
  lemma MirrorFileNotFolder(source: Dir, dest: string, x: Dir, n: Name, y: Dir)
    requires WellNamed(source) && InTree(x, source) && InTree(y, source) && n in x.files
    ensures DestFolder(source.path, dest, x.path).Ok? && DestFolder(source.path, dest, y.path).Ok?
    ensures Join(DestFolder(source.path, dest, x.path).value, n) !in CreatedBy(DestFolder(source.path, dest, y.path).value)
  {
    TreeFileMirror(source, dest, x, n);
    TreeRelative(source, y);
    var a := Join(GetRelativePath(source.path, x.path).value, n);
    var rel := GetRelativePath(source.path, y.path).value;
    assert !AtOrBelow(Pre(source.path) + a, Join(source.path, rel)) by {
      NoFolderAtFile(source, x, n, y);
    }
    assert a != "" by {
      JoinEnds(GetRelativePath(source.path, x.path).value, n);
    }
    RebaseNotBelow(source.path, dest, a, rel);
  }

  /** One file of a well-named tree: its mirrored path, if neither a file
      nor a directory before the run, holds the source's contents after a
      completed run. */
  lemma TreeFileCopied(st: Fs, source: Dir, dest: string, j: nat, n: Name)
    requires WellNamed(source)
    requires j < |Traversal(source, true)| && n in Traversal(source, true)[j].files
    requires Join(Traversal(source, true)[j].path, n) in st.files
    requires DestFolder(source.path, dest, Traversal(source, true)[j].path).Ok?
    requires Join(DestFolder(source.path, dest, Traversal(source, true)[j].path).value, n) !in st.files
    requires Join(DestFolder(source.path, dest, Traversal(source, true)[j].path).value, n) !in st.dirs
    ensures var t := Traversal(source, true);
      var r := CopyAll(st, source.path, dest, t);
      var dst := Join(DestFolder(source.path, dest, t[j].path).value, n);
      r.completed ==> dst in r.fs.files && r.fs.files[dst] == st.files[Join(t[j].path, n)]
  {
    var t := Traversal(source, true);
    var root := source.path;
    var dst := Join(DestFolder(root, dest, t[j].path).value, n);
    TraversalInTree(source, t[j]);
    forall i, m | 0 <= i < j && m in t[i].files && DestFolder(root, dest, t[i].path).Ok? &&
        Join(DestFolder(root, dest, t[i].path).value, m) == dst
      ensures Join(t[i].path, m) == Join(t[j].path, n)
    {
      TraversalInTree(source, t[i]);
      MirrorFileInjective(source, dest, t[i], m, t[j], n);
    }
    var q := t[..j];
    forall i | 0 <= i < |q|
      ensures dst !in FolderDirs(root, dest, q[i])
    {
      TraversalInTree(source, q[i]);
      MirrorFileNotFolder(source, dest, t[j], n, q[i]);
    }
    MirroredDirsOutside(root, dest, q, dst);
    CopyAllCopiesShared(st, root, dest, t, j, n);
  }

  /** For a well-named source tree, whose root's full name does not end
      with a separator (neither a drive root such as C:\ nor a folder typed
      as C:\src\), the run completes, every folder mirrors somewhere, and
      every listed file whose source exists and whose mirrored path was
      neither a file nor a directory before the run ends up at that path
      with the source's contents. MirrorFileInjective and
      MirrorFileNotFolder are why no copy blocks another. */
  lemma RecursiveCopyWellNamed(st: Fs, source: Dir, dest: string)
    requires WellNamed(source)
    ensures var t := Traversal(source, true);
      && CopyAll(st, source.path, dest, t).completed
      && (forall j :: 0 <= j < |t| ==> DestFolder(source.path, dest, t[j].path).Ok?)
      && (forall j, n ::
            (&& 0 <= j < |t| && n in t[j].files && Join(t[j].path, n) in st.files
             && DestFolder(source.path, dest, t[j].path).Ok?
             && Join(DestFolder(source.path, dest, t[j].path).value, n) !in st.files
             && Join(DestFolder(source.path, dest, t[j].path).value, n) !in st.dirs)
            ==>
            && Join(DestFolder(source.path, dest, t[j].path).value, n) in CopyAll(st, source.path, dest, t).fs.files
            && CopyAll(st, source.path, dest, t).fs.files[Join(DestFolder(source.path, dest, t[j].path).value, n)]
               == st.files[Join(t[j].path, n)])
  {
    var t := Traversal(source, true);
    WellNamedNested(source);
    RecursiveCopyCompletes(st, source, dest);
    forall j | 0 <= j < |t|
      ensures DestFolder(source.path, dest, t[j].path).Ok?
    {
      TraversalInTree(source, t[j]);
      TreeRelative(source, t[j]);
    }
    forall j, n | && 0 <= j < |t| && n in t[j].files && Join(t[j].path, n) in st.files
        && DestFolder(source.path, dest, t[j].path).Ok?
        && Join(DestFolder(source.path, dest, t[j].path).value, n) !in st.files
        && Join(DestFolder(source.path, dest, t[j].path).value, n) !in st.dirs
      ensures Join(DestFolder(source.path, dest, t[j].path).value, n) in CopyAll(st, source.path, dest, t).fs.files
      ensures CopyAll(st, source.path, dest, t).fs.files[Join(DestFolder(source.path, dest, t[j].path).value, n)]
        == st.files[Join(t[j].path, n)]
    {
      TreeFileCopied(st, source, dest, j, n);
    }
  }

  /** A second RecursiveCopy over an unchanged source leaves everything as
      the first one left it. */
  lemma RecursiveCopyIdempotent(st: Fs, source: Dir, dest: string)
    requires SourcesPresent(st.files, Traversal(source, true))
    ensures var r := CopyAll(st, source.path, dest, Traversal(source, true));
      CopyAll(r.fs, source.path, dest, Traversal(source, true)) == r
  {
    CopyAllIdempotent(st, source.path, dest, Traversal(source, true));
  }

  // ---------------------------------------------------------------------
  // The XCopy class
  // ---------------------------------------------------------------------

  /** Holds the source and destination folders and copies one into the
      other. The source is the listing of the source folder; the
      destination is the destination's full name. */
  class XCopy {
    const source: Dir
    const dest: string

    constructor (source: Dir, dest: string)
      ensures this.source == source && this.dest == dest
    {
      this.source := source;
      this.dest := dest;
    }

    /** RecursiveCopy(): CreateAndCopyDestination for every folder that
        GetDirsRecursively(source) lists; completed is false where an
        ArgumentException escapes and ends the run. */
    method RecursiveCopy(fs: FileSystem) returns (completed: bool)
      requires fs.Valid()
      modifies fs
      ensures fs.Valid()
      ensures RunResult(fs.State(), completed) == CopyAll(old(fs.State()), source.path, dest, Traversal(source, true))
    {
      var sourceDirs := GetDirsAndSelf(source);
      for i := 0 to |sourceDirs|
        invariant fs.Valid()
        invariant RunResult(fs.State(), true) == CopyAll(old(fs.State()), source.path, dest, sourceDirs[..i])
      {
        ghost var before := fs.State();
        var ok := CreateAndCopyDestination(fs, sourceDirs[i]);
        CopyAllPrefix(old(fs.State()), source.path, dest, sourceDirs, i);
        CopyFolderFails(before, source.path, dest, sourceDirs[i]);
        if !ok {
          CopyAllAbortStays(old(fs.State()), source.path, dest, sourceDirs, i + 1);
          return false;
        }
      }
      assert sourceDirs[..|sourceDirs|] == sourceDirs;
      return true;
    }

    /** CreateAndCopyDestination(srcFolder): ok is false, with nothing
        changed, where GetRelativePath throws. */
    method CreateAndCopyDestination(fs: FileSystem, srcFolder: Dir) returns (ok: bool)
      requires fs.Valid()
      modifies fs
      ensures fs.Valid()
      ensures ok <==> GetRelativePath(source.path, srcFolder.path).Ok?
      ensures ok ==> CopyFolder(old(fs.State()), source.path, dest, srcFolder) == Ok(fs.State())
      ensures ok ==> Join(dest, GetRelativePath(source.path, srcFolder.path).value) in fs.dirs
      ensures !ok ==> fs.State() == old(fs.State())
      ensures Extends(old(fs.files), fs.files)
    {
      var srcRelPath := GetRelativePath(source.path, srcFolder.path);
      if srcRelPath.Err? {
        return false;
      }
      var destSubFolder := Join(dest, srcRelPath.value);
      assert DestFolder(source.path, dest, srcFolder.path) == Ok(destSubFolder);
      fs.CreateDirectory(destSubFolder);
      for i := 0 to |srcFolder.files|
        invariant fs.Valid()
        invariant fs.dirs == old(fs.dirs) + CreatedBy(destSubFolder)
        invariant fs.files == CopyFiles(old(fs.files), fs.dirs, srcFolder.path, destSubFolder, srcFolder.files[..i])
      {
        var name := srcFolder.files[i];
        var destFilePath := Join(destSubFolder, name);
        var _ := fs.Copy(Join(srcFolder.path, name), destFilePath);
        CopyFilesPrefix(old(fs.files), fs.dirs, srcFolder.path, destSubFolder, srcFolder.files, i);
      }
      assert srcFolder.files[..|srcFolder.files|] == srcFolder.files;
      return true;
    }

    /** GetDirsRecursively(dir): dir and every folder below it, dir first. */
    method GetDirsAndSelf(dir: Dir) returns (dirs: seq<Dir>)
      ensures dirs == Traversal(dir, true)
      ensures |dirs| > 0 && dirs[0] == dir
      ensures multiset(dirs) == multiset{dir} + Descendants(dir)
    {
      dirs := GetDirsRecursively(dir, true);
      TraversalSelf(dir);
      TraversalIsDescendants(dir);
    }

    /** GetDirsRecursively(dir, includeSelf): builds the list with one
        append for dir, one for all its subdirectories and then one per
        subdirectory for that subdirectory's own list. */
    method GetDirsRecursively(dir: Dir, includeSelf: bool) returns (dirs: seq<Dir>)
      ensures dirs == Traversal(dir, includeSelf)
      decreases dir
    {
      dirs := [];
      if includeSelf {
        dirs := dirs + [dir];
      }
      dirs := dirs + dir.subdirs;
      ghost var listed := dirs;
      for i := 0 to |dir.subdirs|
        invariant dirs == listed + SubTraversals(dir, i)
      {
        var sub := GetDirsRecursively(dir.subdirs[i], false);
        dirs := dirs + sub;
      }
    }
  }
}
