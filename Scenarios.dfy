/** Two concrete runs of the copy engine over a small source tree:
    C:\src holds folder a with file1.txt, and a holds folder b with
    file2.txt; the destination is C:\dst. */
module Scenarios {
  import opened Paths
  import opened DirTree
  import opened FileSystems
  import opened XCopyEngine

  function FolderB(): (r: Dir) { Dir("C:\\src\\a\\b", [], ["file2.txt"]) }
  function FolderA(): (r: Dir) { Dir("C:\\src\\a", [FolderB()], ["file1.txt"]) }
  function Source(): (r: Dir) { Dir("C:\\src", [FolderA()], []) }

  /** The source files, with contents one and two. */
  function SourceFiles(one: Bytes, two: Bytes): (r: map<string, Bytes>)
  {
    map["C:\\src\\a\\file1.txt" := one, "C:\\src\\a\\b\\file2.txt" := two]
  }

  /** The run visits the source, then a, then b. */
  lemma SourceTraversal()
    ensures Traversal(Source(), true) == [Source(), FolderA(), FolderB()]
  {
    assert Traversal(FolderB(), false) == [] by {
      assert SubTraversals(FolderB(), 0) == [];
    }
    assert Traversal(FolderA(), false) == [FolderB()] by {
      assert SubTraversals(FolderA(), 1) == SubTraversals(FolderA(), 0) + Traversal(FolderB(), false);
    }
    assert SubTraversals(Source(), 1) == SubTraversals(Source(), 0) + Traversal(FolderA(), false);
  }

  /** The three folders map to C:\dst, C:\dst\a and C:\dst\a\b. */
  lemma SourceDestFolders()
    ensures DestFolder("C:\\src", "C:\\dst", Source().path) == Ok("C:\\dst")
    ensures DestFolder("C:\\src", "C:\\dst", FolderA().path) == Ok("C:\\dst\\a")
    ensures DestFolder("C:\\src", "C:\\dst", FolderB().path) == Ok("C:\\dst\\a\\b")
  {
    assert Join("C:\\src", "a") == "C:\\src\\a";
    RelativePathOfJoin("C:\\src", "a");
    assert Join("C:\\src", "a\\b") == "C:\\src\\a\\b";
    RelativePathOfJoin("C:\\src", "a\\b");
    assert Join("C:\\dst", "a") == "C:\\dst\\a";
    assert Join("C:\\dst", "a\\b") == "C:\\dst\\a\\b";
  }

  /** A folder with one file copies just that file. */
  lemma CopyOneFile(files: map<string, Bytes>, dirs: set<string>, srcDir: string, destDir: string, n: Name)
    ensures CopyFiles(files, dirs, srcDir, destDir, [n]) == CopyOne(files, dirs, Join(srcDir, n), Join(destDir, n))
  {
    assert [n][..0] == [];
  }

  lemma StepSource(st: Fs)
    ensures CopyFolder(st, "C:\\src", "C:\\dst", Source()) == Ok(Fs(st.dirs + CreatedBy("C:\\dst"), st.files))
  {
    SourceDestFolders();
  }

  lemma StepA(st: Fs)
    ensures CopyFolder(st, "C:\\src", "C:\\dst", FolderA()) ==
      Ok(Fs(st.dirs + CreatedBy("C:\\dst\\a"),
            CopyOne(st.files, st.dirs + CreatedBy("C:\\dst\\a"), "C:\\src\\a\\file1.txt", "C:\\dst\\a\\file1.txt")))
  {
    SourceDestFolders();
    CopyOneFile(st.files, st.dirs + CreatedBy("C:\\dst\\a"), "C:\\src\\a", "C:\\dst\\a", "file1.txt");
    FilePathsA();
  }

  lemma StepB(st: Fs)
    ensures CopyFolder(st, "C:\\src", "C:\\dst", FolderB()) ==
      Ok(Fs(st.dirs + CreatedBy("C:\\dst\\a\\b"),
            CopyOne(st.files, st.dirs + CreatedBy("C:\\dst\\a\\b"), "C:\\src\\a\\b\\file2.txt", "C:\\dst\\a\\b\\file2.txt")))
  {
    SourceDestFolders();
    CopyOneFile(st.files, st.dirs + CreatedBy("C:\\dst\\a\\b"), "C:\\src\\a\\b", "C:\\dst\\a\\b", "file2.txt");
    FilePathsB();
  }

  /** The source and destination paths of file1.txt. */
  lemma FilePathsA()
    ensures Join("C:\\src\\a", "file1.txt") == "C:\\src\\a\\file1.txt"
    ensures Join("C:\\dst\\a", "file1.txt") == "C:\\dst\\a\\file1.txt"
  {
    JoinFile("C:\\src\\a", "file1.txt", "C:\\src\\a\\file1.txt");
    JoinFile("C:\\dst\\a", "file1.txt", "C:\\dst\\a\\file1.txt");
  }

  /** The source and destination paths of file2.txt. */
  lemma FilePathsB()
    ensures Join("C:\\src\\a\\b", "file2.txt") == "C:\\src\\a\\b\\file2.txt"
    ensures Join("C:\\dst\\a\\b", "file2.txt") == "C:\\dst\\a\\b\\file2.txt"
  {
    JoinFile("C:\\src\\a\\b", "file2.txt", "C:\\src\\a\\b\\file2.txt");
    JoinFile("C:\\dst\\a\\b", "file2.txt", "C:\\dst\\a\\b\\file2.txt");
  }

  /** A file name joined onto a folder that does not end with a separator
      gets one separator in between. */
  lemma JoinFile(dir: string, n: Name, path: string)
    requires dir != "" && dir[|dir| - 1] != Sep
    requires path == dir + "\\" + n
    ensures Join(dir, n) == path
  {
  }

  /** The directories after the first two folders, and after all three. */
  function DirsA(dirs: set<string>): (r: set<string>)
    ensures dirs <= r && "C:\\dst\\a" in r
  {
    dirs + CreatedBy("C:\\dst") + CreatedBy("C:\\dst\\a")
  }

  function DirsB(dirs: set<string>): (r: set<string>)
    ensures DirsA(dirs) <= r && "C:\\dst\\a\\b" in r
  {
    DirsA(dirs) + CreatedBy("C:\\dst\\a\\b")
  }

  /** The state after Source()'s three folders, in terms of the two copies. */
  lemma SourceRunState(st: Fs)
    ensures var r := CopyAll(st, "C:\\src", "C:\\dst", Traversal(Source(), true));
      var f1 := CopyOne(st.files, DirsA(st.dirs), "C:\\src\\a\\file1.txt", "C:\\dst\\a\\file1.txt");
      var f2 := CopyOne(f1, DirsB(st.dirs), "C:\\src\\a\\b\\file2.txt", "C:\\dst\\a\\b\\file2.txt");
      && r.completed
      && r.fs.files == f2
      && r.fs.dirs == DirsB(st.dirs)
  {
    var t := Traversal(Source(), true);
    SourceTraversal();
    var s1 := Fs(st.dirs + CreatedBy("C:\\dst"), st.files);
    StepSource(st);
    var f1 := CopyOne(st.files, DirsA(st.dirs), "C:\\src\\a\\file1.txt", "C:\\dst\\a\\file1.txt");
    var s2 := Fs(DirsA(st.dirs), f1);
    StepA(s1);
    var f2 := CopyOne(f1, DirsB(st.dirs), "C:\\src\\a\\b\\file2.txt", "C:\\dst\\a\\b\\file2.txt");
    var s3 := Fs(DirsB(st.dirs), f2);
    StepB(s2);
    assert t[..0] == [] && t[..1] == [Source()] && t[..2] == [Source(), FolderA()] && t[..3] == t;
    CopyAllPrefix(st, "C:\\src", "C:\\dst", t, 0);
    CopyAllPrefix(st, "C:\\src", "C:\\dst", t, 1);
    CopyAllPrefix(st, "C:\\src", "C:\\dst", t, 2);
    assert CopyAll(st, "C:\\src", "C:\\dst", t[..1]) == RunResult(s1, true);
    assert CopyAll(st, "C:\\src", "C:\\dst", t[..2]) == RunResult(s2, true);
    assert CopyAll(st, "C:\\src", "C:\\dst", t[..3]) == RunResult(s3, true);
  }

  /** Neither destination file path is a directory after the run's
      directories are created, when neither was one before. */
  lemma TargetsNotCreated(dirs: set<string>)
    requires "C:\\dst\\a\\file1.txt" !in dirs && "C:\\dst\\a\\b\\file2.txt" !in dirs
    ensures "C:\\dst\\a\\file1.txt" !in DirsA(dirs)
    ensures "C:\\dst\\a\\b\\file2.txt" !in DirsB(dirs)
  {
    JoinNameNotCreated("C:\\dst\\a", "file1.txt");
    JoinNameNotCreated("C:\\dst\\a\\b", "file2.txt");
    FilePathsA();
    FilePathsB();
    assert |"C:\\dst\\a\\file1.txt"| > |"C:\\dst"|;
    assert |"C:\\dst\\a\\b\\file2.txt"| > |"C:\\dst"|;
    assert |"C:\\dst\\a\\b\\file2.txt"| > |"C:\\dst\\a"|;
  }

  /** The two copies of the run, starting from the source files alone. */
  lemma FreshCopies(dirs: set<string>, one: Bytes, two: Bytes)
    requires "C:\\dst\\a\\file1.txt" !in dirs && "C:\\dst\\a\\b\\file2.txt" !in dirs
    ensures var f1 := CopyOne(SourceFiles(one, two), DirsA(dirs), "C:\\src\\a\\file1.txt", "C:\\dst\\a\\file1.txt");
      var f2 := CopyOne(f1, DirsB(dirs), "C:\\src\\a\\b\\file2.txt", "C:\\dst\\a\\b\\file2.txt");
      && "C:\\dst\\a\\file1.txt" in f2 && f2["C:\\dst\\a\\file1.txt"] == one
      && "C:\\dst\\a\\b\\file2.txt" in f2 && f2["C:\\dst\\a\\b\\file2.txt"] == two
  {
    var files := SourceFiles(one, two);
    TargetsNotCreated(dirs);
    assert "C:\\dst\\a\\file1.txt"[3] != "C:\\src\\a\\file1.txt"[3];
    assert "C:\\dst\\a\\b\\file2.txt"[3] != "C:\\src\\a\\b\\file2.txt"[3];
    assert "C:\\dst\\a\\file1.txt" !in files;
    var f1 := files["C:\\dst\\a\\file1.txt" := one];
    assert CopyOne(files, DirsA(dirs), "C:\\src\\a\\file1.txt", "C:\\dst\\a\\file1.txt") == f1;
    assert "C:\\dst\\a\\b\\file2.txt" !in f1;
  }

  /** Copying into a destination where nothing exists yet at or below
      C:\dst mirrors every folder and copies both files. */
  lemma FreshDestination(dirs: set<string>, one: Bytes, two: Bytes)
    requires forall d :: d in dirs ==> !AtOrBelow("C:\\dst", d)
    ensures var r := CopyAll(Fs(dirs, SourceFiles(one, two)), "C:\\src", "C:\\dst", Traversal(Source(), true));
      && r.completed
      && {"C:\\dst", "C:\\dst\\a", "C:\\dst\\a\\b"} <= r.fs.dirs
      && "C:\\dst\\a\\file1.txt" in r.fs.files && r.fs.files["C:\\dst\\a\\file1.txt"] == one
      && "C:\\dst\\a\\b\\file2.txt" in r.fs.files && r.fs.files["C:\\dst\\a\\b\\file2.txt"] == two
  {
    assert AtOrBelow("C:\\dst", "C:\\dst\\a\\file1.txt") by {
      assert "C:\\dst\\a\\file1.txt"[..6] == "C:\\dst";
    }
    assert AtOrBelow("C:\\dst", "C:\\dst\\a\\b\\file2.txt") by {
      assert "C:\\dst\\a\\b\\file2.txt"[..6] == "C:\\dst";
    }
    SourceRunState(Fs(dirs, SourceFiles(one, two)));
    FreshCopies(dirs, one, two);
  }

  /** The two copies of the run when the destination already holds a
      file1.txt. */
  lemma ExistingCopies(dirs: set<string>, one: Bytes, two: Bytes, old1: Bytes)
    requires "C:\\dst\\a\\b\\file2.txt" !in dirs
    ensures var files := SourceFiles(one, two)["C:\\dst\\a\\file1.txt" := old1];
      var f1 := CopyOne(files, DirsA(dirs), "C:\\src\\a\\file1.txt", "C:\\dst\\a\\file1.txt");
      var f2 := CopyOne(f1, DirsB(dirs), "C:\\src\\a\\b\\file2.txt", "C:\\dst\\a\\b\\file2.txt");
      && "C:\\dst\\a\\file1.txt" in f2 && f2["C:\\dst\\a\\file1.txt"] == old1
      && "C:\\dst\\a\\b\\file2.txt" in f2 && f2["C:\\dst\\a\\b\\file2.txt"] == two
  {
    var files := SourceFiles(one, two)["C:\\dst\\a\\file1.txt" := old1];
    assert "C:\\dst\\a\\b\\file2.txt" !in DirsB(dirs) by {
      JoinNameNotCreated("C:\\dst\\a\\b", "file2.txt");
      FilePathsB();
      assert |"C:\\dst\\a\\b\\file2.txt"| > |"C:\\dst\\a"|;
    }
    assert CopyOne(files, DirsA(dirs), "C:\\src\\a\\file1.txt", "C:\\dst\\a\\file1.txt") == files;
    assert "C:\\dst\\a\\b\\file2.txt" !in files by {
      assert "C:\\dst\\a\\b\\file2.txt"[3] != "C:\\src\\a\\b\\file2.txt"[3];
      assert "C:\\dst\\a\\b\\file2.txt"[9] != "C:\\dst\\a\\file1.txt"[9];
    }
  }

  /** When the destination already holds a file1.txt, its contents stay as
      they were, and file2.txt is still copied. */
  lemma ExistingDestinationFile(dirs: set<string>, one: Bytes, two: Bytes, old1: Bytes)
    requires "C:\\dst\\a\\b\\file2.txt" !in dirs
    ensures var files := SourceFiles(one, two)["C:\\dst\\a\\file1.txt" := old1];
      var r := CopyAll(Fs(dirs, files), "C:\\src", "C:\\dst", Traversal(Source(), true));
      && r.completed
      && "C:\\dst\\a\\file1.txt" in r.fs.files && r.fs.files["C:\\dst\\a\\file1.txt"] == old1
      && "C:\\dst\\a\\b\\file2.txt" in r.fs.files && r.fs.files["C:\\dst\\a\\b\\file2.txt"] == two
  {
    SourceRunState(Fs(dirs, SourceFiles(one, two)["C:\\dst\\a\\file1.txt" := old1]));
    ExistingCopies(dirs, one, two, old1);
  }
}
