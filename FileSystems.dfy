/** The filesystem the copy engine reads and writes, reduced to a set of
    directory paths and a map from file path to contents, with the two
    framework calls the engine makes on it: Directory.CreateDirectory and
    File.Copy without overwriting (xcopy/XCopy.cs:65, 72-79). */
module FileSystems {
  import opened Paths

  type Bytes = seq<bv8>

  /** The abstract value of a filesystem. */
  datatype Fs = Fs(dirs: set<string>, files: map<string, Bytes>)

  /** The proper ancestors of a path: every prefix that stops just before a
      separator, except a bare drive such as C: (the drive root is taken to
      exist and is not tracked). */
  function SepPrefixes(p: string): (r: set<string>)
  {
    set i | 0 < i < |p| && p[i] == Sep && p[i - 1] != ':' :: p[..i]
  }

  /** The directories that Directory.CreateDirectory(p) makes sure exist:
      p and every missing intermediate segment, and nothing that is not p
      or one of its ancestors. */
  function CreatedBy(p: string): (r: set<string>)
    ensures p in r
    ensures forall q :: q in r ==> AtOrBelow(q, p)
  {
    {p} + SepPrefixes(p)
  }

  /** Every directory's ancestors are directories too. */
  ghost predicate AncestorClosed(dirs: set<string>)
  {
    forall d :: d in dirs ==> SepPrefixes(d) <= dirs
  }

  /** An ancestor of an ancestor is an ancestor. */
  lemma SepPrefixesTransitive(p: string, q: string)
    requires q in SepPrefixes(p)
    ensures SepPrefixes(q) <= SepPrefixes(p)
  {
    var i :| 0 < i < |p| && p[i] == Sep && p[i - 1] != ':' && q == p[..i];
    forall r | r in SepPrefixes(q) ensures r in SepPrefixes(p) {
      var j :| 0 < j < |q| && q[j] == Sep && q[j - 1] != ':' && r == q[..j];
      assert p[j] == Sep && p[j - 1] != ':' && r == p[..j];
    }
  }

  /** Creating a directory never leaves a directory without its parents. */
  lemma CreatedByClosed(dirs: set<string>, p: string)
    requires AncestorClosed(dirs)
    ensures AncestorClosed(dirs + CreatedBy(p))
  {
    forall d | d in dirs + CreatedBy(p) ensures SepPrefixes(d) <= dirs + CreatedBy(p) {
      if d in SepPrefixes(p) {
        SepPrefixesTransitive(p, d);
      }
    }
  }

  /** Directory.CreateDirectory on an existing directory changes nothing. */
  lemma CreateExistingIsNoop(dirs: set<string>, p: string)
    requires AncestorClosed(dirs) && p in dirs
    ensures dirs + CreatedBy(p) == dirs
  {
  }

  /** File.Copy(src, dst) without overwriting: the destination gets the
      source's contents only when the source is a file and the destination
      is neither a file nor a directory; otherwise the call fails with an
      IOException and nothing changes. An existing destination is never
      touched, and nothing but the destination is ever added. */
  function CopyOne(files: map<string, Bytes>, dirs: set<string>, src: string, dst: string): (r: map<string, Bytes>)
    ensures dst in files || dst in dirs ==> r == files
    ensures r.Keys <= files.Keys + {dst}
  {
    if src in files && dst !in files && dst !in dirs then files[dst := files[src]] else files
  }

  /** Every entry of m is in m' with the same contents. */
  ghost predicate Extends(m: map<string, Bytes>, m': map<string, Bytes>)
  {
    forall k :: k in m ==> k in m' && m'[k] == m[k]
  }

  lemma ExtendsTransitive(m: map<string, Bytes>, m': map<string, Bytes>, m'': map<string, Bytes>)
    requires Extends(m, m') && Extends(m', m'')
    ensures Extends(m, m'')
  {
  }

  /** A copy keeps every existing file with its contents; the destination
      is a file afterwards exactly when it was one before, or the source is
      a file and the destination is not a directory; an absent destination
      gets the source's contents. */
  lemma CopyOneNoOverwrite(files: map<string, Bytes>, dirs: set<string>, src: string, dst: string)
    ensures Extends(files, CopyOne(files, dirs, src, dst))
    ensures dst in CopyOne(files, dirs, src, dst) <==> dst in files || (src in files && dst !in dirs)
    ensures dst !in files && dst !in dirs && src in files ==> CopyOne(files, dirs, src, dst)[dst] == files[src]
  {
  }

  /** The filesystem as mutable state. */
  class FileSystem {
    var dirs: set<string>
    var files: map<string, Bytes>

    ghost predicate Valid()
      reads this
    {
      AncestorClosed(dirs)
    }

    function State(): (r: Fs)
      reads this
    {
      Fs(dirs, files)
    }

    constructor (dirs: set<string>, files: map<string, Bytes>)
      requires AncestorClosed(dirs)
      ensures Valid() && State() == Fs(dirs, files)
    {
      this.dirs := dirs;
      this.files := files;
    }

    /** Directory.CreateDirectory(p): p and its missing ancestors exist
        afterwards; an existing p is left as it is. */
    method CreateDirectory(p: string)
      requires Valid()
      modifies this
      ensures Valid()
      ensures dirs == old(dirs) + CreatedBy(p) && files == old(files)
      ensures old(p in dirs) ==> dirs == old(dirs)
    {
      CreatedByClosed(dirs, p);
      dirs := dirs + CreatedBy(p);
    }

    /** File.Copy(src, dst) without overwriting; copied is false where the
        framework throws an IOException (the destination exists as a file or
        as a directory, or the source is not a file). */
    method Copy(src: string, dst: string) returns (copied: bool)
      modifies this
      ensures copied <==> old(src in files) && old(dst !in files) && old(dst !in dirs)
      ensures files == CopyOne(old(files), old(dirs), src, dst) && dirs == old(dirs)
    {
      copied := src in files && dst !in files && dst !in dirs;
      if copied {
        files := files[dst := files[src]];
      }
    }
  }
}
