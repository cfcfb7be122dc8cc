/** The source directory tree as the copy engine sees it through
    DirectoryInfo, and the order in which GetDirsRecursively lists it
    (xcopy/XCopy.cs:100-136). */
module DirTree {
  import opened Paths

  /** A directory: its full name, its subdirectories in the order the
      listing (GetDirectories) returns them, and the names of the files
      directly inside it in the order GetFiles returns them. */
  datatype Dir = Dir(path: string, subdirs: seq<Dir>, files: seq<Name>)

  /** The list GetDirsRecursively(d, includeSelf) builds: d itself when
      includeSelf holds, then every direct subdirectory of d, then, for each
      subdirectory in turn, that subdirectory's own list without itself. */
  function Traversal(d: Dir, includeSelf: bool): (r: seq<Dir>)
    decreases d, 1
  {
    (if includeSelf then [d] else []) + d.subdirs + SubTraversals(d, |d.subdirs|)
  }

  /** The lists of the first n subdirectories of d, concatenated. */
  function SubTraversals(d: Dir, n: nat): (r: seq<Dir>)
    requires n <= |d.subdirs|
    decreases d, 0, n
  {
    if n == 0 then [] else SubTraversals(d, n - 1) + Traversal(d.subdirs[n - 1], false)
  }

  /** Reference definition: the strict descendants of d, each occurrence
      once, with no order: the direct subdirectories and everything below
      each of them. */
  ghost function Descendants(d: Dir): (r: multiset<Dir>)
    decreases d, 1
  {
    multiset(d.subdirs) + ChildDescendants(d, |d.subdirs|)
  }

  /** The strict descendants of the first n subdirectories of d. */
  ghost function ChildDescendants(d: Dir, n: nat): (r: multiset<Dir>)
    requires n <= |d.subdirs|
    decreases d, 0, n
  {
    if n == 0 then multiset{} else ChildDescendants(d, n - 1) + Descendants(d.subdirs[n - 1])
  }

  /** The traversal without d lists exactly the strict descendants of d,
      each occurrence exactly once. */
  lemma {:induction false} TraversalIsDescendants(d: Dir)
    ensures multiset(Traversal(d, false)) == Descendants(d)
    decreases d, 1
  {
    SubTraversalsAreDescendants(d, |d.subdirs|);
  }

  lemma {:induction false} SubTraversalsAreDescendants(d: Dir, n: nat)
    requires n <= |d.subdirs|
    ensures multiset(SubTraversals(d, n)) == ChildDescendants(d, n)
    decreases d, 0, n
  {
    if n > 0 {
      SubTraversalsAreDescendants(d, n - 1);
      TraversalIsDescendants(d.subdirs[n - 1]);
    }
  }

  /** The list has one entry per strict descendant, plus one for d itself
      when includeSelf holds. */
  lemma TraversalLength(d: Dir, includeSelf: bool)
    ensures |Traversal(d, includeSelf)| == |Descendants(d)| + (if includeSelf then 1 else 0)
  {
    TraversalIsDescendants(d);
    assert |multiset(Traversal(d, false))| == |Traversal(d, false)|;
  }

  /** The descendants of the i-th subdirectory are among those of the first n. */
  lemma {:induction false} ChildDescendantsInclude(d: Dir, n: nat, i: nat)
    requires i < n <= |d.subdirs|
    ensures Descendants(d.subdirs[i]) <= ChildDescendants(d, n)
    decreases n
  {
    if i < n - 1 {
      ChildDescendantsInclude(d, n - 1, i);
    }
  }

  /** A strict descendant has fewer descendants than its ancestor, so it is
      never the ancestor itself. */
  lemma {:induction false} DescendantsShrink(x: Dir, d: Dir)
    requires x in Descendants(d)
    ensures |Descendants(x)| < |Descendants(d)|
    decreases d, 1
  {
    var n := |d.subdirs|;
    assert |Descendants(d)| == n + |ChildDescendants(d, n)|;
    if x in d.subdirs {
      var i :| 0 <= i < n && d.subdirs[i] == x;
      ChildDescendantsInclude(d, n, i);
      var below := ChildDescendants(d, n);
      assert below == Descendants(x) + (below - Descendants(x));
    } else {
      ChildDescendantsShrink(x, d, n);
    }
  }

  lemma {:induction false} ChildDescendantsShrink(x: Dir, d: Dir, n: nat)
    requires n <= |d.subdirs|
    requires x in ChildDescendants(d, n)
    ensures |Descendants(x)| < |ChildDescendants(d, n)|
    decreases d, 0, n
  {
    var c := d.subdirs[n - 1];
    if x in ChildDescendants(d, n - 1) {
      ChildDescendantsShrink(x, d, n - 1);
    } else {
      DescendantsShrink(x, c);
    }
  }

  /** With includeSelf the list starts with d; without it, d never appears. */
  lemma TraversalSelf(d: Dir)
    ensures Traversal(d, true) == [d] + Traversal(d, false)
    ensures Traversal(d, true)[0] == d
    ensures d !in Traversal(d, false)
  {
    TraversalIsDescendants(d);
    if d in Traversal(d, false) {
      assert d in multiset(Traversal(d, false));
      DescendantsShrink(d, d);
    }
  }

  /** The direct subdirectories of d come together, in listing order, right
      after the optional d. */
  lemma TraversalChildrenFirst(d: Dir, includeSelf: bool)
    ensures var k := if includeSelf then 1 else 0;
      k + |d.subdirs| <= |Traversal(d, includeSelf)| &&
      Traversal(d, includeSelf)[k..k + |d.subdirs|] == d.subdirs
  {
  }

  /** Every entry of s is a direct subdirectory of d or a direct
      subdirectory of an earlier entry. */
  ghost predicate ParentsBefore(s: seq<Dir>, d: Dir)
  {
    forall j :: 0 <= j < |s| ==>
      s[j] in d.subdirs || exists i :: 0 <= i < j && s[j] in s[i].subdirs
  }

  lemma {:induction false} TraversalParentsBefore(d: Dir)
    ensures ParentsBefore(Traversal(d, false), d)
    decreases d, 1
  {
    SubTraversalsParentsBefore(d, |d.subdirs|);
    assert Traversal(d, false) == d.subdirs + SubTraversals(d, |d.subdirs|);
  }

  lemma {:induction false} SubTraversalsParentsBefore(d: Dir, n: nat)
    requires n <= |d.subdirs|
    ensures ParentsBefore(d.subdirs + SubTraversals(d, n), d)
    decreases d, 0, n
  {
    if n > 0 {
      var c := d.subdirs[n - 1];
      var u := d.subdirs + SubTraversals(d, n - 1);
      var t := Traversal(c, false);
      SubTraversalsParentsBefore(d, n - 1);
      TraversalParentsBefore(c);
      var s := d.subdirs + SubTraversals(d, n);
      assert s == u + t;
      forall j | 0 <= j < |s|
        ensures s[j] in d.subdirs || exists i :: 0 <= i < j && s[j] in s[i].subdirs
      {
        if j < |u| {
          assert s[j] == u[j];
          if s[j] !in d.subdirs {
            var i :| 0 <= i < j && u[j] in u[i].subdirs;
            assert s[i] == u[i];
          }
        } else {
          var m := j - |u|;
          assert s[j] == t[m];
          if t[m] in c.subdirs {
            assert s[n - 1] == c;
          } else {
            var i :| 0 <= i < m && t[m] in t[i].subdirs;
            assert s[|u| + i] == t[i];
          }
        }
      }
    }
  }

  /** In the full list every directory after the first comes after its
      parent. */
  lemma TraversalParentFirst(d: Dir)
    ensures forall j :: 0 < j < |Traversal(d, true)| ==>
      exists i :: 0 <= i < j && Traversal(d, true)[j] in Traversal(d, true)[i].subdirs
  {
    var s := Traversal(d, true);
    var t := Traversal(d, false);
    assert s == [d] + t;
    TraversalParentsBefore(d);
    forall j | 0 < j < |s|
      ensures exists i :: 0 <= i < j && s[j] in s[i].subdirs
    {
      assert s[j] == t[j - 1];
      if t[j - 1] in d.subdirs {
        assert s[0] == d;
        assert 0 < j && s[j] in s[0].subdirs;
      } else {
        var i :| 0 <= i < j - 1 && t[j - 1] in t[i].subdirs;
        assert s[i + 1] == t[i];
        assert 0 <= i + 1 < j && s[j] in s[i + 1].subdirs;
      }
    }
  }

  /** The order is not pre-order: with a root whose subdirectories are a
      and b, and a whose only subdirectory is x, b is listed before x. */
  lemma ChildrenBeforeGrandchildren(root: Dir, a: Dir, b: Dir, x: Dir)
    requires root.subdirs == [a, b] && a.subdirs == [x] && b.subdirs == [] && x.subdirs == []
    ensures Traversal(root, true) == [root, a, b, x]
  {
    assert Traversal(x, false) == [] by {
      assert SubTraversals(x, 0) == [];
    }
    assert Traversal(b, false) == [] by {
      assert SubTraversals(b, 0) == [];
    }
    assert Traversal(a, false) == [x] by {
      assert SubTraversals(a, 1) == SubTraversals(a, 0) + Traversal(x, false) == [];
    }
    assert SubTraversals(root, 2) == SubTraversals(root, 1) + Traversal(b, false);
    assert SubTraversals(root, 1) == SubTraversals(root, 0) + Traversal(a, false);
  }

  /** Every subdirectory's full name extends its parent's, as it does for
      names built by the filesystem listing. */
  ghost predicate Nested(d: Dir)
    decreases d
  {
    forall i :: 0 <= i < |d.subdirs| ==> d.path < d.subdirs[i].path && Nested(d.subdirs[i])
  }

  /** In a nested tree the full name of every strict descendant extends the
      root's full name. */
  lemma {:induction false} NestedDescendantPaths(x: Dir, d: Dir)
    requires Nested(d) && x in Descendants(d)
    ensures d.path < x.path
    decreases d, 1
  {
    if x !in d.subdirs {
      NestedChildPaths(x, d, |d.subdirs|);
    }
  }

  lemma {:induction false} NestedChildPaths(x: Dir, d: Dir, n: nat)
    requires n <= |d.subdirs|
    requires Nested(d) && x in ChildDescendants(d, n)
    ensures d.path < x.path
    decreases d, 0, n
  {
    var c := d.subdirs[n - 1];
    if x in ChildDescendants(d, n - 1) {
      NestedChildPaths(x, d, n - 1);
    } else {
      NestedDescendantPaths(x, c);
    }
  }

  /** c is the full name of a direct subdirectory of a folder named p: p, a
      separator, and a non-empty name holding no separator
      (DirectoryInfo.FullName of an entry that GetDirectories returns). */
  predicate IsChild(p: string, c: string)
  {
    |p| + 1 < |c| && c[..|p|] == p && c[|p|] == Sep && Sep !in c[|p| + 1..]
  }

  /** A tree whose root full name does not end with a separator, with the
      names a filesystem listing gives below it: no folder's full name ends
      with a separator, each subdirectory's full name is its parent's, a
      separator and its own name, no two subdirectories of a folder share a
      name, and no subdirectory has the name of a file of the same folder.
      The first condition excludes every root that ends with a separator:
      a drive root such as C:\ and equally a folder typed with a trailing
      separator such as C:\src\, which DirectoryInfo keeps in its full
      name (see TrailingSeparatorDropsChar for what happens then). */
  ghost predicate WellNamed(d: Dir)
    decreases d
  {
    WellNamedFolder(d) && forall i :: 0 <= i < |d.subdirs| ==> WellNamed(d.subdirs[i])
  }

  /** The conditions of WellNamed on one folder and its direct entries. */
  ghost predicate WellNamedFolder(d: Dir)
  {
    && d.path != "" && d.path[|d.path| - 1] != Sep
    && (forall i :: 0 <= i < |d.subdirs| ==> IsChild(d.path, d.subdirs[i].path))
    && (forall i, k :: 0 <= i < k < |d.subdirs| ==> d.subdirs[i].path != d.subdirs[k].path)
    && (forall i, n :: 0 <= i < |d.subdirs| && n in d.files ==> d.subdirs[i].path != Join(d.path, n))
  }

  /** x is d or one of its strict descendants. */
  ghost predicate InTree(x: Dir, d: Dir)
  {
    x == d || x in Descendants(d)
  }

  /** Every entry of the full list is in the tree. */
  lemma TraversalInTree(d: Dir, x: Dir)
    requires x in Traversal(d, true)
    ensures InTree(x, d)
  {
    TraversalSelf(d);
    TraversalIsDescendants(d);
    if x != d {
      assert x in Traversal(d, false);
      assert x in multiset(Traversal(d, false));
    }
  }

  /** A strict descendant lies in the tree of one of the subdirectories. */
  lemma DescendantsSplit(d: Dir, x: Dir)
    requires x in Descendants(d)
    ensures exists k :: 0 <= k < |d.subdirs| && InTree(x, d.subdirs[k])
  {
    if x in multiset(d.subdirs) {
      var k :| 0 <= k < |d.subdirs| && d.subdirs[k] == x;
      assert InTree(x, d.subdirs[k]);
    } else {
      ChildDescendantsSplit(d, |d.subdirs|, x);
    }
  }

  lemma {:induction false} ChildDescendantsSplit(d: Dir, n: nat, x: Dir)
    requires n <= |d.subdirs| && x in ChildDescendants(d, n)
    ensures exists k :: 0 <= k < n && InTree(x, d.subdirs[k])
    decreases n
  {
    if x in ChildDescendants(d, n - 1) {
      ChildDescendantsSplit(d, n - 1, x);
    } else {
      assert InTree(x, d.subdirs[n - 1]);
    }
  }

  /** In a well-named tree every strict descendant is well named, and its
      full name is the root's, a separator, and a non-empty part that does
      not start with a separator. */
  lemma {:induction false} WellNamedDescendant(d: Dir, x: Dir)
    requires WellNamed(d) && x in Descendants(d)
    ensures WellNamed(x) && AtOrBelow(d.path, x.path)
    ensures |d.path| + 1 < |x.path| && x.path[|d.path| + 1] != Sep && x.path[|x.path| - 1] != Sep
    decreases d
  {
    DescendantsSplit(d, x);
    var k :| 0 <= k < |d.subdirs| && InTree(x, d.subdirs[k]);
    var c := d.subdirs[k];
    assert IsChild(d.path, c.path);
    assert c.path[|d.path| + 1] in c.path[|d.path| + 1..];
    if x != c {
      WellNamedDescendant(c, x);
      AtOrBelowTrans(d.path, c.path, x.path);
      assert x.path[|d.path| + 1] == x.path[..|c.path|][|d.path| + 1];
    }
  }

  /** Well-named trees are nested. */
  lemma {:induction false} WellNamedNested(d: Dir)
    requires WellNamed(d)
    ensures Nested(d)
    decreases d
  {
    forall i | 0 <= i < |d.subdirs|
      ensures d.path < d.subdirs[i].path && Nested(d.subdirs[i])
    {
      WellNamedNested(d.subdirs[i]);
    }
  }

  /** A subdirectory's full name is its parent's, a separator and a name. */
  lemma ChildName(d: Dir, k: nat)
    requires WellNamed(d) && k < |d.subdirs|
    ensures var m := d.subdirs[k].path[|d.path| + 1..];
      m != "" && Sep !in m && d.subdirs[k].path == d.path + [Sep] + m
  {
    var c := d.subdirs[k].path;
    assert IsChild(d.path, c);
    assert c == c[..|d.path|] + [c[|d.path|]] + c[|d.path| + 1..];
  }

  /** Every folder of a well-named tree is well named and lies at or
      below the root. */
  lemma InTreeBelow(d: Dir, x: Dir)
    requires WellNamed(d) && InTree(x, d)
    ensures WellNamed(x) && AtOrBelow(d.path, x.path)
  {
    if x != d {
      WellNamedDescendant(d, x);
    }
  }

  /** The full name of a file of x is x's name, a separator and the file's
      name. */
  lemma FilePath(x: Dir, n: Name)
    requires WellNamed(x)
    ensures Join(x.path, n) == x.path + [Sep] + n && AtOrBelow(x.path, Join(x.path, n))
  {
    assert n[0] in n;
    JoinBetween(x.path, n);
    assert (x.path + [Sep] + n)[..|x.path|] == x.path;
  }

  /** In a well-named tree no folder lies at or below the full name of a
      file: the mirrored path of a file is never taken by a mirrored
      folder. */
  lemma {:induction false} NoFolderAtFile(d: Dir, x: Dir, n: Name, y: Dir)
    requires WellNamed(d) && InTree(x, d) && InTree(y, d) && n in x.files
    ensures !AtOrBelow(Join(x.path, n), y.path)
    decreases d
  {
    InTreeBelow(d, x);
    InTreeBelow(d, y);
    FilePath(x, n);
    if y == d {
      assert |y.path| <= |x.path| < |Join(x.path, n)|;
    } else {
      DescendantsSplit(d, y);
      var l :| 0 <= l < |d.subdirs| && InTree(y, d.subdirs[l]);
      if x == d {
        NoFolderAtOwnFile(d, n, l, y);
      } else {
        DescendantsSplit(d, x);
        var k :| 0 <= k < |d.subdirs| && InTree(x, d.subdirs[k]);
        if k == l {
          NoFolderAtFile(d.subdirs[k], x, n, y);
        } else {
          NoFolderAcross(d, k, l, x, n, y);
        }
      }
    }
  }

  /** No folder below a subdirectory lies at or below a file of the parent:
      the file and the subdirectory would share a name. */
  lemma NoFolderAtOwnFile(d: Dir, n: Name, l: nat, y: Dir)
    requires WellNamed(d) && n in d.files && l < |d.subdirs| && InTree(y, d.subdirs[l])
    ensures !AtOrBelow(Join(d.path, n), y.path)
  {
    var cl := d.subdirs[l];
    InTreeBelow(cl, y);
    ChildName(d, l);
    var ml: Name := cl.path[|d.path| + 1..];
    FilePath(d, n);
    NameAtOrBelowUnique(d.path, n, ml, y.path);
    assert cl.path != Join(d.path, n);
  }

  /** No folder below one subdirectory lies at or below a file below
      another subdirectory: the two subdirectories would share a name. */
  lemma NoFolderAcross(d: Dir, k: nat, l: nat, x: Dir, n: Name, y: Dir)
    requires WellNamed(d) && k < |d.subdirs| && l < |d.subdirs| && k != l
    requires InTree(x, d.subdirs[k]) && InTree(y, d.subdirs[l]) && n in x.files
    ensures !AtOrBelow(Join(x.path, n), y.path)
  {
    var ck, cl := d.subdirs[k], d.subdirs[l];
    InTreeBelow(ck, x);
    InTreeBelow(cl, y);
    FilePath(x, n);
    AtOrBelowTrans(ck.path, x.path, Join(x.path, n));
    AtOrBelowTrans(ck.path, Join(x.path, n), y.path);
    ChildName(d, k);
    ChildName(d, l);
    var mk: Name, ml: Name := ck.path[|d.path| + 1..], cl.path[|d.path| + 1..];
    NameAtOrBelowUnique(d.path, mk, ml, y.path);
    assert ck.path != cl.path;
  }
}
