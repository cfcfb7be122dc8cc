/** Path strings: ASCII upper-casing, the path join used to build destination
    paths, and the relative-path computation of the copy engine
    (xcopy/XCopy.cs, GetRelativePath). */
module Paths {

  /** The directory separator of the Windows paths the tool works on. */
  const Sep: char := '\\'

  /** The one failure GetRelativePath reports: an ArgumentException naming both folders. */
  datatype Error = NotASubfolder(subfolder: string, root: string)

  datatype Result<T> = Ok(value: T) | Err(error: Error)

  /** The name of a file inside a folder (FileInfo.Name): never empty and
      never holding a separator. */
  type Name = s: string | s != "" && Sep !in s witness "f"

  predicate IsLower(c: char)
  {
    'a' <= c <= 'z'
  }

  /** Upper-casing of one character, restricted to ASCII letters. */
  function UpperChar(c: char): (r: char)
  {
    if IsLower(c) then (c as int - 32) as char else c
  }

  /** String.ToUpper, restricted to ASCII letters; keeps the length. */
  function Upper(s: string): (r: string)
    ensures |r| == |s|
  {
    seq(|s|, i requires 0 <= i < |s| => UpperChar(s[i]))
  }

  /** Upper-casing leaves no lower-case letter, changes nothing but
      lower-case letters, and a second upper-casing changes nothing. */
  lemma UpperFolds(s: string)
    ensures forall i :: 0 <= i < |s| ==> !IsLower(Upper(s)[i]) && (IsLower(s[i]) || Upper(s)[i] == s[i])
    ensures Upper(Upper(s)) == Upper(s)
  {
  }

  lemma UpperAppend(a: string, b: string)
    ensures Upper(a + b) == Upper(a) + Upper(b)
  {
    assert forall i :: 0 <= i < |a + b| ==> Upper(a + b)[i] == (Upper(a) + Upper(b))[i];
  }

  /** A prefix stays a prefix after upper-casing. */
  lemma UpperPrefix(a: string, b: string)
    requires a <= b
    ensures Upper(a) <= Upper(b)
  {
    assert b == a + b[|a|..];
    UpperAppend(a, b[|a|..]);
  }

  /** Path.Combine(a, b): an empty part is dropped; a second part that
      starts with a separator is rooted and replaces the first; otherwise
      a separator is put between the parts unless the first already ends
      with one. */
  function Join(a: string, b: string): (r: string)
  {
    if b == "" then a
    else if a == "" then b
    else if b[0] == Sep then b
    else if a[|a| - 1] == Sep then a + b
    else a + [Sep] + b
  }

  /** A join ends with its second part, and, unless that part is rooted,
      starts with its first part and adds at most one separator. */
  lemma JoinEnds(a: string, b: string)
    ensures |b| <= |Join(a, b)| && Join(a, b)[|Join(a, b)| - |b|..] == b
    ensures b == "" || b[0] != Sep ==> a <= Join(a, b) && |Join(a, b)| <= |a| + 1 + |b|
  {
  }

  /** Joining onto the same directory never maps two relative parts to one
      path. */
  lemma JoinInjective(a: string, b1: string, b2: string)
    requires b1 == "" || b1[0] != Sep
    requires b2 == "" || b2[0] != Sep
    requires Join(a, b1) == Join(a, b2)
    ensures b1 == b2
  {
    var j1, j2 := Join(a, b1), Join(a, b2);
    if b1 != "" && b2 != "" && a != "" {
      if a[|a| - 1] == Sep {
        assert b1 == j1[|a|..] && b2 == j2[|a|..];
      } else {
        assert b1 == j1[|a| + 1..] && b2 == j2[|a| + 1..];
      }
    } else if b1 == "" || b2 == "" {
      assert |j1| >= |a| + |b1| && |j2| >= |a| + |b2|;
    }
  }

  /** s is the path a itself or lies below it: a, a separator, and more. */
  predicate AtOrBelow(a: string, s: string)
  {
    s == a || (|a| < |s| && s[..|a|] == a && s[|a|] == Sep)
  }

  /** Being at or below is transitive. */
  lemma AtOrBelowTrans(a: string, b: string, c: string)
    ensures AtOrBelow(a, b) && AtOrBelow(b, c) ==> AtOrBelow(a, c)
  {
    if AtOrBelow(a, b) && AtOrBelow(b, c) && a != b && b != c {
      assert c[..|a|] == c[..|b|][..|a|];
      assert c[|a|] == c[..|b|][|a|];
    }
  }

  /** A common prefix changes nothing in being at or below. */
  lemma AtOrBelowShift(p: string, x: string, y: string)
    ensures AtOrBelow(p + x, p + y) <==> AtOrBelow(x, y)
  {
    if |x| < |y| {
      assert (p + y)[..|p + x|] == p + y[..|x|];
      assert (p + y)[|p + x|] == y[|x|];
      assert (p + y[..|x|] == p + x) <==> (y[..|x|] == x) by {
        if p + y[..|x|] == p + x {
          assert y[..|x|] == (p + y[..|x|])[|p|..];
        }
      }
    }
    assert (p + x == p + y) <==> (x == y) by {
      if p + x == p + y {
        assert x == (p + x)[|p|..];
      }
    }
  }

  /** The first separator of s at or after i, or the end of s. */
  function NextSep(s: string, i: nat): (r: nat)
    requires i <= |s|
    ensures i <= r <= |s| && Sep !in s[i..r]
    decreases |s| - i
  {
    if i == |s| || s[i] == Sep then i else NextSep(s, i + 1)
  }

  /** A name that starts at i and is followed by a separator or the end of
      s reaches exactly up to NextSep(s, i). */
  lemma {:induction false} NextSepAfterName(s: string, i: nat, a: string)
    requires Sep !in a && i + |a| <= |s| && s[i..i + |a|] == a
    requires i + |a| == |s| || s[i + |a|] == Sep
    ensures NextSep(s, i) == i + |a|
    decreases |a|
  {
    if a != [] {
      assert s[i] == a[0] && a[0] in a;
      assert s[i + 1..i + |a|] == a[1..];
      NextSepAfterName(s, i + 1, a[1..]);
    }
  }

  /** Two names below the same folder that both lie at or above a path are
      the same name: each reaches up to the next separator of the path. */
  lemma NameAtOrBelowUnique(p: string, a: Name, b: Name, s: string)
    ensures AtOrBelow(p + [Sep] + a, s) && AtOrBelow(p + [Sep] + b, s) ==> a == b
  {
    var pa, pb := p + [Sep] + a, p + [Sep] + b;
    if AtOrBelow(pa, s) && AtOrBelow(pb, s) {
      var i := |p| + 1;
      assert s[..|pa|] == pa && s[..|pb|] == pb;
      assert s[i..i + |a|] == pa[i..] == a;
      assert s[i..i + |b|] == pb[i..] == b;
      NextSepAfterName(s, i, a);
      NextSepAfterName(s, i, b);
    }
  }

  /** What Join puts in front of a part that is neither empty nor rooted. */
  function Pre(a: string): (r: string)
    ensures a <= r && |r| <= |a| + 1
  {
    if a == "" || a[|a| - 1] == Sep then a else a + [Sep]
  }

  /** A relative part as GetRelativePath returns it below a folder that
      does not end with a separator: empty, or starting and ending with
      something other than a separator. */
  predicate PlainRel(rel: string)
  {
    rel == "" || (rel[0] != Sep && rel[|rel| - 1] != Sep)
  }

  /** Joining a part that is not rooted puts it after Pre of the folder. */
  lemma JoinPlain(a: string, rel: string)
    requires rel != "" && rel[0] != Sep
    ensures Join(a, rel) == Pre(a) + rel
  {
  }

  /** Joining two parts neither of which has a separator at the seam puts
      one separator between them. */
  lemma JoinBetween(a: string, b: string)
    requires a != "" && a[|a| - 1] != Sep
    requires b != "" && b[0] != Sep
    ensures Join(a, b) == a + [Sep] + b
  {
  }

  lemma SeqAssoc(x: string, y: string, z: string)
    ensures x + y + z == x + (y + z)
  {
  }

  /** A path strictly below a folder that does not end with a separator,
      whose part after the folder's separator neither starts nor ends with
      a separator, is the folder joined with that part. */
  lemma PlainBelow(a: string, s: string)
    requires a != "" && a[|a| - 1] != Sep
    requires AtOrBelow(a, s) && |a| + 1 < |s| && s[|a| + 1] != Sep && s[|s| - 1] != Sep
    ensures s[|a| + 1..] != "" && PlainRel(s[|a| + 1..])
    ensures s == Join(a, s[|a| + 1..])
  {
    var rel := s[|a| + 1..];
    assert rel[0] == s[|a| + 1] && rel[|rel| - 1] == s[|s| - 1];
    assert s == s[..|a|] + [s[|a|]] + rel;
    JoinBetween(a, rel);
  }

  /** Moving a path from below one root to below another: a path that is
      not at or above the folder Join(src, rel) stays so when Pre(src) is
      replaced by Pre(dest) in it and src by dest in the folder. */
  lemma RebaseNotBelow(src: string, dest: string, a: string, rel: string)
    requires a != "" && PlainRel(rel)
    requires !AtOrBelow(Pre(src) + a, Join(src, rel))
    ensures !AtOrBelow(Pre(dest) + a, Join(dest, rel))
  {
    if rel == "" {
      assert |Pre(dest) + a| > |dest|;
    } else {
      JoinPlain(dest, rel);
      JoinPlain(src, rel);
      AtOrBelowShift(Pre(dest), a, rel);
      AtOrBelowShift(Pre(src), a, rel);
    }
  }

  /** Joining a plain relative part and then a name is joining the name
      onto the part, after Pre of the folder. */
  lemma JoinTwice(a: string, rel: string, n: Name)
    requires PlainRel(rel)
    ensures Join(Join(a, rel), n) == Pre(a) + Join(rel, n)
  {
    assert n[0] in n;
    if rel == "" {
      JoinPlain(a, n);
    } else {
      JoinPlain(a, rel);
      var j := Pre(a) + rel;
      assert j[|j| - 1] == rel[|rel| - 1];
      JoinBetween(j, n);
      JoinBetween(rel, n);
      SeqAssoc(Pre(a), rel, [Sep] + n);
    }
  }

  /** GetRelativePath(root, subfolder) on the two full names. A result is
      always a tail of the subfolder's name, and the error names both
      folders. */
  function GetRelativePath(root: string, subfolder: string): (r: Result<string>)
    ensures r.Ok? ==> |r.value| <= |subfolder| && r.value == subfolder[|subfolder| - |r.value|..]
    ensures r.Err? ==> r.error == NotASubfolder(subfolder, root)
  {
    var rootUpper := Upper(root);
    var subUpper := Upper(subfolder);
    if rootUpper == subUpper then Ok("")
    else if !(rootUpper <= subUpper) then Err(NotASubfolder(subfolder, root))
    else Ok(subfolder[|root| + 1..])
  }

  /** The three outcomes of GetRelativePath: the empty string when the
      full names are equal ignoring case; an error, naming both folders,
      exactly when the upper-cased subfolder does not start with the
      upper-cased root; and otherwise the part of the subfolder's name
      after the root and one more character, so that the subfolder is,
      ignoring case, the root, one character and the result. */
  lemma RelativePathCases(root: string, subfolder: string)
    ensures var r := GetRelativePath(root, subfolder);
      && (Upper(root) == Upper(subfolder) ==> r == Ok(""))
      && (r.Err? <==> !(Upper(root) <= Upper(subfolder)))
      && (r.Err? ==> r.error == NotASubfolder(subfolder, root))
      && (r.Ok? && Upper(root) != Upper(subfolder) ==>
            && |root| < |subfolder|
            && |r.value| == |subfolder| - |root| - 1
            && subfolder == subfolder[..|root| + 1] + r.value
            && Upper(subfolder) == Upper(root) + [UpperChar(subfolder[|root|])] + Upper(r.value))
  {
    if Upper(root) != Upper(subfolder) && Upper(root) <= Upper(subfolder) {
      var rel := subfolder[|root| + 1..];
      assert subfolder == subfolder[..|root|] + [subfolder[|root|]] + rel;
      UpperAppend(subfolder[..|root|] + [subfolder[|root|]], rel);
      UpperAppend(subfolder[..|root|], [subfolder[|root|]]);
      assert Upper(subfolder[..|root|]) == Upper(root);
    }
  }

  /** The empty relative path comes back exactly when the names are equal
      ignoring case, or when the subfolder is the root plus one character. */
  lemma RelativePathEmpty(root: string, subfolder: string)
    ensures GetRelativePath(root, subfolder) == Ok("") <==>
      Upper(root) == Upper(subfolder) ||
      (Upper(root) <= Upper(subfolder) && |subfolder| == |root| + 1)
  {
    RelativePathCases(root, subfolder);
  }

  /** Relative-path computation on a strict descendant name gives the plain
      part after the root's separator, and joining it back gives the name. */
  lemma BelowRelative(a: string, s: string)
    requires a != "" && a[|a| - 1] != Sep
    requires AtOrBelow(a, s) && |a| + 1 < |s| && s[|a| + 1] != Sep && s[|s| - 1] != Sep
    ensures GetRelativePath(a, s).Ok?
    ensures PlainRel(GetRelativePath(a, s).value)
    ensures s == Join(a, GetRelativePath(a, s).value)
  {
    PlainBelow(a, s);
    RelativePathOfJoin(a, s[|a| + 1..]);
  }

  /** Relative-path computation undoes a join of a relative part onto a
      root that does not end with a separator; the empty part gives the
      root itself and the empty relative path. */
  lemma RelativePathOfJoin(root: string, rel: string)
    requires root != "" && root[|root| - 1] != Sep
    requires rel == "" || rel[0] != Sep
    ensures GetRelativePath(root, Join(root, rel)) == Ok(rel)
  {
    if rel == "" {
      return;
    }
    var sub := Join(root, rel);
    assert sub == root + ([Sep] + rel);
    UpperPrefix(root, sub);
    assert |Upper(sub)| != |Upper(root)|;
    assert sub[|root| + 1..] == rel;
  }

  /** A root that ends with a separator (a drive root such as C:\) loses the
      first character of every relative part, because one more character
      than the root is always skipped. */
  lemma TrailingSeparatorDropsChar(root: string, rel: string)
    requires root != "" && root[|root| - 1] == Sep && rel != "" && rel[0] != Sep
    ensures GetRelativePath(root, Join(root, rel)) == Ok(rel[1..])
  {
    var sub := Join(root, rel);
    assert sub == root + rel;
    UpperPrefix(root, sub);
    assert |Upper(sub)| != |Upper(root)|;
    assert sub[|root| + 1..] == rel[1..];
  }

  /** The prefix test does not look for a separator: C:\testing counts as a
      subfolder of C:\test, with relative part "ng". */
  lemma NoSeparatorCheck()
    ensures GetRelativePath("C:\\test", "C:\\testing") == Ok("ng")
  {
    UpperPrefix("C:\\test", "C:\\testing");
    assert |Upper("C:\\test")| != |Upper("C:\\testing")|;
    assert "C:\\testing"[8..] == "ng";
  }
}
