/** Folder path names: normalisation and splitting. */
module Paths {

  const SEP := '/'

  // ---- The names on a path

  /** The finished names and the name being read. */
  function Scan(s: string): (seq<string>, string) {
    if s == "" then ([], "")
    else
      var (names, name) := Scan(s[..|s|-1]);
      var c := s[|s|-1];
      if c != SEP then (names, name + [c])
      else if name == "" then (names, "")
      else (names + [name], "")
  }

  /** The names between separators; repeated separators count once. */
  function Names(s: string): seq<string> {
    var (names, name) := Scan(s);
    if name == "" then names else names + [name]
  }

  predicate Single(s: string) {
    forall i :: 0 <= i < |s| - 1 ==> s[i] != SEP || s[i+1] != SEP
  }

  /** One separator in front, none doubled, none at the end except for the root. */
  predicate Normal(s: string) {
    && s != "" && s[0] == SEP && Single(s)
    && (|s| > 1 ==> s[|s|-1] != SEP)
  }

  /** The normal form of a list of names. */
  function Open(names: seq<string>): string {
    if names == [] then "" else Open(names[..|names|-1]) + [SEP] + names[|names|-1]
  }

  function Rendered(names: seq<string>): string {
    if names == [] then [SEP] else Open(names)
  }

  /** A path in the making is the finished names followed by the one being read. */
  lemma {:induction false} ScanShape(s: string)
    requires s != "" && s[0] == SEP && Single(s)
    ensures var (names, name) := Scan(s); s == Open(names) + [SEP] + name
    ensures Scan(s).1 == "" <==> s[|s|-1] == SEP
  {
    var front, c := s[..|s|-1], s[|s|-1];
    assert s == front + [c];
    if front == "" {
      assert Scan(front) == ([], "");
    } else {
      ScanShape(front);
      var (names, name) := Scan(front);
      if c == SEP {
        assert name != "";
        assert (names + [name])[..|names|] == names;
      }
    }
  }

  /** Normal paths are determined by their names. */
  lemma NormalIsRendered(s: string)
    requires Normal(s)
    ensures s == Rendered(Names(s))
  {
    ScanShape(s);
    var (names, name) := Scan(s);
    if name != "" {
      assert (names + [name])[..|names|] == names;
    } else {
      assert |s| == 1 && s == [SEP];
      assert Scan(s[..0]) == ([], "");
    }
  }

  // ---- Normalisation

  /** Start with a separator and leave out every separator that follows one. */
  function Squeezed(s: string): (r: string)
    ensures r != "" && r[0] == SEP && Single(r) && |r| <= |s| + 1
    ensures s != "" && s[0] == SEP ==> |r| <= |s|
  {
    if s == "" then [SEP]
    else
      var r := Squeezed(s[..|s|-1]);
      var c := s[|s|-1];
      if r[|r|-1] == SEP && c == SEP then r else r + [c]
  }

  function Trimmed(r: string): string {
    if |r| > 1 && r[|r|-1] == SEP then r[..|r|-1] else r
  }

  function Normalized(s: string): string {
    Trimmed(Squeezed(s))
  }

  lemma {:induction false} SqueezeKeepsNames(s: string)
    ensures Scan(Squeezed(s)) == Scan(s)
  {
    if s == "" {
      assert Squeezed(s)[..0] == "" && Scan("") == ([], "");
    } else {
      SqueezeKeepsNames(s[..|s|-1]);
      var r, c := Squeezed(s[..|s|-1]), s[|s|-1];
      if r[|r|-1] == SEP && c == SEP {
        ScanShape(r);
      } else {
        assert (r + [c])[..|r|] == r;
      }
    }
  }

  lemma TrimKeepsNames(r: string)
    ensures Names(Trimmed(r)) == Names(r)
  {}

  /** Normalising gives the normal path with the same names. */
  lemma NormalizeKeepsNames(s: string)
    ensures Normal(Normalized(s)) && Names(Normalized(s)) == Names(s)
  {
    SqueezeKeepsNames(s);
    TrimKeepsNames(Squeezed(s));
  }

  /** Two spellings normalise alike exactly when they have the same names; normal paths are
      their own normal form. */
  lemma NormalizeIsCanonical(a: string, b: string)
    ensures Normalized(a) == Normalized(b) <==> Names(a) == Names(b)
    ensures Normal(a) ==> Normalized(a) == a
  {
    NormalizeKeepsNames(a);
    NormalizeKeepsNames(b);
    NormalIsRendered(Normalized(a));
    NormalIsRendered(Normalized(b));
    if Normal(a) {
      NormalIsRendered(a);
    }
  }

  lemma OneTrailingSep(r: string)
    requires r != "" && r[0] == SEP && Single(r)
    ensures |r| > 1 && r[|r|-1] == SEP ==> r[|r|-2] != SEP
  {}

  /** normalizePath; a path that does not start with a separator is refused. */
  method NormalizePath(fullPathName: string) returns (ok: bool, normName: string)
    ensures ok <==> fullPathName != "" && fullPathName[0] == SEP
    ensures ok ==> normName == Normalized(fullPathName)
  {
    hide Single;
    normName := "";
    if fullPathName == "" || fullPathName[0] != SEP {
      return false, "";
    }
    normName := normName + [SEP];
    var i := 0;
    while i < |fullPathName|
      invariant 0 <= i <= |fullPathName| && normName == Squeezed(fullPathName[..i])
    {
      assert fullPathName[..i+1][..i] == fullPathName[..i];
      if !(normName[|normName|-1] == SEP && fullPathName[i] == SEP) {
        normName := normName + [fullPathName[i]];
      }
      i := i + 1;
    }
    assert fullPathName[..i] == fullPathName;
    ghost var squeezed := normName;
    OneTrailingSep(squeezed);
    if |normName| > 1 {
      while normName[|normName|-1] == SEP
        invariant normName == squeezed || (normName == Trimmed(squeezed) && normName != "" && normName[|normName|-1] != SEP)
        decreases |normName|
      {
        normName := normName[..|normName|-1];
      }
    }
    ok := true;
  }

  // ---- Splitting

  /** Position of the last separator. */
  function LastSep(s: string): (k: nat)
    requires s != "" && s[0] == SEP
    ensures k < |s| && s[k] == SEP && forall i :: k < i < |s| ==> s[i] != SEP
  {
    if s[|s|-1] == SEP then |s| - 1 else LastSep(s[..|s|-1])
  }

  lemma {:induction false} LastSepIs(s: string, k: nat)
    requires k < |s| && s[0] == SEP && s[k] == SEP && forall i :: k < i < |s| ==> s[i] != SEP
    ensures LastSep(s) == k
  {
    if k < |s| - 1 {
      LastSepIs(s[..|s|-1], k);
    }
  }

  function ParentOf(s: string): string
    requires Normal(s)
  {
    if LastSep(s) == 0 then [SEP] else s[..LastSep(s)]
  }

  function NameOf(s: string): string
    requires Normal(s)
  {
    s[LastSep(s) + 1..]
  }

  /** The parent of a normal path is normal and shorter, except that the root is its own
      parent; parent and name make up the path again. */
  lemma SplitShape(s: string)
    requires Normal(s)
    ensures Normal(ParentOf(s)) && SEP !in NameOf(s)
    ensures s == [SEP] ==> ParentOf(s) == [SEP] && NameOf(s) == ""
    ensures s != [SEP] ==> |ParentOf(s)| < |s| && NameOf(s) != ""
    ensures s != [SEP] ==> s == (if ParentOf(s) == [SEP] then "" else ParentOf(s)) + [SEP] + NameOf(s)
  {
    var k := LastSep(s);
    assert s == s[..k] + [SEP] + s[k+1..];
    if k > 0 {
      assert s[k-1] != SEP;
      assert ParentOf(s)[0] == s[0];
    }
  }

  /** Scanning characters that are no separators only lengthens the name being read. */
  lemma {:induction false} ScanName(s: string, name: string)
    requires SEP !in name
    ensures Scan(s + name) == (Scan(s).0, Scan(s).1 + name)
  {
    if name == "" {
      assert s + name == s;
      assert Scan(s).1 + name == Scan(s).1;
    } else {
      var front, c := name[..|name|-1], name[|name|-1];
      ScanName(s, front);
      assert (s + name)[..|s + name|-1] == s + front;
      assert Scan(s).1 + name == Scan(s).1 + front + [c];
    }
  }

  /** The names of a path are those of its parent and its own. */
  lemma SplitNames(s: string)
    requires Normal(s) && s != [SEP]
    ensures Names(s) == Names(ParentOf(s)) + [NameOf(s)]
  {
    SplitShape(s);
    var parent, name := ParentOf(s), NameOf(s);
    var base := if parent == [SEP] then "" else parent;
    var start := base + [SEP];
    assert s == start + name;
    ScanName(start, name);
    assert start[..|start|-1] == base;
    assert "" + name == name;
    ScanShape(parent);
    if base == "" {
      assert start == [SEP] == parent;
      assert Scan(start).1 == "" && Names(parent) == Scan(start).0;
    } else {
      assert Scan(start) == (Names(parent), "");
    }
  }

  /** splitPath: search the last separator from the end. */
  method SplitPath(fullPathName: string) returns (ok: bool, parent: string, name: string)
    ensures ok <==> fullPathName != "" && fullPathName[0] == SEP
    ensures ok ==> Normal(Normalized(fullPathName))
                   && parent == ParentOf(Normalized(fullPathName)) && name == NameOf(Normalized(fullPathName))
  {
    hide Normalized, LastSep, Single, Names;
    var normName;
    ok, normName := NormalizePath(fullPathName);
    if !ok {
      return false, "", "";
    }
    NormalizeKeepsNames(fullPathName);
    var lastPos := 0;
    var i := |normName| - 1;
    while i > -1
      invariant -1 <= i < |normName| && lastPos == 0
      invariant forall k :: i < k < |normName| ==> normName[k] != SEP
    {
      if normName[i] == SEP {
        lastPos := i;
        break;
      }
      i := i - 1;
    }
    LastSepIs(normName, lastPos);
    if lastPos == 0 {
      parent := [SEP];
    } else {
      parent := normName[..lastPos];
    }
    name := normName[lastPos + 1..];
  }
}
