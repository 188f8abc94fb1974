/** Tagging a whole subtree of folders, and asking whether anything in it is tagged. */
module CondDBTagMgr {
  import opened SqlTable
  import opened Paths
  import opened FolderTree
  import opened VersionedStore
  import VersionedRuns
  import opened MySqlObjectMgr

  datatype TagFolder = TagFolder(tagId: int, fldId: nat)

  // ---- Subtrees

  /** A query by name sees the first row of the name. */
  predicate First(rows: seq<FolderRow>, r: FolderRow) {
    ByPath(rows, r.path) != [] && ByPath(rows, r.path)[0] == r
  }

  /** `path` is the name `below`, or stands above it in the folder tree, where a name hangs
      by its normal form. */
  predicate Above(path: string, below: string) {
    ParentFacts(below);
    path == below || AtOrAbove(path, ParentOf(Normalized(below)))
  }

  /** The row stands at the path or below it, and a query by its name finds it. */
  ghost predicate Below(t: Folders, path: string, r: FolderRow) {
    First(t.rows, r) && Above(path, r.path)
  }

  /** The plain folder with this id stands at the path or below it. */
  ghost predicate Marks(t: Folders, path: string, id: nat) {
    exists r :: Below(t, path, r) && r.id == id && !r.isSet
  }

  lemma {:induction false} AboveTransitive(a: string, b: string, c: string)
    requires Normal(b) && Normal(c) && AtOrAbove(a, b) && AtOrAbove(b, c)
    ensures AtOrAbove(a, c)
    decreases |c|
  {
    SplitShape(c);
    if b != c {
      AboveTransitive(a, b, ParentOf(c));
    }
  }

  /** To stand above a normal name is to be one of its ancestors. */
  lemma AboveNormal(a: string, b: string)
    requires Normal(b)
    ensures Above(a, b) <==> AtOrAbove(a, b)
  {
    hide AtOrAbove, Normal, Normalized, ParentOf;
    ParentFacts(b);
    AboveStep(b);
    RootAbove(a);
  }

  lemma RootAbove(a: string)
    ensures Normal(ROOT) && ParentOf(ROOT) == ROOT && (AtOrAbove(a, ROOT) <==> a == ROOT)
  {
    ParentFacts(ROOT);
    AboveStep(ROOT);
  }

  /** Below a name that stands below another. */
  lemma AboveBoth(a: string, b: string, c: string)
    requires Above(a, b) && Above(b, c)
    ensures Above(a, c)
  {
    hide AtOrAbove, Normal, Normalized, ParentOf;
    ParentFacts(c);
    if b != c {
      AboveIsNormal(b, ParentOf(Normalized(c)));
      AboveNormal(a, b);
      AboveTransitive(a, b, ParentOf(Normalized(c)));
    }
  }

  lemma FirstRow(t: Folders, r: FolderRow)
    requires First(t.rows, r)
    ensures r in t.rows
  {
    QueriesFind(t, r.path);
  }

  lemma IsFirst(t: Folders, path: string)
    requires Taken(t, path)
    ensures ByPath(t.rows, path) != [] && First(t.rows, ByPath(t.rows, path)[0]) && ByPath(t.rows, path)[0].path == path
  {
    QueriesFind(t, path);
  }

  lemma SameRow(t: Folders, r: FolderRow, s: FolderRow)
    requires Grove(t) && r in t.rows && s in t.rows
    ensures r.id == s.id ==> r == s
    ensures Normal(r.path) && r.path == s.path ==> r == s
  {}

  /** The set a row hangs from has a normal name, and so a query by the name finds it. */
  lemma ParentRow(t: Folders, r: FolderRow) returns (p: FolderRow)
    requires Grove(t) && r in t.rows && r.path != ROOT
    ensures p in t.rows && Spelled(r.path) && HangsFrom(r, p) && First(t.rows, p)
  {
    assert Hung(t.rows, r);
    p :| p in t.rows && HangsFrom(r, p);
    NormalIsFirst(t, r, p);
  }

  lemma NormalIsFirst(t: Folders, r: FolderRow, p: FolderRow)
    requires Grove(t) && p in t.rows && Spelled(r.path) && HangsFrom(r, p)
    ensures Normal(p.path) && First(t.rows, p)
  {
    hide Normalized, Normal, ParentOf;
    ParentFacts(r.path);
    IsFirst(t, p.path);
    QueriesFind(t, p.path);
    SameRow(t, p, ByPath(t.rows, p.path)[0]);
  }

  /** A child row by id hangs from the row. */
  lemma ChildRow(t: Folders, a: FolderRow, c: FolderRow)
    requires Grove(t) && a in t.rows && c in t.rows && c.parent == a.id
    ensures Spelled(c.path) && HangsFrom(c, a) && c.path != ROOT
  {
    assert Hung(t.rows, c);
    assert 1 <= a.id;
    var p := ParentRow(t, c);
    SameRow(t, p, a);
  }

  /** Whatever stands below a row and is not the row stands at or below one of its children. */
  lemma {:induction false} BelowSomeChild(t: Folders, a: FolderRow, r: FolderRow) returns (c: FolderRow)
    requires Grove(t) && First(t.rows, a) && Below(t, a.path, r) && r != a
    ensures c in t.rows && c.parent == a.id && Spelled(c.path) && HangsFrom(c, a) && Below(t, c.path, r)
    decreases r.id
  {
    hide Grove, AtOrAbove, Normal, Normalized, ParentOf;
    FirstRow(t, r);
    FirstRow(t, a);
    ParentFacts(r.path);
    RootAbove(a.path);
    assert r.path != a.path;
    if r.path == ROOT {
      ParentFacts(ROOT);
    }
    var p := ParentRow(t, r);
    ParentFacts(p.path);
    AboveNormal(a.path, p.path);
    if p == a {
      c := r;
    } else {
      c := BelowSomeChild(t, a, p);
      AboveStep(p.path);
      AboveBoth(c.path, p.path, r.path);
    }
  }

  lemma BelowChild(t: Folders, a: FolderRow, c: FolderRow, r: FolderRow)
    requires Grove(t) && a in t.rows && c in t.rows && c.parent == a.id && Below(t, c.path, r)
    ensures Below(t, a.path, r)
  {
    hide Grove, Normal, Normalized, ParentOf;
    ChildRow(t, a, c);
    ParentFacts(c.path);
    AboveStep(a.path);
    AboveBoth(a.path, c.path, r.path);
  }

  /** The subtree of a row is the row itself and the subtrees of its children. */
  lemma {:induction false} SubtreeOfChildren(t: Folders, a: FolderRow, r: FolderRow)
    requires Grove(t) && First(t.rows, a)
    ensures Below(t, a.path, r) <==> r == a || exists c :: c in Children(t.rows, a.id) && Below(t, c.path, r)
  {
    hide Grove, AtOrAbove, Normalized, ParentOf, First;
    FirstRow(t, a);
    if Below(t, a.path, r) && r != a {
      var c := BelowSomeChild(t, a, r);
      assert c in Children(t.rows, a.id);
    }
    if c :| c in Children(t.rows, a.id) && Below(t, c.path, r) {
      BelowChild(t, a, c, r);
    }
  }

  /** Nothing stands below a plain folder but itself. */
  lemma MarksPlain(t: Folders, a: FolderRow, id: nat)
    requires Grove(t) && First(t.rows, a) && !a.isSet
    ensures Marks(t, a.path, id) <==> id == a.id
  {
    hide Grove, AtOrAbove, Normalized, ParentOf, First;
    if Marks(t, a.path, id) {
      var r :| Below(t, a.path, r) && r.id == id && !r.isSet;
      if r != a {
        var c := BelowSomeChild(t, a, r);
        assert false;
      }
    }
    assert Below(t, a.path, a);
  }

  lemma MarksSet(t: Folders, a: FolderRow, id: nat)
    requires Grove(t) && First(t.rows, a) && a.isSet
    ensures Marks(t, a.path, id) <==> exists c :: c in Children(t.rows, a.id) && Marks(t, c.path, id)
  {
    hide Grove, Below, First;
    if Marks(t, a.path, id) {
      var r :| Below(t, a.path, r) && r.id == id && !r.isSet;
      SubtreeOfChildren(t, a, r);
      var c :| c in Children(t.rows, a.id) && Below(t, c.path, r);
      assert Marks(t, c.path, id);
    }
    if c :| c in Children(t.rows, a.id) && Marks(t, c.path, id) {
      var r :| Below(t, c.path, r) && r.id == id && !r.isSet;
      SubtreeOfChildren(t, a, r);
    }
  }

  lemma {:induction false} RootAboveAll(path: string)
    requires Normal(path)
    ensures AtOrAbove(ROOT, path)
    decreases |path|
  {
    SplitShape(path);
    if path != ROOT {
      RootAboveAll(ParentOf(path));
    }
  }

  /** From the root every row is reached if and only if no name is stored twice; of the rows
      with one name only the first is. */
  lemma RootReachesAll(t: Folders)
    requires Grove(t)
    ensures (forall r :: r in t.rows ==> Below(t, ROOT, r)) <==>
            forall r, s :: r in t.rows && s in t.rows && r != s ==> r.path != s.path
  {
    hide Grove, AtOrAbove, Normalized, ParentOf;
    forall r | r in t.rows
      ensures Below(t, ROOT, r) <==> First(t.rows, r)
      ensures ByPath(t.rows, r.path) != [] && ByPath(t.rows, r.path)[0] in t.rows && ByPath(t.rows, r.path)[0].path == r.path
    {
      ParentFacts(r.path);
      RootAboveAll(ParentOf(Normalized(r.path)));
      QueriesFind(t, r.path);
    }
  }

  /** Tagging twice is tagging once. */
  lemma TaggedTwice(t: Tables, tagId: int)
    ensures Tagged(Tagged(t, tagId), tagId) == Tagged(t, tagId)
  {}

  function IdOf(t: Folders, path: string): nat {
    if ByPath(t.rows, path) == [] then 0 else ByPath(t.rows, path)[0].id
  }

  lemma IdOfRow(t: Folders, r: FolderRow)
    requires Grove(t) && First(t.rows, r)
    ensures IdOf(t, r.path) == r.id && 1 <= r.id < t.nextId && Taken(t, r.path)
  {
    FirstRow(t, r);
  }

  lemma ChildId(t: Folders, a: FolderRow, c: FolderRow)
    requires Grove(t) && First(t.rows, a) && c in Children(t.rows, a.id)
    ensures a.id < IdOf(t, c.path) < t.nextId && Taken(t, c.path)
  {
    hide Grove, Normalized, ParentOf, First;
    FirstRow(t, a);
    ChildRow(t, a, c);
    var d := ByPath(t.rows, c.path)[0];
    IsFirst(t, c.path);
    FirstRow(t, d);
    var p := ParentRow(t, d);
    ParentFacts(c.path);
    SameRow(t, p, a);
    IdOfRow(t, d);
  }

  // ---- What tagging does to the tables

  ghost predicate MarksAny(t: Folders, paths: seq<string>, id: nat) {
    exists k :: 0 <= k < |paths| && Marks(t, paths[k], id)
  }

  /** The object tables after tagging the subtrees at the paths. */
  ghost function AfterTag(m: map<nat, Tables>, t: Folders, paths: seq<string>, tagId: int): map<nat, Tables> {
    map a | a in m :: if MarksAny(t, paths, a) then Tagged(m[a], tagId) else m[a]
  }

  /** The rows tagging the subtrees adds to the tag-folder table. */
  ghost function FoldersTagged(m: map<nat, Tables>, t: Folders, paths: seq<string>, tagId: int): set<TagFolder> {
    set a | a in m && MarksAny(t, paths, a) && m[a].head != {} :: TagFolder(tagId, a)
  }

  lemma MarksOneMore(t: Folders, paths: seq<string>, path: string, id: nat)
    ensures MarksAny(t, paths + [path], id) <==> MarksAny(t, paths, id) || Marks(t, path, id)
    ensures MarksAny(t, [path], id) <==> Marks(t, path, id)
    ensures !MarksAny(t, [], id)
  {
    hide Marks;
    var more := paths + [path];
    if MarksAny(t, paths, id) {
      var k :| 0 <= k < |paths| && Marks(t, paths[k], id);
      assert more[k] == paths[k];
    }
    assert more[|paths|] == path;
    assert [path][0] == path;
  }

  /** One subtree after others. */
  lemma TagOneMore(m: map<nat, Tables>, t: Folders, paths: seq<string>, path: string, tagId: int)
    ensures AfterTag(AfterTag(m, t, paths, tagId), t, [path], tagId) == AfterTag(m, t, paths + [path], tagId)
    ensures FoldersTagged(m, t, paths, tagId) + FoldersTagged(AfterTag(m, t, paths, tagId), t, [path], tagId)
            == FoldersTagged(m, t, paths + [path], tagId)
  {
    hide MarksAny, Tagged;
    forall a | a in m
      ensures MarksAny(t, paths + [path], a) <==> MarksAny(t, paths, a) || MarksAny(t, [path], a)
      ensures Tagged(Tagged(m[a], tagId), tagId) == Tagged(m[a], tagId) && Tagged(m[a], tagId).head == m[a].head
    {
      MarksOneMore(t, paths, path, a);
      TaggedTwice(m[a], tagId);
      TaggedHead(m[a], tagId);
    }
  }

  lemma TaggedHead(t: Tables, tagId: int)
    ensures Tagged(t, tagId).head == t.head
  {}

  function PathsOf(rows: seq<FolderRow>): (r: seq<string>)
    ensures |r| == |rows| && forall k :: 0 <= k < |rows| ==> r[k] == rows[k].path
  {
    seq(|rows|, k requires 0 <= k < |rows| => rows[k].path)
  }

  /** The children of a set cover its subtree. */
  lemma {:induction false} TagChildren(m: map<nat, Tables>, t: Folders, a: FolderRow, tagId: int)
    requires Grove(t) && First(t.rows, a) && a.isSet
    ensures AfterTag(m, t, PathsOf(Children(t.rows, a.id)), tagId) == AfterTag(m, t, [a.path], tagId)
    ensures FoldersTagged(m, t, PathsOf(Children(t.rows, a.id)), tagId) == FoldersTagged(m, t, [a.path], tagId)
  {
    hide Grove, First, Marks, Tagged;
    var cs := Children(t.rows, a.id);
    forall id | id in m
      ensures MarksAny(t, PathsOf(cs), id) <==> MarksAny(t, [a.path], id)
    {
      MarksSet(t, a, id);
      MarksOneMore(t, [], a.path, id);
      if c :| c in cs && Marks(t, c.path, id) {
        var k :| 0 <= k < |cs| && cs[k] == c;
        assert Marks(t, PathsOf(cs)[k], id);
      }
    }
  }

  /** Tagging one plain folder. */
  lemma TagLeaf(m: map<nat, Tables>, t: Folders, a: FolderRow, tagId: int)
    requires Grove(t) && First(t.rows, a) && !a.isSet
    ensures AfterTag(m, t, [a.path], tagId) == if a.id in m then m[a.id := Tagged(m[a.id], tagId)] else m
    ensures FoldersTagged(m, t, [a.path], tagId) == if a.id in m && m[a.id].head != {} then {TagFolder(tagId, a.id)} else {}
  {
    hide Grove, First, Marks, MarksAny, Tagged;
    forall id | id in m
      ensures MarksAny(t, [a.path], id) <==> id == a.id
    {
      MarksOneMore(t, [], a.path, id);
      MarksPlain(t, a, id);
    }
  }

  ghost predicate AnyTagged(t: Folders, path: string, links: seq<TagFolder>, tagId: int) {
    exists r :: Below(t, path, r) && TagFolder(tagId, r.id) in links
  }

  lemma AnyTaggedStep(t: Folders, a: FolderRow, links: seq<TagFolder>, tagId: int)
    requires Grove(t) && First(t.rows, a)
    ensures AnyTagged(t, a.path, links, tagId) <==>
              (TagFolder(tagId, a.id) in links ||
               (a.isSet && exists c :: c in Children(t.rows, a.id) && AnyTagged(t, c.path, links, tagId)))
  {
    hide Grove, First, Below, Children;
    SubtreeOfChildren(t, a, a);
    if AnyTagged(t, a.path, links, tagId) {
      var r :| Below(t, a.path, r) && TagFolder(tagId, r.id) in links;
      SubtreeOfChildren(t, a, r);
      if r != a {
        var c := BelowSomeChild(t, a, r);
      }
    }
    if c :| a.isSet && c in Children(t.rows, a.id) && AnyTagged(t, c.path, links, tagId) {
      var r :| Below(t, c.path, r) && TagFolder(tagId, r.id) in links;
      SubtreeOfChildren(t, a, r);
    }
  }

  /** After tagging at a path, every plain folder at or below it whose head is not empty has
      exactly its head under the tag, and keeps what it has under other tags; every other
      folder has its tables unchanged. */
  lemma TaggedSubtree(m: map<nat, Tables>, t: Folders, path: string, tagId: int, a: nat, other: int)
    requires a in m
    ensures var u := AfterTag(m, t, [path], tagId);
            && u.Keys == m.Keys
            && u[a].log == m[a].log && u[a].head == m[a].head
            && (Marks(t, path, a) && m[a].head != {} ==> TagRows(u[a].tags, tagId) == HeadAsTag(m[a].head, tagId))
            && (other != tagId ==> TagRows(u[a].tags, other) == TagRows(m[a].tags, other))
            && (!Marks(t, path, a) || m[a].head == {} ==> u[a] == m[a])
  {
    hide Marks;
    MarksOneMore(t, [], path, a);
    if m[a].head != {} {
      VersionedRuns.TaggedRows(m[a], tagId);
    }
  }

  class TagMgr {
    const folders: Folders
    const objects: map<nat, ObjectMgr>
    var tag2folder: seq<TagFolder>

    ghost predicate Valid()
      reads objects.Values
    {
      && Grove(folders)
      && (forall a :: a in objects ==> objects[a].Valid())
      && (forall a, b :: a in objects && b in objects && a != b ==> objects[a] != objects[b])
    }

    ghost function Tabs(): map<nat, Tables>
      reads objects.Values
    {
      map a | a in objects :: objects[a].Abs()
    }

    constructor (folders: Folders, objects: map<nat, ObjectMgr>)
      requires Grove(folders)
      requires forall a :: a in objects ==> objects[a].Valid()
      requires forall a, b :: a in objects && b in objects && a != b ==> objects[a] != objects[b]
      ensures Valid() && this.folders == folders && this.objects == objects && tag2folder == []
    {
      this.folders := folders;
      this.objects := objects;
      tag2folder := [];
    }

    /** Tag one plain folder; a folder without object tables or with an empty head is warned
        about and left alone. */
    method TagPlain(row: FolderRow, tagId: int)
      requires Valid() && First(folders.rows, row) && !row.isSet
      modifies this, objects.Values
      ensures Valid()
      ensures Tabs() == AfterTag(old(Tabs()), folders, [row.path], tagId)
      ensures Rows(tag2folder) == old(Rows(tag2folder)) + FoldersTagged(old(Tabs()), folders, [row.path], tagId)
    {
      hide Grove, First, Tagged, Inv, NoDup, AfterTag, FoldersTagged;
      TagLeaf(Tabs(), folders, row, tagId);
      if row.id in objects {
        var ok := objects[row.id].AddTag(tagId);
        if ok {
          tag2folder := tag2folder + [TagFolder(tagId, row.id)];
        }
      }
    }

    /** Tag every plain folder at or below the path with what its head holds; of several rows
        with one name the first. An unknown tag or path is an error and changes nothing. */
    method Tag(path: string, tagId: int) returns (ok: bool)
      requires Valid()
      modifies this, objects.Values
      ensures Valid()
      ensures ok <==> tagId != -1 && Taken(folders, path)
      ensures Tabs() == if ok then AfterTag(old(Tabs()), folders, [path], tagId) else old(Tabs())
      ensures Rows(tag2folder) == old(Rows(tag2folder)) + if ok then FoldersTagged(old(Tabs()), folders, [path], tagId) else {}
      decreases folders.nextId - IdOf(folders, path)
    {
      hide Grove, First, Tagged, Inv, NoDup, AfterTag, FoldersTagged, Taken, Children, ByPath, Valid, Tabs;
      QueriesFind(folders, path);
      var res := ByPath(folders.rows, path);
      if tagId == -1 || |res| == 0 {
        return false;
      }
      var row := res[0];
      IsGrove();
      IsFirst(folders, path);
      if row.isSet {
        var children := Children(folders.rows, row.id);
        ghost var paths := PathsOf(children);
        var k := 0;
        NothingTagged(Tabs(), folders, tagId);
        while k < |children|
          invariant 0 <= k <= |children| && Valid()
          invariant Tabs() == AfterTag(old(Tabs()), folders, paths[..k], tagId)
          invariant Rows(tag2folder) == old(Rows(tag2folder)) + FoldersTagged(old(Tabs()), folders, paths[..k], tagId)
        {
          assert children[k] in children;
          ChildId(folders, row, children[k]);
          IdOfRow(folders, row);
          TagOneMore(old(Tabs()), folders, paths[..k], paths[k], tagId);
          assert paths[..k+1] == paths[..k] + [paths[k]];
          var done := Tag(children[k].path, tagId);
          k := k + 1;
        }
        assert paths[..k] == paths;
        TagChildren(old(Tabs()), folders, row, tagId);
      } else {
        TagPlain(row, tagId);
      }
      ok := true;
    }

    /** Whether some folder at or below the path has the tag. */
    method IsTagged(path: string, tagId: int) returns (ok: bool, tagged: bool)
      requires Valid()
      ensures ok <==> Taken(folders, path)
      ensures ok ==> (tagged <==> AnyTagged(folders, path, tag2folder, tagId))
      decreases folders.nextId - IdOf(folders, path)
    {
      hide Grove, First, Taken, Children, ByPath, AnyTagged;
      QueriesFind(folders, path);
      var res := ByPath(folders.rows, path);
      if |res| == 0 {
        return false, false;
      }
      var row := res[0];
      IsFirst(folders, path);
      AnyTaggedStep(folders, row, tag2folder, tagId);
      if row.isSet {
        if HasTag(row.id, tagId) {
          return true, true;
        }
        var children := Children(folders.rows, row.id);
        var k := 0;
        while k < |children|
          invariant 0 <= k <= |children|
          invariant forall j :: 0 <= j < k ==> !AnyTagged(folders, children[j].path, tag2folder, tagId)
        {
          assert children[k] in children;
          ChildId(folders, row, children[k]);
          IdOfRow(folders, row);
          var known, below := IsTagged(children[k].path, tagId);
          if below {
            return true, true;
          }
          k := k + 1;
        }
        return true, false;
      } else {
        return true, HasTag(row.id, tagId);
      }
    }

    /** Remove a tag from one folder. The object rows go in any case; the row that links
        the folder with the tag stays in any case: its removal is attempted only where there
        is none, and is refused where there is one. */
    method Untag(path: string, tagId: int) returns (ok: bool)
      requires Valid()
      modifies objects.Values
      ensures Valid()
      ensures var id := IdOf(folders, path);
              && Tabs() == (if Taken(folders, path) && id in objects
                            then old(Tabs())[id := Untagged(old(Tabs())[id], tagId)] else old(Tabs()))
              && (ok <==> Taken(folders, path) && id in objects && !HasTag(id, tagId))
    {
      hide Grove, First, Taken, ByPath, Untagged, Inv, NoDup;
      QueriesFind(folders, path);
      var res := ByPath(folders.rows, path);
      if |res| == 0 || res[0].id !in objects {
        return false;
      }
      objects[res[0].id].RemoveTag(tagId);
      ok := !HasTag(res[0].id, tagId);
    }

    predicate HasTag(folderId: nat, tagId: int)
      reads this
    {
      TagFolder(tagId, folderId) in tag2folder
    }

    lemma IsGrove()
      requires Valid()
      ensures Grove(folders)
    {}
  }

  lemma NothingTagged(m: map<nat, Tables>, t: Folders, tagId: int)
    ensures AfterTag(m, t, [], tagId) == m && FoldersTagged(m, t, [], tagId) == {}
  {}
}
