/** The folder table: creation of folders and folder sets with their missing ancestors,
    deletion of empty ones, and the tree they keep. */
module FolderTree {
  import opened SqlTable
  import opened Paths

  datatype FolderRow = FolderRow(
    id: nat, parent: nat, path: string, desc: string, attr: string, isSet: bool, dbId: int, ddtype: int)

  datatype Folders = Folders(rows: seq<FolderRow>, nextId: nat)

  /** Whether a call went through, and the table it leaves. */
  datatype Outcome = Outcome(ok: bool, folders: Folders)

  const ROOT := "/"

  // ---- Queries

  /** SELECT .. WHERE fpath = path AND is_set = 1 */
  function Sets(rows: seq<FolderRow>, path: string): seq<FolderRow> {
    Select(rows, (r: FolderRow) => r.path == path && r.isSet)
  }

  /** SELECT .. WHERE fpath = path */
  function ByPath(rows: seq<FolderRow>, path: string): seq<FolderRow> {
    Select(rows, (r: FolderRow) => r.path == path)
  }

  /** SELECT .. WHERE fparent = id */
  function Children(rows: seq<FolderRow>, id: nat): seq<FolderRow> {
    Select(rows, (r: FolderRow) => r.parent == id)
  }

  // ---- Operations

  /** INSERT with the next id. */
  function Added(t: Folders, path: string, desc: string, attr: string, parent: nat, isSet: bool, dbId: int, ddtype: int): Folders {
    Folders(t.rows + [FolderRow(t.nextId, parent, path, desc, attr, isSet, dbId, ddtype)], t.nextId + 1)
  }

  /** Insert below the set with the given path; empty attributes are taken from it. A plain
      folder may not be the root. */
  function AddedUnder(t: Folders, parent: string, path: string, desc: string, attr: string, isSet: bool, dbId: int, ddtype: int): Outcome {
    var res := Sets(t.rows, parent);
    if res == [] || (path == ROOT && !isSet) then Outcome(false, t)
    else Outcome(true, Added(t, path, desc, if attr == "" then res[0].attr else attr, res[0].id, isSet, dbId, ddtype))
  }

  function CreatedSet(t: Folders, path: string, attr: string, desc: string, parents: bool, dbId: int, ddtype: int): Outcome
    decreases |path|
  {
    if path == "" || path[0] != SEP || ByPath(t.rows, Normalized(path)) != [] then Outcome(false, t)
    else
      var norm := Normalized(path);
      NormalizeKeepsNames(path);
      SplitShape(norm);
      if Sets(t.rows, ParentOf(norm)) != [] then
        AddedUnder(t, ParentOf(norm), path, desc, attr, true, dbId, ddtype)
      else if NameOf(norm) == "" then
        Outcome(true, Added(t, ROOT, desc, attr, 0, true, dbId, 0))
      else if !parents then
        Outcome(false, t)
      else
        var up := CreatedSet(t, ParentOf(norm), attr, desc, true, dbId, ddtype);
        if up.ok then AddedUnder(up.folders, ParentOf(norm), path, desc, attr, true, dbId, ddtype) else up
  }

  /** Ancestors created for a table folder are marked with type 1, others with 0. */
  function SetType(ddtype: int): int {
    if ddtype == 0 then 0 else 1
  }

  function CreatedFolder(t: Folders, path: string, attr: string, desc: string, parents: bool, dbId: int, ddtype: int): Outcome
  {
    if path == "" || path[0] != SEP || ByPath(t.rows, Normalized(path)) != [] then Outcome(false, t)
    else
      NormalizeKeepsNames(path);
      var parent := ParentOf(Normalized(path));
      if Sets(t.rows, parent) != [] then AddedUnder(t, parent, path, desc, attr, false, dbId, ddtype)
      else if !parents then Outcome(false, t)
      else
        var up := CreatedSet(t, parent, attr, desc, true, dbId, SetType(ddtype));
        if up.ok then AddedUnder(up.folders, parent, path, desc, attr, false, dbId, ddtype) else up
  }

  /** An unknown path is an error; a folder with children stays. */
  function Deleted(t: Folders, path: string): Outcome {
    var res := ByPath(t.rows, path);
    if res == [] then Outcome(false, t)
    else if Children(t.rows, res[0].id) != [] then Outcome(true, t)
    else Outcome(true, t.(rows := Delete(t.rows, (r: FolderRow) => r.id == res[0].id)))
  }

  // ---- The tree

  predicate ChildOf(c: FolderRow, p: FolderRow) {
    && Normal(c.path) && c.path != ROOT
    && p.isSet && p.path == ParentOf(c.path) && p.id == c.parent && p.id < c.id
  }

  ghost predicate Placed(rows: seq<FolderRow>, r: FolderRow) {
    && Normal(r.path)
    && (if r.path == ROOT then r.parent == 0 && r.isSet else exists p :: p in rows && ChildOf(r, p))
  }

  /** Ids and paths are unique; the root is a set without parent; every other row stands
      under a folder set at its parent path with a smaller id. */
  ghost predicate Tree(t: Folders) {
    AllPlaced(t) && Unique(t.rows) && t.nextId >= 1
  }

  ghost predicate AllPlaced(t: Folders) {
    forall r :: r in t.rows ==> 1 <= r.id < t.nextId && Placed(t.rows, r)
  }

  ghost predicate Unique(rows: seq<FolderRow>) {
    && (forall r, s :: r in rows && s in rows && r != s ==> r.id != s.id && r.path != s.path)
    && NoDup(rows)
  }

  // ---- Any spelling

  predicate Spelled(path: string) {
    path != "" && path[0] == SEP
  }

  /** What the laws need of normal forms and parents. */
  lemma ParentFacts(path: string)
    ensures Normal(Normalized(path)) && Normal(ParentOf(Normalized(path))) && Spelled(ParentOf(Normalized(path)))
    ensures Normalized(ParentOf(Normalized(path))) == ParentOf(Normalized(path))
    ensures Normal(path) ==> Spelled(path) && Normalized(path) == path
    ensures Normalized(path) == ROOT ==> ParentOf(Normalized(path)) == ROOT
    ensures Normalized(path) != ROOT ==> |ParentOf(Normalized(path))| < |Normalized(path)| && path != ROOT
    ensures Spelled(path) ==> |Normalized(path)| <= |path|
  {
    NormalizeKeepsNames(path);
    SplitShape(Normalized(path));
    NormalizeIsCanonical(path, path);
    NormalizeIsCanonical(ParentOf(Normalized(path)), ParentOf(Normalized(path)));
    NormalizeIsCanonical(ROOT, ROOT);
  }

  /** The parent of a row is found by the normal form of its name, whatever its spelling. */
  predicate HangsFrom(c: FolderRow, p: FolderRow)
    requires Spelled(c.path)
  {
    NormalizeKeepsNames(c.path);
    p.isSet && p.path == ParentOf(Normalized(c.path)) && p.id == c.parent && p.id < c.id
  }

  ghost predicate Hung(rows: seq<FolderRow>, r: FolderRow) {
    && Spelled(r.path)
    && (if r.path == ROOT then r.parent == 0 && r.isSet else exists p :: p in rows && HangsFrom(r, p))
  }

  ghost predicate AllHung(t: Folders) {
    forall r :: r in t.rows ==> 1 <= r.id < t.nextId && Hung(t.rows, r)
  }

  ghost predicate Separate(rows: seq<FolderRow>) {
    && (forall r, s :: r in rows && s in rows && r != s ==> r.id != s.id && (Normal(r.path) ==> r.path != s.path))
    && NoDup(rows)
  }

  /** Ids are unique and normal names too; every row stands under the set that the normal form
      of its name belongs under. As that set has a normal name, a row spelled otherwise has
      nothing below it. */
  ghost predicate Grove(t: Folders) {
    AllHung(t) && Separate(t.rows) && t.nextId >= 1
  }

  ghost predicate AllNormal(t: Folders) {
    forall r :: r in t.rows ==> Normal(r.path)
  }

  lemma HungIsPlaced(rows: seq<FolderRow>, r: FolderRow)
    requires Normal(r.path)
    ensures Hung(rows, r) <==> Placed(rows, r)
  {
    NormalizeIsCanonical(r.path, r.path);
    if Placed(rows, r) && r.path != ROOT {
      var p :| p in rows && ChildOf(r, p);
      assert HangsFrom(r, p);
    }
    if Hung(rows, r) && r.path != ROOT {
      var p :| p in rows && HangsFrom(r, p);
      assert ChildOf(r, p);
    }
  }

  /** The rows form a tree exactly when all their names are normal. */
  lemma TreeExactly(t: Folders)
    ensures Tree(t) <==> Grove(t) && AllNormal(t)
  {
    hide Hung, Normal;
    if Tree(t) {
      forall r | r in t.rows
        ensures Normal(r.path) && Hung(t.rows, r)
      {
        assert Placed(t.rows, r);
        HungIsPlaced(t.rows, r);
      }
    }
    if Grove(t) && AllNormal(t) {
      forall r | r in t.rows
        ensures Placed(t.rows, r)
      {
        HungIsPlaced(t.rows, r);
      }
    }
  }

  lemma HungMore(rows: seq<FolderRow>, r: FolderRow, s: FolderRow)
    requires Hung(rows, s)
    ensures Hung(rows + [r], s)
  {
    if s.path != ROOT {
      var p :| p in rows && HangsFrom(s, p);
      assert p in rows + [r];
    }
  }

  lemma AddKeepsGrove(t: Folders, r: FolderRow)
    requires Grove(t) && r.id == t.nextId && Hung(t.rows, r)
    requires Normal(r.path) ==> forall s :: s in t.rows ==> s.path != r.path
    ensures Grove(Folders(t.rows + [r], t.nextId + 1))
  {
    hide Hung, Normal;
    var rows := t.rows + [r];
    forall s | s in rows
      ensures Hung(rows, s)
    {
      HungMore(t.rows, r, s);
    }
    assert r !in t.rows;
  }

  ghost predicate HasSet(t: Folders, path: string) {
    exists r :: r in t.rows && r.path == path && r.isSet
  }

  ghost predicate Taken(t: Folders, path: string) {
    exists r :: r in t.rows && r.path == path
  }

  lemma QueriesFind(t: Folders, path: string)
    ensures Sets(t.rows, path) != [] <==> HasSet(t, path)
    ensures Sets(t.rows, path) != [] ==> Sets(t.rows, path)[0] in t.rows && Sets(t.rows, path)[0].path == path && Sets(t.rows, path)[0].isSet
    ensures ByPath(t.rows, path) != [] <==> Taken(t, path)
    ensures ByPath(t.rows, path) != [] ==> ByPath(t.rows, path)[0] in t.rows && ByPath(t.rows, path)[0].path == path
  {
    if Sets(t.rows, path) != [] {
      assert Sets(t.rows, path)[0] in Sets(t.rows, path);
    }
    if ByPath(t.rows, path) != [] {
      assert ByPath(t.rows, path)[0] in ByPath(t.rows, path);
    }
  }

  // ---- Creating

  /** A folder set at `path` is there or can be made with its ancestors. */
  ghost predicate Makeable(t: Folders, path: string)
    requires Normal(path)
    decreases |path|
  {
    SplitShape(path);
    HasSet(t, path) || (!Taken(t, path) && (path == ROOT || Makeable(t, ParentOf(path))))
  }

  lemma AddUnderLaw(t: Folders, path: string, desc: string, attr: string, isSet: bool, dbId: int, ddtype: int)
    requires Grove(t) && Spelled(path) && path != ROOT && Normal(Normalized(path)) && Normal(ParentOf(Normalized(path)))
    requires HasSet(t, ParentOf(Normalized(path))) && (Normal(path) ==> !Taken(t, path))
    ensures var o := AddedUnder(t, ParentOf(Normalized(path)), path, desc, attr, isSet, dbId, ddtype);
            && o.ok && Grove(o.folders) && EndsWith(t, o.folders, path, isSet)
  {
    NormalizeIsCanonical(path, path);
    var parent := ParentOf(Normalized(path));
    QueriesFind(t, parent);
    var o := AddedUnder(t, parent, path, desc, attr, isSet, dbId, ddtype);
    var r := o.folders.rows[|t.rows|];
    var p := Sets(t.rows, parent)[0];
    assert HangsFrom(r, p);
    AddKeepsGrove(t, r);
  }

  /** One row more, with this name. */
  ghost predicate EndsWith(t: Folders, u: Folders, path: string, isSet: bool) {
    && |u.rows| == |t.rows| + 1 && u.rows[..|t.rows|] == t.rows
    && u.rows[|t.rows|].path == path && u.rows[|t.rows|].isSet == isSet
  }

  lemma EndsWithMeans(t: Folders, u: Folders, path: string, isSet: bool, other: string)
    requires EndsWith(t, u, path, isSet)
    ensures t.rows < u.rows && Last(u).path == path && Last(u).isSet == isSet
    ensures HasSet(u, other) <==> HasSet(t, other) || (isSet && path == other)
    ensures Taken(u, other) <==> Taken(t, other) || path == other
    ensures AllNormal(u) <==> AllNormal(t) && Normal(path)
  {
    assert u.rows == t.rows + [u.rows[|t.rows|]];
    assert u.rows[|t.rows|] in u.rows;
    assert forall r :: r in t.rows ==> r in u.rows;
  }

  function Last(t: Folders): FolderRow
    requires t.rows != []
  {
    t.rows[|t.rows|-1]
  }

  /** What creating a folder set promises, whatever the spelling: a name without leading
      separator is refused; else it succeeds exactly when the normal form is free and its
      parent set is there or, if ancestors may be created, can be made. Then rows are only
      added and the set is there, under the name as given except for the root; otherwise
      nothing has changed, however deep it failed. The normal form is taken afterwards, and the
      names are all normal still, only if the name was normal or means the root. */
  ghost predicate SetLaw(t: Folders, path: string, parents: bool, o: Outcome) {
    if !Spelled(path) then o == Outcome(false, t)
    else
      ParentFacts(path);
      var norm := Normalized(path);
      && Grove(o.folders)
      && (o.ok <==> !Taken(t, norm) && (norm == ROOT || HasSet(t, ParentOf(norm)) || (parents && Makeable(t, ParentOf(norm)))))
      && (if o.ok then SetDone(t, o.folders, path, norm) else o.folders == t)
  }

  ghost predicate SetDone(t: Folders, u: Folders, path: string, norm: string)
    requires Normal(norm)
  {
    && t.rows < u.rows
    && HasSet(u, if norm == ROOT then ROOT else path) && HasSet(u, ParentOf(norm))
    && (Taken(u, norm) <==> Normal(path) || norm == ROOT)
    && (AllNormal(u) <==> AllNormal(t) && (Normal(path) || norm == ROOT))
  }

  /** The branches of the creation, in terms of what is in the table. */
  lemma CreatedSetCases(t: Folders, path: string, attr: string, desc: string, parents: bool, dbId: int, ddtype: int)
    requires Spelled(path)
    ensures Normal(Normalized(path)) && Normal(ParentOf(Normalized(path)))
    ensures var norm := Normalized(path); var parent := ParentOf(norm);
            CreatedSet(t, path, attr, desc, parents, dbId, ddtype) ==
              if Taken(t, norm) then Outcome(false, t)
              else if HasSet(t, parent) then AddedUnder(t, parent, path, desc, attr, true, dbId, ddtype)
              else if norm == ROOT then Outcome(true, Added(t, ROOT, desc, attr, 0, true, dbId, 0))
              else if !parents then Outcome(false, t)
              else
                var up := CreatedSet(t, parent, attr, desc, true, dbId, ddtype);
                if up.ok then AddedUnder(up.folders, parent, path, desc, attr, true, dbId, ddtype) else up
  {
    hide HasSet, Taken, AddedUnder, Added, Sets, ByPath, Normal, Normalized;
    NormalizeKeepsNames(path);
    SplitShape(Normalized(path));
    QueriesFind(t, Normalized(path));
    QueriesFind(t, ParentOf(Normalized(path)));
  }

  lemma SetBelow(t: Folders, up: Folders, path: string, attr: string, desc: string, dbId: int, ddtype: int)
    requires Spelled(path) && Normalized(path) != ROOT && Normal(Normalized(path)) && Normal(ParentOf(Normalized(path)))
    requires Grove(up) && t.rows <= up.rows && (AllNormal(up) <==> AllNormal(t))
    requires HasSet(up, ParentOf(Normalized(path))) && !Taken(up, Normalized(path))
    ensures var o := AddedUnder(up, ParentOf(Normalized(path)), path, desc, attr, true, dbId, ddtype);
            o.ok && Grove(o.folders) && SetDone(t, o.folders, path, Normalized(path))
  {
    hide Grove, HasSet, Taken, AddedUnder, Normal, AllNormal, Normalized, ParentOf;
    ParentFacts(path);
    PlainStep(up, path, desc, attr, true, dbId, ddtype);
  }

  lemma SetBelowMade(t: Folders, up: Folders, path: string, attr: string, desc: string, dbId: int, ddtype: int)
    requires Spelled(path) && Normalized(path) != ROOT && Normal(Normalized(path)) && Normal(ParentOf(Normalized(path)))
    requires Grove(up) && SetDone(t, up, ParentOf(Normalized(path)), ParentOf(Normalized(path))) && !Taken(up, Normalized(path))
    ensures var o := AddedUnder(up, ParentOf(Normalized(path)), path, desc, attr, true, dbId, ddtype);
            o.ok && Grove(o.folders) && SetDone(t, o.folders, path, Normalized(path))
  {
    hide Grove, HasSet, Taken, AddedUnder, Normal, AllNormal, Normalized, ParentOf;
    SetBelow(t, up, path, attr, desc, dbId, ddtype);
  }

  lemma {:induction false} CreateSetLaw(t: Folders, path: string, attr: string, desc: string, parents: bool, dbId: int, ddtype: int)
    requires Grove(t)
    ensures SetLaw(t, path, parents, CreatedSet(t, path, attr, desc, parents, dbId, ddtype))
    decreases |path|
  {
    if Spelled(path) {
      hide CreatedSet, Grove, HasSet, Taken, AddedUnder, Added, Makeable, Normal, AllNormal, Normalized, ParentOf, SetDone;
      ParentFacts(path);
      CreatedSetCases(t, path, attr, desc, parents, dbId, ddtype);
      var norm := Normalized(path);
      var parent := ParentOf(norm);
      SetIsTaken(t, norm);
      if !Taken(t, norm) {
        if HasSet(t, parent) {
          SetBelow(t, t, path, attr, desc, dbId, ddtype);
        } else if norm == ROOT {
          RootLaw(t, path, desc, attr, dbId);
        } else if parents {
          CreateSetLaw(t, parent, attr, desc, true, dbId, ddtype);
          MakeableStep(t, parent);
          var up := CreatedSet(t, parent, attr, desc, true, dbId, ddtype);
          if up.ok {
            SetsAdded(t, parent, attr, desc, dbId, ddtype, norm);
            SetBelowMade(t, up.folders, path, attr, desc, dbId, ddtype);
          }
        }
      }
    }
  }

  /** The last step of a creation, below a set that is there. */
  lemma PlainStep(t: Folders, path: string, desc: string, attr: string, isSet: bool, dbId: int, ddtype: int)
    requires Grove(t) && Spelled(path) && path != ROOT
    requires Normal(Normalized(path)) && Normal(ParentOf(Normalized(path)))
    requires HasSet(t, ParentOf(Normalized(path))) && (Taken(t, Normalized(path)) ==> Normalized(path) == ROOT)
    ensures var norm := Normalized(path); var o := AddedUnder(t, ParentOf(norm), path, desc, attr, isSet, dbId, ddtype);
            && o.ok && Grove(o.folders) && t.rows < o.folders.rows
            && Last(o.folders).path == path && Last(o.folders).isSet == isSet
            && (isSet ==> HasSet(o.folders, path)) && HasSet(o.folders, ParentOf(norm))
            && (!isSet && Normal(path) ==> !HasSet(o.folders, path))
            && (Taken(o.folders, norm) <==> Taken(t, norm) || Normal(path))
            && (AllNormal(o.folders) <==> AllNormal(t) && Normal(path))
  {
    hide Grove, HasSet, Taken, AddedUnder, Normal, AllNormal, EndsWith, Normalized, Last;
    NormalizeIsCanonical(path, path);
    NormalRoot();
    SetIsTaken(t, path);
    AddUnderLaw(t, path, desc, attr, isSet, dbId, ddtype);
    var norm := Normalized(path);
    var u := AddedUnder(t, ParentOf(norm), path, desc, attr, isSet, dbId, ddtype).folders;
    EndsWithMeans(t, u, path, isSet, path);
    EndsWithMeans(t, u, path, isSet, norm);
    EndsWithMeans(t, u, path, isSet, ParentOf(norm));
  }

  /** Where a row of this name belongs. */
  function ParentPath(path: string): string {
    NormalizeKeepsNames(path);
    ParentOf(Normalized(path))
  }

  lemma NormalRoot()
    ensures Normal(ROOT) && Normalized(ROOT) == ROOT && Spelled(ROOT)
  {
    NormalizeIsCanonical(ROOT, ROOT);
  }

  lemma MakeableStep(t: Folders, path: string)
    requires Normal(path)
    ensures Normal(ParentOf(path))
    ensures HasSet(t, path) ==> Makeable(t, path)
    ensures !HasSet(t, path) ==> (Makeable(t, path) <==> !Taken(t, path) && (path == ROOT || Makeable(t, ParentOf(path))))
    ensures HasSet(t, ParentOf(path)) ==> Makeable(t, ParentOf(path))
  {
    SplitShape(path);
  }

  lemma RootLaw(t: Folders, path: string, desc: string, attr: string, dbId: int)
    requires Grove(t) && !Taken(t, ROOT) && Normalized(path) == ROOT
    ensures var u := Added(t, ROOT, desc, attr, 0, true, dbId, 0);
            Grove(u) && Normal(ROOT) && SetDone(t, u, path, ROOT)
  {
    hide Grove, Hung;
    var u := Added(t, ROOT, desc, attr, 0, true, dbId, 0);
    NormalRoot();
    RootHung(t.rows, u.rows[|t.rows|]);
    AddKeepsGrove(t, u.rows[|t.rows|]);
    EndsWithMeans(t, u, ROOT, true, ROOT);
    ParentFacts(path);
  }

  lemma RootHung(rows: seq<FolderRow>, r: FolderRow)
    requires r.path == ROOT && r.parent == 0 && r.isSet
    ensures Hung(rows, r)
  {}

  lemma AddTakes(t: Folders, parent: string, path: string, desc: string, attr: string, dbId: int, ddtype: int, other: string)
    requires other != path
    ensures Taken(AddedUnder(t, parent, path, desc, attr, true, dbId, ddtype).folders, other) ==> Taken(t, other)
  {
    hide Sets;
  }

  /** Creating a set adds rows at its path and above only. */
  lemma {:induction false} SetsAdded(t: Folders, path: string, attr: string, desc: string, dbId: int, ddtype: int, other: string)
    requires Normal(path) && |other| > |path|
    ensures Taken(CreatedSet(t, path, attr, desc, true, dbId, ddtype).folders, other) ==> Taken(t, other)
    decreases |path|
  {
    hide AddedUnder, Taken, Normal, ByPath, Sets;
    NormalizeIsCanonical(path, path);
    SplitShape(path);
    var parent := ParentOf(path);
    AddTakes(t, parent, path, desc, attr, dbId, ddtype, other);
    if path == ROOT {
      RootTakes(t, desc, attr, dbId, other);
    } else {
      SetsAdded(t, parent, attr, desc, dbId, ddtype, other);
      AddTakes(CreatedSet(t, parent, attr, desc, true, dbId, ddtype).folders, parent, path, desc, attr, dbId, ddtype, other);
    }
  }

  lemma RootTakes(t: Folders, desc: string, attr: string, dbId: int, other: string)
    requires other != ROOT
    ensures Taken(Added(t, ROOT, desc, attr, 0, true, dbId, 0), other) ==> Taken(t, other)
  {}

  /** The same for plain folders, with two differences. The root itself is refused, but in an
      empty table only after the root set has been created; that is the one failure that
      leaves something behind. And a name that means the root but is spelled otherwise is not
      recognised by that refusal. */
  ghost predicate FolderLaw(t: Folders, path: string, parents: bool, o: Outcome) {
    if !Spelled(path) then o == Outcome(false, t)
    else
      ParentFacts(path);
      var norm := Normalized(path);
      && Grove(o.folders)
      && (o.ok <==> path != ROOT && !Taken(t, norm) && (HasSet(t, ParentOf(norm)) || (parents && Makeable(t, ParentOf(norm)))))
      && (if o.ok then FolderDone(t, o.folders, path, norm)
          else
            && (AllNormal(o.folders) <==> AllNormal(t))
            && (o.folders != t <==> path == ROOT && parents && !Taken(t, ROOT)))
  }

  ghost predicate FolderDone(t: Folders, u: Folders, path: string, norm: string)
    requires Normal(norm)
  {
    && t.rows < u.rows && Last(u).path == path && !Last(u).isSet
    && HasSet(u, ParentOf(norm)) && (Normal(path) ==> !HasSet(u, path))
    && (Taken(u, norm) <==> Normal(path) || norm == ROOT)
    && (AllNormal(u) <==> AllNormal(t) && Normal(path))
  }

  lemma FolderBelow(t: Folders, up: Folders, path: string, attr: string, desc: string, dbId: int, ddtype: int)
    requires Spelled(path) && path != ROOT && Normal(Normalized(path)) && Normal(ParentOf(Normalized(path)))
    requires Grove(up) && t.rows <= up.rows && (AllNormal(up) <==> AllNormal(t))
    requires HasSet(up, ParentOf(Normalized(path))) && (Taken(up, Normalized(path)) <==> Normalized(path) == ROOT)
    ensures var o := AddedUnder(up, ParentOf(Normalized(path)), path, desc, attr, false, dbId, ddtype);
            o.ok && Grove(o.folders) && FolderDone(t, o.folders, path, Normalized(path))
  {
    hide Grove, HasSet, Taken, AddedUnder, Normal, AllNormal, Normalized, ParentOf, Last;
    ParentFacts(path);
    PlainStep(up, path, desc, attr, false, dbId, ddtype);
  }

  lemma FolderBelowMade(t: Folders, up: Folders, path: string, attr: string, desc: string, dbId: int, ddtype: int)
    requires Spelled(path) && path != ROOT && Normal(Normalized(path)) && Normal(ParentOf(Normalized(path)))
    requires Grove(up) && SetDone(t, up, ParentOf(Normalized(path)), ParentOf(Normalized(path)))
    requires Normalized(path) != ROOT ==> !Taken(up, Normalized(path))
    ensures var o := AddedUnder(up, ParentOf(Normalized(path)), path, desc, attr, false, dbId, ddtype);
            o.ok && Grove(o.folders) && FolderDone(t, o.folders, path, Normalized(path))
  {
    hide Grove, HasSet, Taken, AddedUnder, Normal, AllNormal, Normalized, ParentOf;
    ParentFacts(path);
    FolderBelow(t, up, path, attr, desc, dbId, ddtype);
  }

  lemma CreatedFolderCases(t: Folders, path: string, attr: string, desc: string, parents: bool, dbId: int, ddtype: int)
    requires Spelled(path)
    ensures Normal(Normalized(path)) && Normal(ParentOf(Normalized(path)))
    ensures var norm := Normalized(path); var parent := ParentOf(norm);
            CreatedFolder(t, path, attr, desc, parents, dbId, ddtype) ==
              if Taken(t, norm) then Outcome(false, t)
              else if HasSet(t, parent) then AddedUnder(t, parent, path, desc, attr, false, dbId, ddtype)
              else if !parents then Outcome(false, t)
              else
                var up := CreatedSet(t, parent, attr, desc, true, dbId, SetType(ddtype));
                if up.ok then AddedUnder(up.folders, parent, path, desc, attr, false, dbId, ddtype) else up
  {
    hide HasSet, Taken, AddedUnder, Sets, ByPath, Normal, Normalized, CreatedSet;
    ParentFacts(path);
    QueriesFind(t, Normalized(path));
    QueriesFind(t, ParentOf(Normalized(path)));
  }

  /** A plain folder at the root itself: refused, after the root set was created if it was
      missing and ancestors could be created. */
  lemma RootRefused(t: Folders, up: Folders, desc: string, attr: string, dbId: int, ddtype: int)
    requires Normal(ROOT) && SetDone(t, up, ROOT, ROOT)
    ensures AddedUnder(up, ROOT, ROOT, desc, attr, false, dbId, ddtype) == Outcome(false, up)
    ensures up != t && (AllNormal(up) <==> AllNormal(t))
  {
    hide AllNormal, HasSet, Taken;
  }

  lemma {:induction false} CreateFolderLaw(t: Folders, path: string, attr: string, desc: string, parents: bool, dbId: int, ddtype: int)
    requires Grove(t)
    ensures FolderLaw(t, path, parents, CreatedFolder(t, path, attr, desc, parents, dbId, ddtype))
  {
    if Spelled(path) {
      hide CreatedFolder, CreatedSet, Grove, HasSet, Taken, AddedUnder, Makeable, Normal, AllNormal, Normalized, ParentOf, SetDone, FolderDone;
      ParentFacts(path);
      ParentFacts(ROOT);
      CreatedFolderCases(t, path, attr, desc, parents, dbId, ddtype);
      var norm := Normalized(path);
      var parent := ParentOf(norm);
      SetIsTaken(t, norm);
      if !Taken(t, norm) {
        if HasSet(t, parent) {
          FolderBelow(t, t, path, attr, desc, dbId, ddtype);
        } else if parents {
          CreateSetLaw(t, parent, attr, desc, true, dbId, SetType(ddtype));
          MakeableStep(t, parent);
          var up := CreatedSet(t, parent, attr, desc, true, dbId, SetType(ddtype));
          if norm == ROOT {
            RootMakeable(t);
          } else if up.ok {
            SetsAdded(t, parent, attr, desc, dbId, SetType(ddtype), norm);
          }
          if path == ROOT {
            RootRefused(t, up.folders, desc, attr, dbId, ddtype);
          } else if up.ok {
            FolderBelowMade(t, up.folders, path, attr, desc, dbId, ddtype);
          }
        }
      }
    }
  }

  lemma SetIsTaken(t: Folders, path: string)
    ensures HasSet(t, path) ==> Taken(t, path)
  {}

  lemma RootMakeable(t: Folders)
    requires !Taken(t, ROOT)
    ensures Normal(ROOT) && Makeable(t, ROOT)
  {}

  // ---- Ancestors

  /** `a` is `p` or stands above it. */
  predicate AtOrAbove(a: string, p: string)
    requires Normal(p)
    decreases |p|
  {
    SplitShape(p);
    a == p || (p != ROOT && AtOrAbove(a, ParentOf(p)))
  }

  /** Every proper ancestor of a stored name, in whatever spelling, is there as a folder set. */
  lemma {:induction false} AncestorsAreSets(t: Folders, a: string, r: FolderRow)
    requires Grove(t) && r in t.rows && Normal(Normalized(r.path)) && AtOrAbove(a, Normalized(r.path))
    ensures a == Normalized(r.path) || HasSet(t, a)
    decreases r.id
  {
    hide Normalized, Separate, Normal;
    var norm := Normalized(r.path);
    ParentFacts(r.path);
    AboveStep(norm);
    assert Hung(t.rows, r);
    if a != norm {
      ParentFacts(ROOT);
      var q :| q in t.rows && HangsFrom(r, q);
      AncestorsAreSets(t, a, q);
    }
  }

  /** A folder set can be made exactly when no plain folder stands at the path or above. */
  lemma {:induction false} MakeableExactly(t: Folders, path: string)
    requires Grove(t) && Normal(path)
    ensures Makeable(t, path) <==> forall r :: r in t.rows && !r.isSet ==> !AtOrAbove(r.path, path)
    decreases |path|
  {
    hide Grove, AtOrAbove, Normalized;
    SplitShape(path);
    AboveStep(path);
    ParentFacts(path);
    if HasSet(t, path) {
      var s :| s in t.rows && s.path == path && s.isSet;
      forall r | r in t.rows && !r.isSet
        ensures !AtOrAbove(r.path, path)
      {
        if AtOrAbove(r.path, path) {
          AboveIsNormal(r.path, path);
          PathsAreUnique(t, r);
          AncestorsAreSets(t, r.path, s);
        }
      }
    } else if Taken(t, path) {
      var r :| r in t.rows && r.path == path;
    } else if path != ROOT {
      MakeableExactly(t, ParentOf(path));
    }
  }

  lemma AboveStep(p: string)
    requires Normal(p)
    ensures Normal(ParentOf(p))
    ensures forall a :: AtOrAbove(a, p) <==> a == p || (p != ROOT && AtOrAbove(a, ParentOf(p)))
  {
    SplitShape(p);
  }

  lemma {:induction false} AboveIsNormal(a: string, p: string)
    requires Normal(p) && AtOrAbove(a, p)
    ensures Normal(a) && (a == p || |a| < |p|)
    decreases |p|
  {
    AboveStep(p);
    SplitShape(p);
    if a != p {
      AboveIsNormal(a, ParentOf(p));
    }
  }

  lemma PathsAreUnique(t: Folders, r: FolderRow)
    requires Grove(t) && r in t.rows && !r.isSet && Normal(r.path)
    ensures !HasSet(t, r.path)
  {}

  // ---- What is written

  /** A row written by a creation has the name given or stands above its normal form, and
      carries the description given; it carries the attributes given, or those of its parent
      if none are given. */
  ghost predicate Written(rows: seq<FolderRow>, r: FolderRow, path: string, attr: string, desc: string) {
    NormalizeKeepsNames(path);
    && (r.path == path || AtOrAbove(r.path, Normalized(path))) && r.desc == desc
    && (r.attr == attr || (attr == "" && exists p :: p in rows && p.isSet && p.id == r.parent && p.attr == r.attr))
  }

  lemma WrittenMore(rows: seq<FolderRow>, more: seq<FolderRow>, r: FolderRow, path: string, attr: string, desc: string)
    requires rows <= more && Normal(Normalized(path)) && Normalized(path) != ROOT
    requires Normal(ParentOf(Normalized(path))) && Written(rows, r, ParentOf(Normalized(path)), attr, desc)
    ensures Written(more, r, path, attr, desc)
  {
    hide Normalized;
    ParentFacts(path);
    AboveStep(Normalized(path));
    AboveStep(ParentOf(Normalized(path)));
    if p :| p in rows && p.isSet && p.id == r.parent && p.attr == r.attr {
      assert p in more;
    }
  }

  lemma UnderWritten(t: Folders, path: string, desc: string, attr: string, isSet: bool, dbId: int, ddtype: int)
    ensures Normal(Normalized(path)) && Normal(ParentOf(Normalized(path)))
    ensures var o := AddedUnder(t, ParentOf(Normalized(path)), path, desc, attr, isSet, dbId, ddtype);
            && t.rows <= o.folders.rows
            && (o.ok ==> var r := o.folders.rows[|t.rows|];
                  && o.folders.rows == t.rows + [r] && Written(o.folders.rows, r, path, attr, desc)
                  && r.path == path && r.isSet == isSet && r.dbId == dbId && r.ddtype == ddtype)
            && (!o.ok ==> o.folders == t)
  {
    hide Sets, Normalized;
    ParentFacts(path);
    QueriesFind(t, ParentOf(Normalized(path)));
    var o := AddedUnder(t, ParentOf(Normalized(path)), path, desc, attr, isSet, dbId, ddtype);
    if o.ok {
      var p := Sets(t.rows, ParentOf(Normalized(path)))[0];
      assert p in o.folders.rows;
    }
  }

  /** Rows are only added, and the new ones are sets written for the path. */
  ghost predicate AddsSets(t: Folders, u: Folders, path: string, attr: string, desc: string, dbId: int) {
    && t.rows <= u.rows
    && forall r :: r in u.rows && r !in t.rows ==> r.isSet && r.dbId == dbId && Written(u.rows, r, path, attr, desc)
  }

  lemma AddsOneSet(t: Folders, path: string, attr: string, desc: string, dbId: int, ddtype: int)
    ensures Normal(Normalized(path)) && Normal(ParentOf(Normalized(path)))
    ensures AddsSets(t, AddedUnder(t, ParentOf(Normalized(path)), path, desc, attr, true, dbId, ddtype).folders, path, attr, desc, dbId)
    ensures AddsSets(t, t, path, attr, desc, dbId)
  {
    hide AddedUnder, Written, Normal, Normalized;
    UnderWritten(t, path, desc, attr, true, dbId, ddtype);
  }

  lemma AddsAnotherSet(t: Folders, up: Folders, path: string, attr: string, desc: string, dbId: int, ddtype: int)
    requires Normal(Normalized(path)) && Normalized(path) != ROOT && Normal(ParentOf(Normalized(path)))
    requires AddsSets(t, up, ParentOf(Normalized(path)), attr, desc, dbId)
    ensures AddsSets(t, up, path, attr, desc, dbId)
    ensures AddsSets(t, AddedUnder(up, ParentOf(Normalized(path)), path, desc, attr, true, dbId, ddtype).folders, path, attr, desc, dbId)
  {
    hide AddedUnder, Written, Normal, Normalized;
    UnderWritten(up, path, desc, attr, true, dbId, ddtype);
    var o := AddedUnder(up, ParentOf(Normalized(path)), path, desc, attr, true, dbId, ddtype).folders;
    forall r | r in up.rows && r !in t.rows
      ensures Written(o.rows, r, path, attr, desc) && Written(up.rows, r, path, attr, desc)
    {
      WrittenMore(up.rows, o.rows, r, path, attr, desc);
      WrittenMore(up.rows, up.rows, r, path, attr, desc);
    }
  }

  /** The rows a creation of a set adds, in whatever spelling: a set of that name and sets
      above its normal form, nothing else. */
  lemma {:induction false} SetsWritten(t: Folders, path: string, attr: string, desc: string, parents: bool, dbId: int, ddtype: int)
    ensures AddsSets(t, CreatedSet(t, path, attr, desc, parents, dbId, ddtype).folders, path, attr, desc, dbId)
    decreases |path|
  {
    hide CreatedSet, AddsSets, AddedUnder, Added, Normal, Normalized;
    AddsOneSet(t, path, attr, desc, dbId, ddtype);
    ParentFacts(path);
    if Spelled(path) {
      CreatedSetCases(t, path, attr, desc, parents, dbId, ddtype);
      if Normalized(path) == ROOT {
        RootWritten(t, path, desc, attr, dbId);
      } else {
        SetsWritten(t, ParentOf(Normalized(path)), attr, desc, true, dbId, ddtype);
        AddsAnotherSet(t, CreatedSet(t, ParentOf(Normalized(path)), attr, desc, true, dbId, ddtype).folders, path, attr, desc, dbId, ddtype);
      }
    } else {
      Refused(t, path, attr, desc, parents, dbId, ddtype);
    }
  }

  lemma Refused(t: Folders, path: string, attr: string, desc: string, parents: bool, dbId: int, ddtype: int)
    requires !Spelled(path)
    ensures CreatedSet(t, path, attr, desc, parents, dbId, ddtype) == Outcome(false, t)
    ensures CreatedFolder(t, path, attr, desc, parents, dbId, ddtype) == Outcome(false, t)
  {}

  lemma RootWritten(t: Folders, path: string, desc: string, attr: string, dbId: int)
    requires Normalized(path) == ROOT
    ensures AddsSets(t, Added(t, ROOT, desc, attr, 0, true, dbId, 0), path, attr, desc, dbId)
  {
    ParentFacts(path);
  }

  /** The rows the creation of a plain folder adds: the folder itself with its type, and the
      sets above it that were missing; at the root, which is refused, at most the root set. */
  lemma FolderWritten(t: Folders, path: string, attr: string, desc: string, parents: bool, dbId: int, ddtype: int)
    ensures var o := CreatedFolder(t, path, attr, desc, parents, dbId, ddtype);
            forall r :: r in o.folders.rows && r !in t.rows ==>
              && r.dbId == dbId && Written(o.folders.rows, r, path, attr, desc)
              && (if r.path == path && path != ROOT then !r.isSet && r.ddtype == ddtype else r.isSet)
  {
    if Spelled(path) {
      hide AddedUnder, Written, Normal, CreatedSet, CreatedFolder, Normalized;
      ParentFacts(path);
      CreatedFolderCases(t, path, attr, desc, parents, dbId, ddtype);
      var parent := ParentOf(Normalized(path));
      UnderWritten(t, path, desc, attr, false, dbId, ddtype);
      SetsWritten(t, parent, attr, desc, true, dbId, SetType(ddtype));
      var up := CreatedSet(t, parent, attr, desc, true, dbId, SetType(ddtype)).folders;
      UnderWritten(up, path, desc, attr, false, dbId, ddtype);
      RootFolder(up, parent, path, desc, attr, dbId, ddtype);
      var o := AddedUnder(up, parent, path, desc, attr, false, dbId, ddtype).folders;
      forall r | r in up.rows && r !in t.rows
        ensures r.path == path ==> path == ROOT
        ensures Written(o.rows, r, path, attr, desc) && Written(up.rows, r, path, attr, desc)
      {
        WrittenAbove(up.rows, o.rows, r, path, attr, desc);
        WrittenAbove(up.rows, up.rows, r, path, attr, desc);
      }
    } else {
      Refused(t, path, attr, desc, parents, dbId, ddtype);
    }
  }

  lemma RootFolder(t: Folders, parent: string, path: string, desc: string, attr: string, dbId: int, ddtype: int)
    ensures path == ROOT ==> !AddedUnder(t, parent, path, desc, attr, false, dbId, ddtype).ok
  {}

  /** What was written for the parent was written for the path, and is not of its name. */
  lemma WrittenAbove(rows: seq<FolderRow>, more: seq<FolderRow>, r: FolderRow, path: string, attr: string, desc: string)
    requires rows <= more && Normal(Normalized(path)) && Normal(ParentOf(Normalized(path)))
    requires Written(rows, r, ParentOf(Normalized(path)), attr, desc)
    ensures Written(more, r, path, attr, desc) && (r.path == path ==> path == ROOT)
  {
    hide Normalized;
    var norm := Normalized(path);
    ParentFacts(path);
    AboveStep(ParentOf(norm));
    AboveIsNormal(r.path, ParentOf(norm));
    if norm != ROOT {
      WrittenMore(rows, more, r, path, attr, desc);
    } else {
      ParentFacts(ROOT);
      if p :| p in rows && p.isSet && p.id == r.parent && p.attr == r.attr {
        assert p in more;
      }
    }
  }

  // ---- Spelling

  /** A set created under another spelling is the set created under the normal form, only that
      its row bears the name as given; the root is stored as the root in any case. So doubled
      and trailing separators are ignored exactly when the call fails or the name is normal or
      means the root. */
  lemma SpellingKept(t: Folders, path: string, attr: string, desc: string, parents: bool, dbId: int, ddtype: int)
    requires Spelled(path)
    ensures var norm := Normalized(path);
            var o, n := CreatedSet(t, path, attr, desc, parents, dbId, ddtype), CreatedSet(t, norm, attr, desc, parents, dbId, ddtype);
            && o.ok == n.ok && o.folders.nextId == n.folders.nextId
            && (!o.ok || norm == ROOT ==> o == n)
            && (o.ok && norm != ROOT ==>
                  && n.folders.rows != [] && Last(n.folders).path == norm
                  && var k := |n.folders.rows| - 1;
                     o.folders.rows == n.folders.rows[..k] + [Last(n.folders).(path := path)])
            && (o == n <==> !o.ok || Normal(path) || norm == ROOT)
  {
    hide HasSet, Taken, AddedUnder, Added, Normal, Normalized, CreatedSet, ParentOf, Last;
    var norm := Normalized(path);
    ParentFacts(path);
    ParentFacts(norm);
    NormalIsSpelled(norm);
    CreatedSetCases(t, path, attr, desc, parents, dbId, ddtype);
    CreatedSetCases(t, norm, attr, desc, parents, dbId, ddtype);
    SetIsTaken(t, norm);
    if norm != ROOT {
      var parent := ParentOf(norm);
      UnderSpelling(t, parent, path, norm, desc, attr, true, dbId, ddtype);
      UnderSpelling(CreatedSet(t, parent, attr, desc, true, dbId, ddtype).folders, parent, path, norm, desc, attr, true, dbId, ddtype);
    }
  }

  lemma NormalIsSpelled(path: string)
    requires Normal(path)
    ensures Spelled(path)
  {}

  lemma UnderSpelling(t: Folders, parent: string, path: string, norm: string, desc: string, attr: string, isSet: bool, dbId: int, ddtype: int)
    requires isSet || (path != ROOT && norm != ROOT)
    ensures var o := AddedUnder(t, parent, path, desc, attr, isSet, dbId, ddtype);
            var n := AddedUnder(t, parent, norm, desc, attr, isSet, dbId, ddtype);
            && o.ok == n.ok && o.folders.nextId == n.folders.nextId
            && (!o.ok ==> o == n)
            && (o.ok ==>
                  && n.folders.rows != [] && Last(n.folders).path == norm
                  && o.folders.rows == n.folders.rows[..|n.folders.rows|-1] + [Last(n.folders).(path := path)]
                  && (o == n <==> path == norm))
  {
    hide Sets;
    var o := AddedUnder(t, parent, path, desc, attr, isSet, dbId, ddtype);
    var n := AddedUnder(t, parent, norm, desc, attr, isSet, dbId, ddtype);
    if o.ok {
      assert Last(o.folders).path == path;
    }
  }

  /** The same for plain folders, except at the root. A name that means the root and is spelled
      otherwise is created below the root set, which is created with it, where the root itself
      is refused after that. So the spelling is ignored exactly when the call fails or the
      name is normal. */
  lemma FolderSpellingKept(t: Folders, path: string, attr: string, desc: string, parents: bool, dbId: int, ddtype: int)
    requires Grove(t) && Spelled(path)
    ensures var norm := Normalized(path);
            var o, n := CreatedFolder(t, path, attr, desc, parents, dbId, ddtype), CreatedFolder(t, norm, attr, desc, parents, dbId, ddtype);
            && (norm != ROOT ==>
                  && o.ok == n.ok && o.folders.nextId == n.folders.nextId
                  && (!o.ok ==> o == n)
                  && (o.ok ==>
                        && n.folders.rows != [] && Last(n.folders).path == norm
                        && o.folders.rows == n.folders.rows[..|n.folders.rows|-1] + [Last(n.folders).(path := path)]))
            && (norm == ROOT && path != ROOT ==>
                  && !n.ok && (!o.ok ==> o == n)
                  && (o.ok ==>
                        && HasSet(n.folders, ROOT) && o.folders.rows != [] && o.folders.rows == n.folders.rows + [Last(o.folders)]
                        && Last(o.folders).path == path && !Last(o.folders).isSet))
            && (o == n <==> !o.ok || Normal(path))
  {
    hide Grove, HasSet, Taken, AddedUnder, Normal, Normalized, CreatedFolder, CreatedSet, ParentOf, Last, AllNormal, Makeable;
    var norm := Normalized(path);
    ParentFacts(path);
    ParentFacts(norm);
    NormalIsSpelled(norm);
    CreatedFolderCases(t, path, attr, desc, parents, dbId, ddtype);
    CreatedFolderCases(t, norm, attr, desc, parents, dbId, ddtype);
    CreateFolderLaw(t, path, attr, desc, parents, dbId, ddtype);
    CreateFolderLaw(t, norm, attr, desc, parents, dbId, ddtype);
    var parent := ParentOf(norm);
    var up := CreatedSet(t, parent, attr, desc, true, dbId, SetType(ddtype)).folders;
    if norm != ROOT {
      UnderSpelling(t, parent, path, norm, desc, attr, false, dbId, ddtype);
      UnderSpelling(up, parent, path, norm, desc, attr, false, dbId, ddtype);
    } else {
      SetIsTaken(t, ROOT);
      if !Taken(t, ROOT) {
        RootMakeable(t);
      }
      CreateSetLaw(t, ROOT, attr, desc, true, dbId, SetType(ddtype));
      RootUnder(up, path, desc, attr, dbId, ddtype);
    }
  }

  lemma RootUnder(up: Folders, path: string, desc: string, attr: string, dbId: int, ddtype: int)
    ensures AddedUnder(up, ROOT, ROOT, desc, attr, false, dbId, ddtype) == Outcome(false, up)
    ensures var o := AddedUnder(up, ROOT, path, desc, attr, false, dbId, ddtype);
            o.ok ==>
              && o.folders.rows != [] && o.folders.rows == up.rows + [Last(o.folders)]
              && Last(o.folders).path == path && !Last(o.folders).isSet
  {
    hide Sets;
  }

  /** Names are looked up in normal form but stored as given. So a set that was just created
      can be created again, with whatever attributes, if and only if its name is not normal
      and does not mean the root; and that is exactly when the rows are no tree any more. */
  lemma CreatedTwice(t: Folders, path: string, attr: string, desc: string, parents: bool, dbId: int, ddtype: int,
                     attr': string, desc': string, parents': bool, ddtype': int)
    requires Tree(t)
    ensures var o := CreatedSet(t, path, attr, desc, parents, dbId, ddtype); var u := o.folders;
            o.ok ==>
              && (CreatedSet(u, path, attr', desc', parents', dbId, ddtype').ok <==> !Normal(path) && Normalized(path) != ROOT)
              && (Tree(u) <==> Normal(path) || Normalized(path) == ROOT)
  {
    hide Tree, Grove, HasSet, Taken, CreatedSet, Normal, Normalized, AllNormal;
    var o := CreatedSet(t, path, attr, desc, parents, dbId, ddtype);
    TreeExactly(t);
    TreeExactly(o.folders);
    CreateSetLaw(t, path, attr, desc, parents, dbId, ddtype);
    if o.ok {
      CreateSetLaw(o.folders, path, attr', desc', parents', dbId, ddtype');
    }
  }

  /** The same for plain folders; a name that means the root, such as //, goes through once,
      and the rows are no tree then either. */
  lemma FolderTwice(t: Folders, path: string, attr: string, desc: string, parents: bool, dbId: int, ddtype: int,
                    attr': string, desc': string, parents': bool, ddtype': int)
    requires Tree(t)
    ensures var o := CreatedFolder(t, path, attr, desc, parents, dbId, ddtype); var u := o.folders;
            o.ok ==>
              && (CreatedFolder(u, path, attr', desc', parents', dbId, ddtype').ok <==> !Normal(path) && Normalized(path) != ROOT)
              && (Tree(u) <==> Normal(path))
  {
    hide Tree, Grove, HasSet, Taken, CreatedFolder, Normal, Normalized, AllNormal, Last;
    var o := CreatedFolder(t, path, attr, desc, parents, dbId, ddtype);
    TreeExactly(t);
    TreeExactly(o.folders);
    ParentFacts(path);
    CreateFolderLaw(t, path, attr, desc, parents, dbId, ddtype);
    if o.ok {
      CreateFolderLaw(o.folders, path, attr', desc', parents', dbId, ddtype');
    }
  }

  /** An instance: the spelling //a can be created twice under the root. */
  lemma DoubledName(t: Folders, dbId: int)
    requires Tree(t) && HasSet(t, ROOT) && !Taken(t, "/a")
    ensures var o := CreatedSet(t, "//a", "", "", false, dbId, 0);
            o.ok && !Tree(o.folders) && CreatedSet(o.folders, "//a", "", "", false, dbId, 0).ok
  {
    hide Tree, HasSet, Taken, CreatedSet, Grove;
    NormalOfDoubled();
    TreeExactly(t);
    CreateSetLaw(t, "//a", "", "", false, dbId, 0);
    CreatedTwice(t, "//a", "", "", false, dbId, 0, "", "", false, 0);
  }

  lemma NormalOfDoubled()
    ensures Normal("/a") && Normalized("//a") == "/a" && ParentOf("/a") == ROOT && Spelled("//a") && !Normal("//a")
  {
    var s := "//a";
    assert s[..2] == "//" && s[..2][..1] == "/" && s[..1][..0] == "";
    assert Squeezed("/") == "/";
    assert Squeezed("//") == "/";
    assert Squeezed(s) == "/a";
    assert "/a"[..1] == "/";
    assert s[0] == s[1] == SEP;
  }

  // ---- Deleting

  /** Deleting takes one row of exactly that name, if it has no children, and nothing else. */
  lemma {:induction false} DeleteLaw(t: Folders, path: string)
    requires Grove(t)
    ensures var o := Deleted(t, path);
            && Grove(o.folders) && (AllNormal(t) ==> AllNormal(o.folders))
            && (o.ok <==> Taken(t, path))
            && (!o.ok ==> o.folders == t)
            && (o.ok ==> exists res :: res in t.rows && res.path == path && OnlyLess(t, o.folders, res))
  {
    hide AllHung, Hung;
    QueriesFind(t, path);
    if Taken(t, path) {
      var res := ByPath(t.rows, path)[0];
      ChildrenAreBelow(t, res);
      assert forall r :: r in t.rows ==> (r.id == res.id <==> r == res);
      if Children(t.rows, res.id) == [] {
        RemoveKeepsGrove(t, res);
      }
    }
  }

  /** All rows but this one, and this one too if something stands below it. */
  ghost predicate OnlyLess(t: Folders, u: Folders, res: FolderRow) {
    forall r :: r in u.rows <==> r in t.rows && (r == res ==> HasChild(t, res.path))
  }

  /** Some row, in whatever spelling, belongs below the path. */
  ghost predicate HasChild(t: Folders, path: string) {
    exists c :: c in t.rows && BelongsBelow(c, path)
  }

  predicate BelongsBelow(c: FolderRow, path: string) {
    NormalizeKeepsNames(c.path);
    c.path != ROOT && ParentOf(Normalized(c.path)) == path
  }

  lemma ChildrenAreBelow(t: Folders, p: FolderRow)
    requires Grove(t) && p in t.rows
    ensures Children(t.rows, p.id) != [] <==> HasChild(t, p.path)
  {
    hide Normalized, ParentOf;
    var res := Children(t.rows, p.id);
    if res != [] {
      assert res[0] in res;
      assert Hung(t.rows, res[0]);
      var q :| q in t.rows && HangsFrom(res[0], q);
      assert q == p;
      assert BelongsBelow(res[0], p.path);
    }
    if HasChild(t, p.path) {
      var c :| c in t.rows && BelongsBelow(c, p.path);
      ParentFacts(c.path);
      assert Hung(t.rows, c);
      var q :| q in t.rows && HangsFrom(c, q);
      assert q == p;
      assert c in res;
    }
  }

  lemma RemoveKeepsGrove(t: Folders, p: FolderRow)
    requires Grove(t) && p in t.rows && Children(t.rows, p.id) == []
    ensures Grove(t.(rows := Delete(t.rows, (r: FolderRow) => r.id == p.id)))
  {
    hide HangsFrom;
    var rows := Delete(t.rows, (r: FolderRow) => r.id == p.id);
    forall r | r in rows
      ensures Hung(rows, r)
    {
      assert Hung(t.rows, r);
      if r.path != ROOT {
        var q :| q in t.rows && HangsFrom(r, q);
        HangsById(r, q);
        assert r.parent != p.id by {
          assert r !in Children(t.rows, p.id);
        }
        assert q in rows;
      }
    }
  }

  lemma HangsById(c: FolderRow, p: FolderRow)
    requires Spelled(c.path) && HangsFrom(c, p)
    ensures p.id == c.parent && p.isSet
  {}

  /** Deleting a folder just created takes exactly its row away again, if and only if no row
      bore the same name before; below an existing set that restores all rows. */
  lemma {:induction false} DeleteUndoesCreate(t: Folders, path: string, attr: string, desc: string, parents: bool, dbId: int, ddtype: int)
    requires Grove(t)
    ensures var o := CreatedFolder(t, path, attr, desc, parents, dbId, ddtype); var u := o.folders;
            o.ok ==>
              && t.rows < u.rows
              && (Deleted(u, path) == Outcome(true, Folders(u.rows[..|u.rows|-1], u.nextId)) <==> !Taken(t, path))
              && (HasSet(t, ParentPath(path)) ==> u.rows[..|u.rows|-1] == t.rows)
  {
    hide AddedUnder, Sets, Children, Grove, HasSet, Normal, Normalized, CreatedFolder, Deleted, ParentOf;
    var o := CreatedFolder(t, path, attr, desc, parents, dbId, ddtype);
    CreateFolderLaw(t, path, attr, desc, parents, dbId, ddtype);
    if o.ok {
      ParentFacts(path);
      var below := LastAdded(t, path, attr, desc, parents, dbId, ddtype);
      var u := o.folders;
      var r := Last(u);
      assert u.rows == below.rows + [r];
      if Taken(t, path) {
        var s :| s in t.rows && s.path == path;
        DeleteOther(u, below.rows, r, path, s);
      } else {
        DeleteLast(u, below.rows, r, path);
      }
    }
  }

  /** The folder's row comes last; below an existing set it is the only one. The name is taken
      before it as it was before the call. */
  lemma LastAdded(t: Folders, path: string, attr: string, desc: string, parents: bool, dbId: int, ddtype: int)
    returns (below: Folders)
    requires Grove(t) && CreatedFolder(t, path, attr, desc, parents, dbId, ddtype).ok
    ensures var u := CreatedFolder(t, path, attr, desc, parents, dbId, ddtype).folders;
            && u.rows != [] && u.rows == below.rows + [Last(u)] && t.rows <= below.rows
            && (forall r :: r in below.rows && r.path == path ==> r in t.rows)
            && (HasSet(t, ParentPath(path)) ==> below == t)
  {
    hide AddedUnder, Sets, Grove, HasSet, Taken, Normal, Normalized, CreatedFolder, CreatedSet, ParentOf, Written;
    ParentFacts(path);
    if !Spelled(path) {
      Refused(t, path, attr, desc, parents, dbId, ddtype);
    }
    CreatedFolderCases(t, path, attr, desc, parents, dbId, ddtype);
    var parent := ParentOf(Normalized(path));
    if HasSet(t, parent) {
      below := t;
      UnderWritten(t, path, desc, attr, false, dbId, ddtype);
    } else {
      below := CreatedSet(t, parent, attr, desc, true, dbId, SetType(ddtype)).folders;
      UnderWritten(below, path, desc, attr, false, dbId, ddtype);
      SetsWritten(t, parent, attr, desc, true, dbId, SetType(ddtype));
      RootFolder(below, parent, path, desc, attr, dbId, ddtype);
      forall r | r in below.rows && r.path == path && r !in t.rows
        ensures false
      {
        WrittenAbove(below.rows, below.rows, r, path, attr, desc);
      }
    }
  }

  lemma {:induction false} DeleteNone(rows: seq<FolderRow>, id: nat)
    requires forall r :: r in rows ==> r.id != id
    ensures Delete(rows, (r: FolderRow) => r.id == id) == rows
    decreases |rows|
  {
    if rows != [] {
      DeleteNone(rows[1..], id);
      DeleteNext(rows, id);
    }
  }

  lemma DeleteNext(rows: seq<FolderRow>, id: nat)
    requires rows != []
    ensures Delete(rows, (r: FolderRow) => r.id == id)
            == (if rows[0].id == id then [] else [rows[0]]) + Delete(rows[1..], (r: FolderRow) => r.id == id)
  {}

  lemma {:induction false} DeleteAppended(rows: seq<FolderRow>, r: FolderRow)
    ensures Delete(rows + [r], (x: FolderRow) => x.id == r.id) == Delete(rows, (x: FolderRow) => x.id == r.id)
    decreases |rows|
  {
    DeleteNext(rows + [r], r.id);
    if rows == [] {
      assert (rows + [r])[1..] == [];
    } else {
      DeleteAppended(rows[1..], r);
      DeleteNext(rows, r.id);
      assert (rows + [r])[1..] == rows[1..] + [r];
    }
  }

  /** The only row of its name, plain and last, is taken off the end. */
  lemma DeleteLast(u: Folders, rows: seq<FolderRow>, r: FolderRow, path: string)
    requires Grove(u) && u.rows == rows + [r] && r.path == path && !r.isSet
    requires forall s :: s in rows ==> s.path != path
    ensures Deleted(u, path) == Outcome(true, Folders(rows, u.nextId))
  {
    hide Children, Hung, Delete;
    assert r in u.rows && u.rows[|rows|] == r;
    QueriesFind(u, path);
    assert ByPath(u.rows, path)[0] == r;
    NoChildOfPlain(u, r);
    forall s | s in rows
      ensures s.id != r.id
    {
      var k :| 0 <= k < |rows| && rows[k] == s;
      assert u.rows[k] == s;
    }
    DeleteNone(rows, r.id);
    DeleteAppended(rows, r);
  }

  lemma NoChildOfPlain(t: Folders, r: FolderRow)
    requires Grove(t) && r in t.rows && !r.isSet
    ensures Children(t.rows, r.id) == []
  {
    hide HangsFrom;
    var res := Children(t.rows, r.id);
    if res != [] {
      assert res[0] in res;
      assert Hung(t.rows, res[0]);
      var q :| q in t.rows && HangsFrom(res[0], q);
      HangsById(res[0], q);
      assert false;
    }
  }

  /** An earlier row of the name is found first, so the last one stays. */
  lemma DeleteOther(u: Folders, rows: seq<FolderRow>, r: FolderRow, path: string, s: FolderRow)
    requires Grove(u) && u.rows == rows + [r] && r.path == path && s in rows && s.path == path
    ensures Deleted(u, path) != Outcome(true, Folders(rows, u.nextId))
  {
    hide Children, Hung;
    FirstFound(rows, r, path);
    assert u.rows[|rows|] == r;
    var res := ByPath(u.rows, path)[0];
    var k :| 0 <= k < |rows| && rows[k] == res;
    assert u.rows[k] == res;
    assert r in Deleted(u, path).folders.rows;
    assert forall i :: 0 <= i < |rows| ==> u.rows[i] == rows[i] && u.rows[i] != u.rows[|rows|];
  }

  lemma {:induction false} FirstFound(rows: seq<FolderRow>, r: FolderRow, path: string)
    requires exists s :: s in rows && s.path == path
    ensures ByPath(rows + [r], path) != [] && ByPath(rows + [r], path)[0] in rows
    decreases |rows|
  {
    assert (rows + [r])[1..] == rows[1..] + [r];
    if rows[0].path != path {
      FirstFound(rows[1..], r, path);
    }
  }

  // ---- Histories

  datatype Event =
    | MakeSet(path: string, attr: string, desc: string, parents: bool, ddtype: int)
    | MakeFolder(path: string, attr: string, desc: string, parents: bool, ddtype: int)
    | Drop(path: string)

  function Applied(t: Folders, e: Event, dbId: int): Folders {
    match e
    case MakeSet(path, attr, desc, parents, ddtype) => CreatedSet(t, path, attr, desc, parents, dbId, ddtype).folders
    case MakeFolder(path, attr, desc, parents, ddtype) => CreatedFolder(t, path, attr, desc, parents, dbId, ddtype).folders
    case Drop(path) => Deleted(t, path).folders
  }

  const EMPTY := Folders([], 1)

  function Run(es: seq<Event>, dbId: int): Folders {
    if es == [] then EMPTY else Applied(Run(es[..|es|-1], dbId), es[|es|-1], dbId)
  }

  /** A creation is harmless if it names its path in normal form, or names the root set in any
      spelling, or fails. */
  predicate Harmless(t: Folders, e: Event, dbId: int) {
    match e
    case MakeSet(path, attr, desc, parents, ddtype) =>
      Normal(path) || Normalized(path) == ROOT || !CreatedSet(t, path, attr, desc, parents, dbId, ddtype).ok
    case MakeFolder(path, attr, desc, parents, ddtype) =>
      Normal(path) || !CreatedFolder(t, path, attr, desc, parents, dbId, ddtype).ok
    case Drop(path) => true
  }

  lemma StepLaw(t: Folders, e: Event, dbId: int)
    requires Grove(t)
    ensures Grove(Applied(t, e, dbId))
    ensures AllNormal(t) ==> (AllNormal(Applied(t, e, dbId)) <==> Harmless(t, e, dbId))
  {
    hide Grove, AllNormal, CreatedSet, CreatedFolder, Deleted, Normal, Normalized, HasSet, Taken, Last;
    match e
    case MakeSet(path, attr, desc, parents, ddtype) =>
      CreateSetLaw(t, path, attr, desc, parents, dbId, ddtype);
    case MakeFolder(path, attr, desc, parents, ddtype) =>
      CreateFolderLaw(t, path, attr, desc, parents, dbId, ddtype);
    case Drop(path) =>
      DeleteLaw(t, path);
  }

  /** Over every history of creations and deletions, in whatever spelling and failed ones
      included, the rows keep their shape: ids and normal names are unique, every row stands
      under the set it belongs under, nothing dangles. */
  lemma {:induction false} RunsKeepGrove(es: seq<Event>, dbId: int)
    ensures Grove(Run(es, dbId))
  {
    if es != [] {
      hide Grove, Applied;
      RunsKeepGrove(es[..|es|-1], dbId);
      StepLaw(Run(es[..|es|-1], dbId), es[|es|-1], dbId);
    } else {
      assert Grove(EMPTY);
    }
  }

  ghost predicate TreeAfter(es: seq<Event>, dbId: int, k: nat)
    requires k <= |es|
  {
    Tree(Run(es[..k], dbId))
  }

  predicate HarmlessStep(es: seq<Event>, dbId: int, k: nat)
    requires k < |es|
  {
    Harmless(Run(es[..k], dbId), es[k], dbId)
  }

  lemma LastStep(es: seq<Event>, dbId: int, k: nat)
    requires k < |es|
    ensures TreeAfter(es, dbId, k) ==> (TreeAfter(es, dbId, k + 1) <==> HarmlessStep(es, dbId, k))
  {
    hide Tree, Grove, AllNormal, Applied, Harmless;
    var t, u := Run(es[..k], dbId), Run(es[..k+1], dbId);
    assert es[..k+1][..k] == es[..k];
    RunsKeepGrove(es[..k], dbId);
    StepLaw(t, es[k], dbId);
    TreeExactly(t);
    TreeExactly(u);
  }

  lemma StartsAsTree(es: seq<Event>, dbId: int)
    ensures TreeAfter(es, dbId, 0)
  {
    assert es[..0] == [] && Tree(EMPTY);
  }

  /** The rows are a tree throughout a history if and only if every step of it is harmless. */
  lemma {:induction false} RunsKeepTree(es: seq<Event>, dbId: int, n: nat)
    requires n <= |es|
    ensures (forall k :: 0 <= k <= n ==> TreeAfter(es, dbId, k)) <==> forall k :: 0 <= k < n ==> HarmlessStep(es, dbId, k)
    decreases n
  {
    hide TreeAfter, HarmlessStep;
    if n == 0 {
      StartsAsTree(es, dbId);
    } else {
      RunsKeepTree(es, dbId, n - 1);
      LastStep(es, dbId, n - 1);
    }
  }

  // ---- The manager

  class FolderMgr {
    const dbId: int
    var rows: seq<FolderRow>
    var nextId: nat

    function Abs(): Folders
      reads this
    {
      Folders(rows, nextId)
    }

    constructor (dbId: int)
      ensures Abs() == EMPTY && this.dbId == dbId
    {
      this.dbId := dbId;
      rows, nextId := [], 1;
    }

    /** INSERT; the id is the next of the table. A plain folder at the root is refused. */
    method Store(path: string, desc: string, attr: string, parentId: nat, isSet: bool, ddtype: int) returns (ok: bool)
      modifies this
      ensures ok <==> path != ROOT || isSet
      ensures ok ==> Abs() == Added(old(Abs()), path, desc, attr, parentId, isSet, dbId, ddtype)
      ensures !ok ==> Abs() == old(Abs())
    {
      if path == ROOT && !isSet {
        return false;
      }
      rows := rows + [FolderRow(nextId, parentId, path, desc, attr, isSet, dbId, ddtype)];
      nextId := nextId + 1;
      ok := true;
    }

    /** exist(): the path in normal form; a malformed path raises an exception. */
    method Exist(path: string) returns (ok: bool, found: bool)
      ensures ok <==> path != "" && path[0] == SEP
      ensures ok ==> (found <==> ByPath(rows, Normalized(path)) != [])
    {
      var norm;
      ok, norm := NormalizePath(path);
      found := ok && ByPath(rows, norm) != [];
    }

    /** Create a folder set, its missing ancestors first if asked to. */
    method CreateCondDBFolderSet(path: string, attr: string, desc: string, parents: bool, ddtype: int) returns (ok: bool)
      modifies this
      ensures Outcome(ok, Abs()) == CreatedSet(old(Abs()), path, attr, desc, parents, dbId, ddtype)
      decreases |path|
    {
      hide Sets, ByPath, Normalized;
      var found;
      ok, found := Exist(path);
      if !ok || found {
        return false;
      }
      var parent, name;
      ok, parent, name := SplitPath(path);
      SplitShape(Normalized(path));
      NormalIsNotLonger(path);
      var res := Sets(rows, parent);
      if |res| == 0 {
        if name == "" {
          ok := Store(ROOT, desc, attr, 0, true, 0);
          return;
        }
        if !parents {
          return false;
        }
        ok := CreateCondDBFolderSet(parent, attr, desc, true, ddtype);
        if !ok {
          return;
        }
        res := Sets(rows, parent);
        if |res| == 0 {
          return false;
        }
      }
      var parentId := res[0].id;
      var inherited := if attr == "" then res[0].attr else attr;
      ok := Store(path, desc, inherited, parentId, true, ddtype);
    }

    /** Create a plain folder below a folder set. */
    method CreateCondDBFolder(path: string, attr: string, desc: string, parents: bool, ddtype: int) returns (ok: bool)
      modifies this
      ensures Outcome(ok, Abs()) == CreatedFolder(old(Abs()), path, attr, desc, parents, dbId, ddtype)
    {
      hide Sets, ByPath, Normalized;
      var found;
      ok, found := Exist(path);
      if !ok || found {
        return false;
      }
      var parent, name;
      ok, parent, name := SplitPath(path);
      var res := Sets(rows, parent);
      if |res| == 0 {
        if !parents {
          return false;
        }
        ok := CreateCondDBFolderSet(parent, attr, desc, true, SetType(ddtype));
        if !ok {
          return;
        }
        res := Sets(rows, parent);
        if |res| == 0 {
          return false;
        }
      }
      var parentId := res[0].id;
      var inherited := if attr == "" then res[0].attr else attr;
      ok := Store(path, desc, inherited, parentId, false, ddtype);
    }

    /** Delete the row of a path if nothing stands below it. */
    method DeleteFolder(path: string) returns (ok: bool)
      modifies this
      ensures Outcome(ok, Abs()) == Deleted(old(Abs()), path)
    {
      hide ByPath, Children;
      var res := ByPath(rows, path);
      if |res| == 0 {
        return false;
      }
      var folderId := res[0].id;
      var children := Children(rows, folderId);
      if |children| == 0 {
        rows := Delete(rows, (r: FolderRow) => r.id == folderId);
      }
      ok := true;
    }
  }

  lemma NormalIsNotLonger(path: string)
    requires path != "" && path[0] == SEP
    ensures |Normalized(path)| <= |path|
  {}
}
