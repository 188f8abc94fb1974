/** The versioned interval store of one folder as a value: an append-only log of
    stored objects, the head table that indexes it, and the tag rows on top. */
module VersionedStore {
  import opened CondDBKeys
  import opened SqlTable
  import opened HeadIndex

  datatype TagRow = TagRow(tagId: int, objId: nat, since: Key, till: Key)

  datatype Tables = Tables(log: seq<LogRow>, head: set<HeadRow>, tags: set<TagRow>)

  /** A row of a query that joins an index table with the log. */
  datatype FoundRow = FoundRow(objId: nat, since: Key, till: Key, layer: nat, dbId: int, datId: int)

  datatype Event =
    | StoreObject(since: Key, till: Key, dbId: int, datId: int)
    | AddTag(tagId: int)
    | RemoveTag(tagId: int)

  // ---- Keys and joins

  ghost predicate Keyed(t: Tables) {
    && (forall i :: 0 <= i < |t.log| ==> t.log[i].objId == i + 1)
    && (forall h :: h in t.head ==> 1 <= h.objId <= |t.log|)
    && (forall g :: g in t.tags ==> 1 <= g.objId <= |t.log|)
  }

  function Joined(log: seq<LogRow>, objId: nat, since: Key, till: Key): FoundRow
    requires 1 <= objId <= |log|
  {
    var o := log[objId - 1];
    FoundRow(objId, since, till, o.layer, o.dbId, o.datId)
  }

  /** Find on HEAD. */
  ghost function HeadFind(t: Tables, p: Key): set<FoundRow>
    requires Keyed(t)
  {
    set h | h in t.head && At(h, p) :: Joined(t.log, h.objId, h.since, h.till)
  }

  ghost function TagRows(tags: set<TagRow>, tagId: int): set<TagRow> {
    set g | g in tags && g.tagId == tagId
  }

  /** Find under a tag, when the tag has rows. */
  ghost function TagFind(t: Tables, tagId: int, p: Key): set<FoundRow>
    requires Keyed(t)
  {
    set g | g in t.tags && g.tagId == tagId && Within(g.since, p, g.till) :: Joined(t.log, g.objId, g.since, g.till)
  }

  // ---- Operations

  ghost function Touched(head: set<HeadRow>, since: Key, till: Key): set<HeadRow> {
    set h | h in head && Overlaps(h, since, till)
  }

  /** Every overlapping head row once, in some order. */
  ghost predicate Snapshot(rows: seq<HeadRow>, head: set<HeadRow>, since: Key, till: Key) {
    NoDup(rows) && Rows(rows) == Touched(head, since, till)
  }

  ghost function MaxOf(s: set<nat>): (m: nat)
    requires s != {}
    ensures m in s && forall x :: x in s ==> x <= m
  {
    var x :| x in s;
    if s == {x} then x
    else
      assert s == {x} + (s - {x});
      var m := MaxOf(s - {x});
      if m < x then x else m
  }

  ghost function TouchedLayers(t: Tables, since: Key, till: Key): set<nat>
    requires Keyed(t)
  {
    set h | h in Touched(t.head, since, till) :: t.log[h.objId - 1].layer
  }

  ghost function NextLayer(t: Tables, since: Key, till: Key): nat
    requires Keyed(t)
  {
    if TouchedLayers(t, since, till) == {} then 0 else MaxOf(TouchedLayers(t, since, till)) + 1
  }

  ghost function Stored(t: Tables, since: Key, till: Key, dbId: int, datId: int): Tables
    requires Keyed(t)
  {
    var id := |t.log| + 1;
    Tables(t.log + [LogRow(id, since, till, NextLayer(t, since, till), dbId, datId)],
           Carve(t.head, since, till) + {HeadRow(id, since, till)},
           t.tags)
  }

  ghost function Untagged(t: Tables, tagId: int): Tables {
    t.(tags := t.tags - TagRows(t.tags, tagId))
  }

  ghost function HeadAsTag(head: set<HeadRow>, tagId: int): set<TagRow> {
    set h | h in head :: TagRow(tagId, h.objId, h.since, h.till)
  }

  /** Tagging an empty head fails and changes nothing. */
  ghost function Tagged(t: Tables, tagId: int): Tables {
    if t.head == {} then t
    else t.(tags := t.tags - TagRows(t.tags, tagId) + HeadAsTag(t.head, tagId))
  }

  // ---- The invariant of every reachable state

  /** The last stored object whose interval contains p, 0 if there is none. */
  ghost function LastOver(log: seq<LogRow>, p: Key): (id: nat)
    ensures id <= |log|
    ensures id == 0 ==> forall i :: 0 <= i < |log| ==> !Within(log[i].since, p, log[i].till)
    ensures id != 0 ==> Within(log[id-1].since, p, log[id-1].till)
    ensures id != 0 ==> forall i :: id <= i < |log| ==> !Within(log[i].since, p, log[i].till)
  {
    if log == [] then 0
    else
      var last := log[|log| - 1];
      if Within(last.since, p, last.till) then |log| else LastOver(log[..|log| - 1], p)
  }

  ghost predicate LogOverlap(a: LogRow, b: LogRow) {
    a.since < b.till && b.since < a.till
  }

  ghost predicate LogInv(log: seq<LogRow>) {
    && (forall i :: 0 <= i < |log| ==> log[i].since < log[i].till)
    && (forall i, j :: 0 <= i < j < |log| && LogOverlap(log[i], log[j]) ==> log[i].layer < log[j].layer)
  }

  ghost predicate Refines(head: set<HeadRow>, log: seq<LogRow>) {
    && (forall h, p: Key :: h in head && At(h, p) ==> h.objId == LastOver(log, p))
    && (forall p: Key :: LastOver(log, p) != 0 ==> exists h :: h in head && At(h, p))
  }

  ghost predicate InLogged(t: Tables)
    requires Keyed(t)
  {
    forall h :: h in t.head ==> Inside(h, t.log[h.objId-1].since, t.log[h.objId-1].till)
  }

  ghost predicate Inv(t: Tables) {
    && Keyed(t)
    && LogInv(t.log)
    && Disjoint(t.head)
    && InLogged(t)
    && Refines(t.head, t.log)
  }

  // ---- One store preserves it

  /** Trimming makes no row of a new object. */
  lemma CarveAvoids(head: set<HeadRow>, h: HeadRow, since: Key, till: Key)
    requires forall g :: g in head ==> g.objId != h.objId
    ensures h !in Carve(head, since, till)
  {}

  lemma CarvedAt(head: set<HeadRow>, since: Key, till: Key, q: HeadRow, p: Key)
    requires Disjoint(head) && since <= till
    requires q in Carve(head, since, till)
    ensures NonEmpty(q) && !Overlaps(q, since, till)
    ensures exists h :: h in head && h.objId == q.objId && Inside(q, h.since, h.till)
    ensures At(q, p) ==> !Within(since, p, till)
  {}

  lemma CarveKeeps(head: set<HeadRow>, since: Key, till: Key, h: HeadRow, p: Key)
    requires Disjoint(head) && since <= till
    requires h in head && At(h, p) && !Within(since, p, till)
    ensures exists q :: q in Carve(head, since, till) && At(q, p) && q.objId == h.objId
  {
    var q := if p < since then h.(till := Min(h.till, since)) else h.(since := Max(h.since, till));
    assert q in Pieces(h, since, till);
    assert At(q, p);
  }

  lemma PiecesDisjoint(g: HeadRow, h: HeadRow, a: HeadRow, b: HeadRow, since: Key, till: Key)
    requires since <= till && (g == h || !Overlaps(g, h.since, h.till))
    requires a in Pieces(g, since, till) && b in Pieces(h, since, till) && a != b
    ensures NonEmpty(a) && !Overlaps(a, b.since, b.till)
  {}

  lemma {:induction false} CarveDisjoint(head: set<HeadRow>, since: Key, till: Key)
    requires Disjoint(head) && since <= till
    ensures Disjoint(Carve(head, since, till))
  {
    hide Pieces, Overlaps;
    var carved := Carve(head, since, till);
    forall a | a in carved
      ensures NonEmpty(a)
    {
      CarvedAt(head, since, till, a, since);
    }
    forall a, b | a in carved && b in carved && a != b
      ensures !Overlaps(a, b.since, b.till)
    {
      var g :| g in head && a in Pieces(g, since, till);
      var h :| h in head && b in Pieces(h, since, till);
      PiecesDisjoint(g, h, a, b, since, till);
    }
  }

  lemma {:induction false} StoredHead(t: Tables, since: Key, till: Key, dbId: int, datId: int)
    requires Inv(t) && since < till
    ensures var u := Stored(t, since, till, dbId, datId); Keyed(u) && Disjoint(u.head) && InLogged(u)
  {
    hide Pieces, Refines, LogInv, NextLayer;
    var u := Stored(t, since, till, dbId, datId);
    var added := HeadRow(|t.log| + 1, since, till);
    var carved := Carve(t.head, since, till);
    CarveDisjoint(t.head, since, till);
    forall q | q in carved
      ensures NonEmpty(q) && !Overlaps(q, since, till) && 1 <= q.objId <= |t.log|
      ensures Inside(q, t.log[q.objId-1].since, t.log[q.objId-1].till)
    {
      CarvedAt(t.head, since, till, q, since);
    }
    DisjointAdd(carved, added);
    assert u.head == carved + {added};
  }

  lemma DisjointAdd(head: set<HeadRow>, h: HeadRow)
    requires Disjoint(head) && NonEmpty(h)
    requires forall q :: q in head ==> !Overlaps(q, h.since, h.till)
    ensures Disjoint(head + {h})
  {}

  lemma LastOverAppend(log: seq<LogRow>, o: LogRow, p: Key)
    ensures LastOver(log + [o], p) == if Within(o.since, p, o.till) then |log| + 1 else LastOver(log, p)
  {
    assert (log + [o])[..|log|] == log;
  }

  lemma StoredRefines(t: Tables, since: Key, till: Key, dbId: int, datId: int)
    requires Inv(t) && since < till
    ensures var u := Stored(t, since, till, dbId, datId); Refines(u.head, u.log)
  {
    var u := Stored(t, since, till, dbId, datId);
    var o := u.log[|t.log|];
    forall h, p: Key | h in u.head && At(h, p)
      ensures h.objId == LastOver(u.log, p)
    {
      LastOverAppend(t.log, o, p);
      if h in Carve(t.head, since, till) {
        CarvedAt(t.head, since, till, h, p);
        var g :| g in t.head && g.objId == h.objId && Inside(h, g.since, g.till);
        assert At(g, p);
      }
    }
    forall p: Key | LastOver(u.log, p) != 0
      ensures exists h :: h in u.head && At(h, p)
    {
      LastOverAppend(t.log, o, p);
      if Within(since, p, till) {
        assert At(HeadRow(o.objId, since, till), p);
      } else {
        var h :| h in t.head && At(h, p);
        CarveKeeps(t.head, since, till, h, p);
      }
    }
  }

  lemma LayersAt(log: seq<LogRow>, p: Key, i: nat, j: nat)
    requires LogInv(log) && i < j < |log|
    requires Within(log[i].since, p, log[i].till) && Within(log[j].since, p, log[j].till)
    ensures log[i].layer < log[j].layer
  {
    assert LogOverlap(log[i], log[j]);
  }

  lemma LogRowNonEmpty(log: seq<LogRow>, i: nat)
    requires LogInv(log) && i < |log|
    ensures log[i].since < log[i].till
  {}

  /** The last object over a point has the highest layer there. */
  lemma LastIsHighest(log: seq<LogRow>, p: Key, i: nat)
    requires LogInv(log) && i < |log| && Within(log[i].since, p, log[i].till)
    ensures i < LastOver(log, p) && log[i].layer <= log[LastOver(log, p) - 1].layer
  {
    var k := LastOver(log, p);
    if i < k - 1 {
      LayersAt(log, p, i, k - 1);
    }
  }

  /** The layer is taken over the fragments still visible in head; it nevertheless
      exceeds the layer of every logged object the new one overlaps. */
  lemma StoredLayers(t: Tables, since: Key, till: Key, i: nat)
    requires Inv(t) && since < till
    requires i < |t.log| && t.log[i].since < till && since < t.log[i].till
    ensures t.log[i].layer < NextLayer(t, since, till)
  {
    hide Disjoint, InLogged, LogInv, NextLayer;
    var p := Max(since, t.log[i].since);
    LogRowNonEmpty(t.log, i);
    LastIsHighest(t.log, p, i);
    var k := LastOver(t.log, p);
    var h :| h in t.head && At(h, p);
    assert h in Touched(t.head, since, till) && h.objId == k;
    assert t.log[k-1].layer in TouchedLayers(t, since, till);
    NextLayerAbove(t, since, till, t.log[k-1].layer);
  }

  lemma NextLayerAbove(t: Tables, since: Key, till: Key, layer: nat)
    requires Keyed(t) && layer in TouchedLayers(t, since, till)
    ensures layer < NextLayer(t, since, till)
  {}

  lemma {:induction false} StoredInv(t: Tables, since: Key, till: Key, dbId: int, datId: int)
    requires Inv(t) && since < till
    ensures Inv(Stored(t, since, till, dbId, datId))
  {
    StoredHead(t, since, till, dbId, datId);
    StoredRefines(t, since, till, dbId, datId);
    forall i | 0 <= i < |t.log| && t.log[i].since < till && since < t.log[i].till
      ensures t.log[i].layer < NextLayer(t, since, till)
    {
      StoredLayers(t, since, till, i);
    }
  }
}
