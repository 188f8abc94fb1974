/** The object manager of one folder: its key, head and tag tables, and the
    statements it runs on them. */
module MySqlObjectMgr {
  import opened CondDBKeys
  import opened SqlTable
  import opened HeadIndex
  import opened VersionedStore

  datatype OverlapRow = OverlapRow(h: HeadRow, layer: nat)

  /** A query result, no result at all for the unknown tag, or the exception raised when
      no query text was put together. */
  datatype Result<T> = Ok(value: T) | NoResult | EmptyQuery

  ghost function HeadHistory(t: Tables, since: Key, till: Key): set<FoundRow>
    requires Keyed(t)
  {
    set h | h in t.head && h.since < till && h.till > since :: Joined(t.log, h.objId, h.since, h.till)
  }

  ghost function TagHistory(t: Tables, tagId: int, since: Key, till: Key): set<FoundRow>
    requires Keyed(t)
  {
    set g | g in t.tags && g.tagId == tagId && g.since < till && g.till > since :: Joined(t.log, g.objId, g.since, g.till)
  }

  /** What a folder shows on HEAD (tag 0) or under a tag, nothing for the unknown tag. */
  ghost function Shown(t: Tables, tagId: int): set<FoundRow>
    requires Keyed(t)
  {
    if tagId == 0 then set h | h in t.head :: Joined(t.log, h.objId, h.since, h.till)
    else if tagId == -1 then {}
    else set g | g in t.tags && g.tagId == tagId :: Joined(t.log, g.objId, g.since, g.till)
  }

  function Heads(rows: seq<OverlapRow>): (r: seq<HeadRow>)
    ensures |r| == |rows| && forall i :: 0 <= i < |rows| ==> r[i] == rows[i].h
  {
    seq(|rows|, i requires 0 <= i < |rows| => rows[i].h)
  }

  ghost function HeadsOf(rows: seq<OverlapRow>): set<HeadRow> {
    Rows(Heads(rows))
  }

  /** A history query shows exactly what find shows at some point of the interval. */
  lemma HistoryIsFindOverInterval(t: Tables, since: Key, till: Key, f: FoundRow)
    requires Inv(t) && since < till
    ensures f in HeadHistory(t, since, till) <==> exists p: Key :: Within(since, p, till) && f in HeadFind(t, p)
  {
    if f in HeadHistory(t, since, till) {
      var h :| h in t.head && h.since < till && h.till > since && f == Joined(t.log, h.objId, h.since, h.till);
      var p := Max(since, h.since);
      assert NonEmpty(h);
      assert At(h, p) && Within(since, p, till);
      assert f in HeadFind(t, p);
    }
  }

  class ObjectMgr {
    var log: seq<LogRow>
    var head: seq<HeadRow>
    var tags: seq<TagRow>

    ghost function Abs(): Tables
      reads this
    {
      Tables(log, Rows(head), Rows(tags))
    }

    ghost predicate Valid()
      reads this
    {
      NoDup(head) && NoDup(tags) && Inv(Abs())
    }

    constructor ()
      ensures Valid() && Abs() == Tables([], {}, {})
    {
      log, head, tags := [], [], [];
    }

    /** The head fragments overlapping [since, till) with the layer of their object,
        in no particular order. */
    method SelectOverlap(since: Key, till: Key) returns (rows: seq<OverlapRow>)
      requires Valid()
      ensures Snapshot(Heads(rows), Rows(head), since, till)
      ensures forall i :: 0 <= i < |rows| ==> 1 <= rows[i].h.objId <= |log| && rows[i].layer == log[rows[i].h.objId-1].layer
    {
      hide Inv, Disjoint, Snapshot, Overlaps;
      InvParts(Abs());
      var hit := Select(head, (h: HeadRow) => Overlaps(h, since, till));
      assert forall i :: 0 <= i < |hit| ==> hit[i] in hit && hit[i] in Rows(head);
      var log := this.log;
      rows := seq(|hit|, i requires 0 <= i < |hit| => OverlapRow(hit[i], log[hit[i].objId-1].layer));
      HitSnapshot(head, hit, rows, since, till);
    }

    /** The four-case branch, every statement restricted to the exact row. */
    method TrimRow(r: HeadRow, since: Key, till: Key)
      modifies this`head
      ensures head == Trimmed(old(head), ExactRow(r), r, since, till)
    {
      if r.since < since && r.till > since && r.till <= till {
        head := Update(head, ExactRow(r), (h: HeadRow) => h.(till := since));
      } else if r.since >= since && r.till <= till {
        head := Delete(head, ExactRow(r));
      } else if r.since < till && r.till > till && r.since >= since {
        head := Update(head, ExactRow(r), (h: HeadRow) => h.(since := till));
      } else if r.since < since && r.till > till {
        head := Update(head, ExactRow(r), (h: HeadRow) => h.(till := since));
        head := head + [HeadRow(r.objId, till, r.till)];
      }
    }

    /** Blindly insert an object under the next id, in the log and in head. */
    method Insert(since: Key, till: Key, layer: nat, dbId: int, datId: int)
      modifies this`log, this`head
      ensures log == old(log) + [LogRow(|old(log)| + 1, since, till, layer, dbId, datId)]
      ensures head == old(head) + [HeadRow(|old(log)| + 1, since, till)]
    {
      log := log + [LogRow(|log| + 1, since, till, layer, dbId, datId)];
      head := head + [HeadRow(|log|, since, till)];
    }

    /** Trim every fragment of the snapshot and return their highest layer. */
    method TrimOverlapped(rows: seq<OverlapRow>, since: Key, till: Key) returns (layer: nat)
      requires |rows| != 0 && since < till
      requires NoDup(head) && Disjoint(Rows(head)) && Snapshot(Heads(rows), Rows(head), since, till)
      modifies this`head
      ensures NoDup(head) && Rows(head) == Carve(old(Rows(head)), since, till)
      ensures exists k :: 0 <= k < |rows| && rows[k].layer == layer
      ensures forall k :: 0 <= k < |rows| ==> rows[k].layer <= layer
    {
      hide *;
      ghost var before := Rows(head);
      layer := rows[0].layer;
      TrimFirst(before, head, rows, since, till);
      TrimRow(rows[0].h, since, till);
      var i := 1;
      while i < |rows|
        invariant 1 <= i <= |rows|
        invariant Midway(before, HeadsOf(rows[..i]), head, since, till)
        invariant exists k :: 0 <= k < i && rows[k].layer == layer
        invariant forall k :: 0 <= k < i ==> rows[k].layer <= layer
      {
        if rows[i].layer > layer {
          layer := rows[i].layer;
        }
        TrimExact(before, head, rows, i, since, till);
        TrimRow(rows[i].h, since, till);
        i := i + 1;
      }
      assert rows[..i] == rows;
      TrimDone(before, head, rows, since, till);
    }

    /** Trim every overlapped fragment, then put the object on top of them. */
    method Store(since: Key, till: Key, dbId: int, datId: int)
      requires Valid() && since < till
      modifies this
      ensures Valid()
      ensures Abs() == Stored(old(Abs()), since, till, dbId, datId)
    {
      hide Inv, Keyed, Disjoint, NoDup, Rows, Stored, Carve, Snapshot, NextLayer;
      ghost var t := Abs();
      var rows := SelectOverlap(since, till);
      InvParts(t);
      if |rows| != 0 {
        var layer := TrimOverlapped(rows, since, till);
        TopLayer(t, since, till, rows, layer);
        layer := layer + 1;
        StoreDone(t, head, since, till, layer, dbId, datId);
        Insert(since, till, layer, dbId, datId);
      } else {
        NoneTouched(t, rows, since, till);
        StoreDone(t, head, since, till, 0, dbId, datId);
        Insert(since, till, 0, dbId, datId);
      }
    }

    // ---- Queries

    /** Rows of head joined with the log. */
    method JoinHead(hit: seq<HeadRow>) returns (rows: seq<FoundRow>)
      requires Keyed(Abs()) && NoDup(hit) && forall h :: h in hit ==> h in head
      ensures NoDup(rows)
      ensures forall f :: f in rows <==> exists h :: h in hit && f == Joined(log, h.objId, h.since, h.till)
    {
      assert forall i :: 0 <= i < |hit| ==> hit[i] in hit && hit[i] in Rows(head);
      var log := this.log;
      rows := seq(|hit|, i requires 0 <= i < |hit| => Joined(log, hit[i].objId, hit[i].since, hit[i].till));
      forall h | h in hit
        ensures Joined(log, h.objId, h.since, h.till) in rows
      {
        var i :| 0 <= i < |hit| && hit[i] == h;
        assert rows[i] == Joined(log, h.objId, h.since, h.till);
      }
    }

    /** Rows of a tag joined with the log. */
    method JoinTag(hit: seq<TagRow>) returns (rows: seq<FoundRow>)
      requires Keyed(Abs()) && NoDup(hit) && forall g :: g in hit ==> g in tags
      requires forall g, g' :: g in hit && g' in hit ==> g.tagId == g'.tagId
      ensures NoDup(rows)
      ensures forall f :: f in rows <==> exists g :: g in hit && f == Joined(log, g.objId, g.since, g.till)
    {
      assert forall i :: 0 <= i < |hit| ==> hit[i] in hit && hit[i] in Rows(tags);
      var log := this.log;
      rows := seq(|hit|, i requires 0 <= i < |hit| => Joined(log, hit[i].objId, hit[i].since, hit[i].till));
      forall g | g in hit
        ensures Joined(log, g.objId, g.since, g.till) in rows
      {
        var i :| 0 <= i < |hit| && hit[i] == g;
        assert rows[i] == Joined(log, g.objId, g.since, g.till);
      }
    }

    /** Tag 0 means HEAD. Under a tag without rows no query is built and the empty
        statement is rejected by the server. */
    method Find(point: Key, tagId: int) returns (r: Result<seq<FoundRow>>)
      requires Valid()
      ensures !r.NoResult?
      ensures r.EmptyQuery? <==> tagId != 0 && TagRows(Abs().tags, tagId) == {}
      ensures r.Ok? ==> NoDup(r.value) && Rows(r.value) == if tagId == 0 then HeadFind(Abs(), point) else TagFind(Abs(), tagId, point)
    {
      hide Inv, Disjoint;
      InvParts(Abs());
      if tagId == 0 {
        var rows := JoinHead(Select(head, (h: HeadRow) => At(h, point)));
        r := Ok(rows);
      } else {
        var res := Select(tags, (g: TagRow) => g.tagId == tagId);
        if |res| == 0 {
          assert TagRows(Abs().tags, tagId) == {};
          r := EmptyQuery;
        } else {
          assert res[0] in TagRows(Abs().tags, tagId);
          var rows := JoinTag(Select(tags, (g: TagRow) => g.tagId == tagId && Within(g.since, point, g.till)));
          r := Ok(rows);
        }
      }
    }

    /** Fragments that meet [since, till), on HEAD or under a tag; no result for tag -1. */
    method BrowseHistory(since: Key, till: Key, tagId: int) returns (r: Result<seq<FoundRow>>)
      requires Valid()
      ensures r.NoResult? <==> tagId == -1
      ensures r.EmptyQuery? <==> tagId != 0 && tagId != -1 && TagRows(Abs().tags, tagId) == {}
      ensures r.Ok? ==> NoDup(r.value) && Rows(r.value) == if tagId == 0 then HeadHistory(Abs(), since, till) else TagHistory(Abs(), tagId, since, till)
    {
      hide Inv, Disjoint;
      InvParts(Abs());
      if tagId == 0 {
        var rows := JoinHead(Select(head, (h: HeadRow) => h.since < till && h.till > since));
        r := Ok(rows);
      } else if tagId == -1 {
        r := NoResult;
      } else {
        var res := Select(tags, (g: TagRow) => g.tagId == tagId);
        if |res| == 0 {
          assert TagRows(Abs().tags, tagId) == {};
          r := EmptyQuery;
        } else {
          assert res[0] in TagRows(Abs().tags, tagId);
          var rows := JoinTag(Select(tags, (g: TagRow) => g.tagId == tagId && g.since < till && g.till > since));
          r := Ok(rows);
        }
      }
    }

    /** Everything on HEAD or under a tag; no result for tag -1. */
    method BrowseTagged(tagId: int) returns (r: Result<seq<FoundRow>>)
      requires Valid()
      ensures r.NoResult? <==> tagId == -1
      ensures r.EmptyQuery? <==> tagId != 0 && tagId != -1 && TagRows(Abs().tags, tagId) == {}
      ensures r.Ok? ==> NoDup(r.value) && Rows(r.value) == Shown(Abs(), tagId)
    {
      hide Inv, Disjoint;
      InvParts(Abs());
      if tagId == 0 {
        var rows := JoinHead(head);
        r := Ok(rows);
      } else if tagId == -1 {
        r := NoResult;
      } else {
        var res := Select(tags, (g: TagRow) => g.tagId == tagId);
        if |res| == 0 {
          assert TagRows(Abs().tags, tagId) == {};
          r := EmptyQuery;
        } else {
          assert res[0] in TagRows(Abs().tags, tagId);
          var rows := JoinTag(res);
          r := Ok(rows);
        }
      }
    }

    // ---- Tags

    /** Copy head under the tag, replacing the rows the tag had. */
    method AddTag(newTagId: int) returns (ok: bool)
      requires Valid()
      modifies this
      ensures Valid()
      ensures Abs() == Tagged(old(Abs()), newTagId)
      ensures ok <==> old(Abs()).head != {}
    {
      hide Inv, Disjoint, Keyed, HeadAsTag;
      ghost var t := Abs();
      TaggedInv(t, newTagId);
      ok, tags := Retag(tags, head, newTagId);
      EmptyRows(head);
    }

    method RemoveTag(tagId: int)
      requires Valid()
      modifies this
      ensures Valid() && Abs() == Untagged(old(Abs()), tagId)
    {
      tags := Delete(tags, (g: TagRow) => g.tagId == tagId);
      assert Rows(tags) == old(Rows(tags)) - TagRows(old(Abs()).tags, tagId);
    }
  }

  lemma HitSnapshot(head: seq<HeadRow>, hit: seq<HeadRow>, rows: seq<OverlapRow>, since: Key, till: Key)
    requires NoDup(hit) && forall h :: h in hit <==> h in head && Overlaps(h, since, till)
    requires |rows| == |hit| && forall i :: 0 <= i < |hit| ==> rows[i].h == hit[i]
    ensures Snapshot(Heads(rows), Rows(head), since, till)
  {
    hide Overlaps;
    assert Heads(rows) == hit;
  }

  lemma EmptyRows(head: seq<HeadRow>)
    ensures Rows(head) == {} <==> head == []
  {
    if head != [] {
      assert head[0] in Rows(head);
    }
  }

  /** The statements of the tagging: DELETE the rows of the tag, INSERT one row for each row of
      head. An empty head leaves no statement to run: the empty one is rejected and nothing
      changes. */
  method Retag(tags: seq<TagRow>, res: seq<HeadRow>, newTagId: int) returns (ok: bool, out: seq<TagRow>)
    ensures ok <==> res != []
    ensures NoDup(tags) && NoDup(res) ==> NoDup(out)
    ensures Rows(out) == if ok then Rows(tags) - TagRows(Rows(tags), newTagId) + HeadAsTag(Rows(res), newTagId) else Rows(tags)
  {
    hide HeadAsTag, NoDup;
    if |res| == 0 {
      return false, tags;
    }
    out := Delete(tags, (g: TagRow) => g.tagId == newTagId);
    ghost var kept := Rows(out);
    assert kept == Rows(tags) - TagRows(Rows(tags), newTagId);
    TagNext(kept, out, res, 0, newTagId);
    out := out + [TagRow(newTagId, res[0].objId, res[0].since, res[0].till)];
    var i := 1;
    while i < |res|
      invariant 1 <= i <= |res|
      invariant NoDup(tags) && NoDup(res) ==> NoDup(out)
      invariant Rows(out) == kept + HeadAsTag(Rows(res[..i]), newTagId)
    {
      TagNext(kept, out, res, i, newTagId);
      out := out + [TagRow(newTagId, res[i].objId, res[i].since, res[i].till)];
      i := i + 1;
    }
    assert res[..i] == res;
    ok := true;
  }

  lemma TaggedInv(t: Tables, tagId: int)
    requires Inv(t)
    ensures Inv(Tagged(t, tagId))
  {}

  /** The next head row is added to the tag; it is not there yet if head holds no row twice. */
  lemma TagNext(kept: set<TagRow>, tags: seq<TagRow>, res: seq<HeadRow>, i: nat, tagId: int)
    requires i < |res|
    requires forall g :: g in kept ==> g.tagId != tagId
    requires Rows(tags) == kept + if i == 0 then {} else HeadAsTag(Rows(res[..i]), tagId)
    ensures var tags' := tags + [TagRow(tagId, res[i].objId, res[i].since, res[i].till)];
            && (NoDup(tags) && NoDup(res) ==> NoDup(tags'))
            && Rows(tags') == kept + HeadAsTag(Rows(res[..i+1]), tagId)
  {
    var g := TagRow(tagId, res[i].objId, res[i].since, res[i].till);
    assert Rows(res[..i+1]) == Rows(res[..i]) + {res[i]};
    assert HeadAsTag(Rows(res[..i+1]), tagId) == HeadAsTag(Rows(res[..i]), tagId) + {g};
    assert NoDup(res) ==> g !in HeadAsTag(Rows(res[..i]), tagId);
    assert forall k :: 0 <= k < |tags| ==> tags[k] in Rows(tags);
    assert Rows(tags + [g]) == Rows(tags) + {g};
  }

  /** What the queries need of the invariant. */
  lemma InvParts(t: Tables)
    requires Inv(t)
    ensures Keyed(t) && Disjoint(t.head)
  {}

  /** The exact condition reaches only the snapshot row at hand. */
  lemma {:induction false} TrimExact(before: set<HeadRow>, head: seq<HeadRow>, rows: seq<OverlapRow>, i: nat, since: Key, till: Key)
    requires since < till && Disjoint(before) && i < |rows|
    requires Snapshot(Heads(rows), before, since, till)
    requires Midway(before, HeadsOf(rows[..i]), head, since, till)
    ensures Midway(before, HeadsOf(rows[..i+1]), Trimmed(head, ExactRow(rows[i].h), rows[i].h, since, till), since, till)
  {
    hide Midway, Trimmed, Disjoint;
    var r, done := rows[i].h, HeadsOf(rows[..i]);
    HeadsOfNext(rows, i);
    assert r in HeadsOf(rows);
    assert done <= HeadsOf(rows);
    TrimStep(before, done, head, ExactRow(r), r, since, till);
  }

  lemma TrimFirst(before: set<HeadRow>, head: seq<HeadRow>, rows: seq<OverlapRow>, since: Key, till: Key)
    requires since < till && Disjoint(before) && |rows| != 0
    requires Snapshot(Heads(rows), before, since, till)
    requires NoDup(head) && Rows(head) == before
    ensures Midway(before, HeadsOf(rows[..1]), Trimmed(head, ExactRow(rows[0].h), rows[0].h, since, till), since, till)
  {
    hide Trimmed, Disjoint;
    assert Carve(HeadsOf(rows[..0]), since, till) == {};
    TrimExact(before, head, rows, 0, since, till);
  }

  lemma TrimDone(before: set<HeadRow>, head: seq<HeadRow>, rows: seq<OverlapRow>, since: Key, till: Key)
    requires since < till && Disjoint(before)
    requires Snapshot(Heads(rows), before, since, till)
    requires Midway(before, HeadsOf(rows), head, since, till)
    ensures NoDup(head) && Rows(head) == Carve(before, since, till)
  {
    hide Disjoint;
    CarveUntouched(before, HeadsOf(rows), since, till);
  }

  lemma TopLayer(t: Tables, since: Key, till: Key, rows: seq<OverlapRow>, layer: nat)
    requires Keyed(t) && |rows| != 0
    requires Snapshot(Heads(rows), t.head, since, till)
    requires forall i :: 0 <= i < |rows| ==> 1 <= rows[i].h.objId <= |t.log| && rows[i].layer == t.log[rows[i].h.objId-1].layer
    requires exists k :: 0 <= k < |rows| && rows[k].layer == layer
    requires forall k :: 0 <= k < |rows| ==> rows[k].layer <= layer
    ensures NextLayer(t, since, till) == layer + 1
  {
    var k :| 0 <= k < |rows| && rows[k].layer == layer;
    assert rows[k].h in HeadsOf(rows);
    assert layer in TouchedLayers(t, since, till);
  }

  lemma NoneTouched(t: Tables, rows: seq<OverlapRow>, since: Key, till: Key)
    requires Keyed(t) && Disjoint(t.head) && since < till
    requires Snapshot(Heads(rows), t.head, since, till) && |rows| == 0
    ensures NextLayer(t, since, till) == 0
    ensures Carve(t.head, since, till) == t.head
  {
    assert Touched(t.head, since, till) == {};
    assert Carve({}, since, till) == {};
    CarveUntouched(t.head, {}, since, till);
  }

  /** The new head row is none of the trimmed ones, and the insert completes the store. */
  lemma StoreDone(t: Tables, head: seq<HeadRow>, since: Key, till: Key, layer: nat, dbId: int, datId: int)
    requires Inv(t) && Keyed(t) && since < till
    requires NoDup(head) && Rows(head) == Carve(t.head, since, till)
    requires layer == NextLayer(t, since, till)
    ensures var head' := head + [HeadRow(|t.log| + 1, since, till)];
            && NoDup(head')
            && Tables(t.log + [LogRow(|t.log| + 1, since, till, layer, dbId, datId)], Rows(head'), t.tags)
               == Stored(t, since, till, dbId, datId)
    ensures Inv(Stored(t, since, till, dbId, datId))
  {
    hide Inv, Carve, NextLayer;
    StoredInv(t, since, till, dbId, datId);
    var added := HeadRow(|t.log| + 1, since, till);
    CarveAvoids(t.head, added, since, till);
    assert forall i :: 0 <= i < |head| ==> head[i] in Rows(head);
    assert Rows(head + [added]) == Rows(head) + {added};
  }

  lemma HeadsOfNext(rows: seq<OverlapRow>, i: nat)
    requires i < |rows|
    ensures HeadsOf(rows[..i+1]) == HeadsOf(rows[..i]) + {rows[i].h}
  {
    assert Heads(rows[..i+1]) == Heads(rows[..i]) + [rows[i].h];
  }
}
