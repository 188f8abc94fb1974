/** What every history of stores, tags and untags guarantees. */
module VersionedRuns {
  import opened CondDBKeys
  import opened HeadIndex
  import opened VersionedStore

  ghost predicate Legal(e: Event) {
    e.StoreObject? ==> e.since < e.till
  }

  ghost predicate AllLegal(es: seq<Event>) {
    forall i :: 0 <= i < |es| ==> Legal(es[i])
  }

  ghost function Apply(t: Tables, e: Event): (u: Tables)
    requires Inv(t) && Legal(e)
    ensures Inv(u)
  {
    match e
    case StoreObject(since, till, dbId, datId) =>
      StoredInv(t, since, till, dbId, datId);
      Stored(t, since, till, dbId, datId)
    case AddTag(tagId) => Tagged(t, tagId)
    case RemoveTag(tagId) => Untagged(t, tagId)
  }

  const EMPTY := Tables([], {}, {})

  ghost function RunFrom(t: Tables, es: seq<Event>): (u: Tables)
    requires Inv(t) && AllLegal(es)
    ensures Inv(u)
  {
    if es == [] then t
    else Apply(RunFrom(t, es[..|es|-1]), es[|es|-1])
  }

  ghost function Run(es: seq<Event>): (u: Tables)
    requires AllLegal(es)
    ensures Inv(u)
  {
    RunFrom(EMPTY, es)
  }

  lemma RunFromNext(t: Tables, es: seq<Event>, e: Event)
    requires Inv(t) && AllLegal(es) && Legal(e)
    ensures AllLegal(es + [e]) && RunFrom(t, es + [e]) == Apply(RunFrom(t, es), e)
  {
    hide Inv, Apply, Legal;
    assert (es + [e])[..|es|] == es;
  }

  lemma {:induction false} RunSplit(t: Tables, a: seq<Event>, b: seq<Event>)
    requires Inv(t) && AllLegal(a) && AllLegal(b)
    ensures AllLegal(a + b)
    ensures RunFrom(t, a + b) == RunFrom(RunFrom(t, a), b)
  {
    hide Inv, Apply, Legal;
    if b == [] {
      assert a + b == a;
    } else {
      hide RunFrom;
      var n := |b| - 1;
      RunSplit(t, a, b[..n]);
      RunFromNext(t, a + b[..n], b[n]);
      RunFromNext(RunFrom(t, a), b[..n], b[n]);
      assert a + b == (a + b[..n]) + [b[n]] && b == b[..n] + [b[n]];
    }
  }

  // ---- Last store wins

  predicate StoresOver(e: Event, p: Key) {
    e.StoreObject? && Within(e.since, p, e.till)
  }

  /** The last event that stored an object over p, -1 if there is none. */
  ghost function LastStoreOver(es: seq<Event>, p: Key): (k: int)
    ensures -1 <= k < |es|
    ensures k >= 0 ==> StoresOver(es[k], p)
    ensures forall i :: k < i < |es| ==> !StoresOver(es[i], p)
  {
    if es == [] then -1
    else if StoresOver(es[|es|-1], p) then |es| - 1
    else LastStoreOver(es[..|es|-1], p)
  }

  ghost function StoreCount(es: seq<Event>): nat {
    if es == [] then 0
    else StoreCount(es[..|es|-1]) + if es[|es|-1].StoreObject? then 1 else 0
  }

  /** The log holds one row per store, and its last row over p is that of the last store. */
  ghost predicate LogFollows(log: seq<LogRow>, es: seq<Event>, p: Key) {
    var k, id := LastStoreOver(es, p), LastOver(log, p);
    && |log| == StoreCount(es)
    && (k == -1 ==> id == 0)
    && (k != -1 ==>
          && id == StoreCount(es[..k+1]) >= 1
          && log[id-1].since == es[k].since && log[id-1].till == es[k].till
          && log[id-1].dbId == es[k].dbId && log[id-1].datId == es[k].datId)
  }

  lemma LogFollowsStep(log: seq<LogRow>, es: seq<Event>, e: Event, layer: nat, p: Key)
    requires LogFollows(log, es, p)
    ensures e.StoreObject? ==>
              LogFollows(log + [LogRow(|log| + 1, e.since, e.till, layer, e.dbId, e.datId)], es + [e], p)
    ensures !e.StoreObject? ==> LogFollows(log, es + [e], p)
  {
    var all := es + [e];
    assert all[..|es|] == es;
    assert all[..|es|+1] == all;
    var k := LastStoreOver(es, p);
    if 0 <= k {
      assert es[..k+1] == all[..k+1];
    }
    if e.StoreObject? {
      LastOverAppend(log, LogRow(|log| + 1, e.since, e.till, layer, e.dbId, e.datId), p);
    }
  }

  lemma ApplyLog(t: Tables, e: Event)
    requires Inv(t) && Legal(e)
    ensures Keyed(t)
    ensures Apply(t, e).log ==
              if e.StoreObject? then t.log + [LogRow(|t.log| + 1, e.since, e.till, NextLayer(t, e.since, e.till), e.dbId, e.datId)]
              else t.log
  {
    hide Carve, NextLayer, Disjoint, LogInv, InLogged, Refines;
  }

  lemma RunNext(es: seq<Event>)
    requires AllLegal(es) && es != []
    ensures var n := |es| - 1; AllLegal(es[..n]) && Legal(es[n]) && Run(es) == Apply(Run(es[..n]), es[n])
  {
    hide Inv, Apply;
  }

  lemma LogFollowsNone(p: Key)
    ensures AllLegal([]) && Run([]) == EMPTY && LogFollows(EMPTY.log, [], p)
  {}

  lemma {:induction false} LogFollowsEvents(es: seq<Event>, p: Key)
    requires AllLegal(es)
    ensures LogFollows(Run(es).log, es, p)
  {
    hide *;
    LogFollowsNone(p);
    if es != [] {
      var n := |es| - 1;
      RunNext(es);
      LogFollowsEvents(es[..n], p);
      var t := Run(es[..n]);
      ApplyLog(t, es[n]);
      LogFollowsStep(t.log, es[..n], es[n], if es[n].StoreObject? then NextLayer(t, es[n].since, es[n].till) else 0, p);
      assert es[..n] + [es[n]] == es;
    }
  }

  lemma AtMostOneAt(head: set<HeadRow>, g: HeadRow, h: HeadRow, p: Key)
    requires Disjoint(head) && g in head && h in head && At(g, p) && At(h, p)
    ensures g == h
  {
    assert Overlaps(g, h.since, h.till);
  }

  /** Find on HEAD returns the visible fragment of the last logged object over p. */
  lemma HeadFindIsLast(t: Tables, p: Key) returns (f: FoundRow)
    requires Inv(t)
    ensures LastOver(t.log, p) == 0 ==> HeadFind(t, p) == {}
    ensures LastOver(t.log, p) != 0 ==> HeadFind(t, p) == {f} && IsJoin(t.log, LastOver(t.log, p), f, p)
  {
    hide LogInv, Disjoint;
    f := FoundRow(0, 0, 0, 0, 0, 0);
    if LastOver(t.log, p) != 0 {
      var h :| h in t.head && At(h, p);
      forall g | g in t.head && At(g, p)
        ensures g == h
      {
        AtMostOneAt(t.head, g, h, p);
      }
      f := Joined(t.log, h.objId, h.since, h.till);
      assert f in HeadFind(t, p);
    }
  }

  /** `f` shows a fragment over p of the logged object `id`. */
  ghost predicate IsJoin(log: seq<LogRow>, id: nat, f: FoundRow, p: Key) {
    && 1 <= id <= |log|
    && var o := log[id-1];
    && f == FoundRow(id, f.since, f.till, o.layer, o.dbId, o.datId)
    && o.since <= f.since <= p < f.till <= o.till
  }

  /** After any history, find on HEAD at p returns exactly the object stored last over
      p, and nothing if no object was ever stored over p. */
  lemma {:induction false} LastStoreWins(es: seq<Event>, p: Key) returns (f: FoundRow)
    requires AllLegal(es)
    ensures var k := LastStoreOver(es, p);
            if k == -1 then HeadFind(Run(es), p) == {}
            else
              && HeadFind(Run(es), p) == {f}
              && f.objId == StoreCount(es[..k+1])
              && f.dbId == es[k].dbId && f.datId == es[k].datId
              && es[k].since <= f.since <= p < f.till <= es[k].till
  {
    hide LogInv, Disjoint, InLogged, Refines;
    LogFollowsEvents(es, p);
    f := HeadFindIsLast(Run(es), p);
  }

  /** At every point the logged objects over it have strictly increasing layers in
      store order, and the fragment in head there belongs to the highest one. */
  lemma {:induction false} LayersClimb(es: seq<Event>, p: Key, i: nat, j: nat) returns (f: FoundRow)
    requires AllLegal(es)
    requires i < j < |Run(es).log|
    requires var log := Run(es).log; Within(log[i].since, p, log[i].till) && Within(log[j].since, p, log[j].till)
    ensures Run(es).log[i].layer < Run(es).log[j].layer
    ensures HeadFind(Run(es), p) == {f} && Run(es).log[j].layer <= f.layer && j < f.objId
  {
    var t := Run(es);
    LayersAt(t.log, p, i, j);
    LastIsHighest(t.log, p, j);
    f := HeadFindIsLast(t, p);
  }

  // ---- Covered set and size

  ghost predicate Covered(t: Tables, p: Key) {
    exists h :: h in t.head && At(h, p)
  }

  /** Each store adds [since, till) to the covered set and takes nothing away. */
  lemma StoreCovers(t: Tables, since: Key, till: Key, dbId: int, datId: int, p: Key)
    requires Inv(t) && since < till
    ensures Covered(Stored(t, since, till, dbId, datId), p) <==> Covered(t, p) || Within(since, p, till)
  {
    var u := Stored(t, since, till, dbId, datId);
    StoredInv(t, since, till, dbId, datId);
    LastOverAppend(t.log, u.log[|t.log|], p);
    assert Covered(t, p) <==> LastOver(t.log, p) != 0;
    assert Covered(u, p) <==> LastOver(u.log, p) != 0;
  }

  lemma PieceCount(h: HeadRow, since: Key, till: Key)
    requires since < till && NonEmpty(h)
    ensures |Pieces(h, since, till)| <= if Split(h, since, till) then 2 else 1
  {}

  lemma {:induction false} CarveSize(head: set<HeadRow>, since: Key, till: Key)
    requires since < till && forall h :: h in head ==> NonEmpty(h) && !Split(h, since, till)
    ensures |Carve(head, since, till)| <= |head|
    decreases |head|
  {
    if head == {} {
      assert Carve(head, since, till) == {};
    } else {
      var h :| h in head;
      CarveSize(head - {h}, since, till);
      PieceCount(h, since, till);
      assert Carve(head, since, till) == Carve(head - {h}, since, till) + Pieces(h, since, till);
    }
  }

  /** Disjointness allows at most one split per store. */
  lemma CarveGrowsByOne(head: set<HeadRow>, since: Key, till: Key)
    requires Disjoint(head) && since < till
    ensures |Carve(head, since, till)| <= |head| + 1
  {
    if h :| h in head && Split(h, since, till) {
      forall g | g in head - {h}
        ensures !Split(g, since, till)
      {
        assert !Overlaps(g, h.since, h.till);
      }
      CarveSize(head - {h}, since, till);
      PieceCount(h, since, till);
      assert Carve(head, since, till) == Carve(head - {h}, since, till) + Pieces(h, since, till);
    } else {
      CarveSize(head, since, till);
    }
  }

  lemma ApplySize(t: Tables, e: Event)
    requires Inv(t) && Legal(e)
    ensures |Apply(t, e).head| <= if !e.StoreObject? then |t.head| else if t.head == {} then 1 else |t.head| + 2
  {
    hide NextLayer, Refines, LogInv, InLogged;
    if e.StoreObject? {
      CarveGrowsByOne(t.head, e.since, e.till);
      if t.head == {} {
        assert Carve(t.head, e.since, e.till) == {};
      }
    }
  }

  /** After n >= 1 stores head has at most 2n - 1 rows. */
  lemma {:induction false} HeadSize(es: seq<Event>)
    requires AllLegal(es)
    ensures var n := StoreCount(es); |Run(es).head| <= if n == 0 then 0 else 2 * n - 1
  {
    if es != [] {
      hide Inv, Apply;
      var n := |es| - 1;
      HeadSize(es[..n]);
      ApplySize(Run(es[..n]), es[n]);
    }
  }

  lemma EmptyInv()
    ensures Inv(EMPTY)
  {}

  lemma {:induction false} LogExtended(t: Tables, es: seq<Event>)
    requires Inv(t) && AllLegal(es)
    ensures t.log <= RunFrom(t, es).log
  {
    hide Inv, Apply;
    if es != [] {
      var n := |es| - 1;
      LogExtended(t, es[..n]);
      ApplyLog(RunFrom(t, es[..n]), es[n]);
    }
  }

  /** Whatever happens later, the log only grows. */
  lemma LogGrows(a: seq<Event>, b: seq<Event>)
    requires AllLegal(a) && AllLegal(b)
    ensures AllLegal(a + b) && Run(a).log <= Run(a + b).log
  {
    hide Inv, Apply, RunFrom;
    EmptyInv();
    RunSplit(EMPTY, a, b);
    LogExtended(Run(a), b);
  }

  // ---- Tags are snapshots

  ghost predicate Leaves(es: seq<Event>, tagId: int) {
    forall i :: 0 <= i < |es| ==> es[i] != AddTag(tagId) && es[i] != RemoveTag(tagId)
  }

  lemma {:induction false} TagUntouched(t: Tables, es: seq<Event>, tagId: int)
    requires Inv(t) && AllLegal(es) && Leaves(es, tagId)
    ensures TagRows(RunFrom(t, es).tags, tagId) == TagRows(t.tags, tagId)
    ensures t.log <= RunFrom(t, es).log
  {
    if es != [] {
      var n := |es| - 1;
      TagUntouched(t, es[..n], tagId);
      var e := es[n];
      assert e != AddTag(tagId) && e != RemoveTag(tagId);
      if e.AddTag? || e.RemoveTag? {
        var u := RunFrom(t, es[..n]);
        assert e.tagId != tagId;
        assert TagRows(u.tags, e.tagId) !! TagRows(u.tags, tagId);
        assert HeadAsTag(u.head, e.tagId) !! TagRows(Apply(u, e).tags, tagId);
        assert TagRows(Apply(u, e).tags, tagId) == TagRows(u.tags, tagId);
      }
    }
  }

  /** Rows of a tag that copy a head find what the head finds, as long as the log grows. */
  lemma TagFindsHead(t: Tables, u: Tables, tagId: int, p: Key)
    requires Keyed(t) && Keyed(u) && t.log <= u.log
    requires TagRows(u.tags, tagId) == HeadAsTag(t.head, tagId)
    ensures TagFind(u, tagId, p) == HeadFind(t, p)
  {
    forall f | f in TagFind(u, tagId, p)
      ensures f in HeadFind(t, p)
    {
      var g :| g in TagRows(u.tags, tagId) && Within(g.since, p, g.till) && f == Joined(u.log, g.objId, g.since, g.till);
      var h :| h in t.head && g == TagRow(tagId, h.objId, h.since, h.till);
      assert f == Joined(t.log, h.objId, h.since, h.till);
    }
    forall f | f in HeadFind(t, p)
      ensures f in TagFind(u, tagId, p)
    {
      var h :| h in t.head && At(h, p) && f == Joined(t.log, h.objId, h.since, h.till);
      var g := TagRow(tagId, h.objId, h.since, h.till);
      assert g in TagRows(u.tags, tagId);
      assert f == Joined(u.log, g.objId, g.since, g.till);
    }
  }

  lemma TaggedRows(t: Tables, tagId: int)
    requires t.head != {}
    ensures TagRows(Tagged(t, tagId).tags, tagId) == HeadAsTag(t.head, tagId)
    ensures TagRows(Tagged(t, tagId).tags, tagId) != {}
  {
    var w :| w in t.head;
    assert TagRow(tagId, w.objId, w.since, w.till) in TagRows(Tagged(t, tagId).tags, tagId);
  }

  lemma ApplyHead(t: Tables, e: Event)
    requires Inv(t) && Legal(e)
    ensures Apply(t, e).head != {} <==> e.StoreObject? || t.head != {}
  {
    hide Inv, Carve, NextLayer;
    if e.StoreObject? {
      assert HeadRow(|t.log| + 1, e.since, e.till) in Apply(t, e).head;
    }
  }

  /** Head is not empty once something has been stored. */
  lemma {:induction false} HeadNotEmpty(es: seq<Event>)
    requires AllLegal(es)
    ensures Run(es).head != {} <==> StoreCount(es) > 0
  {
    hide Inv, Apply;
    if es != [] {
      var n := |es| - 1;
      HeadNotEmpty(es[..n]);
      ApplyHead(Run(es[..n]), es[n]);
    }
  }

  /** An empty head means that nothing was ever stored, so there are no tag rows either that
      a failed tagging could leave behind. */
  lemma EmptyHeadNoTags(t: Tables)
    requires Inv(t)
    ensures t.head == {} <==> t.log == []
    ensures t.head == {} ==> t.tags == {}
  {
    hide Disjoint, InLogged;
    if t.log != [] {
      var o := t.log[|t.log|-1];
      assert Within(o.since, o.since, o.till);
      assert LastOver(t.log, o.since) != 0;
    }
  }

  /** A tag put on a non-empty head is a stable snapshot: whatever is stored, tagged or
      untagged under other names afterwards, find under the tag returns at every point
      what find on HEAD returned when the tag was put on; earlier rows of the tag are
      gone and no fragment is held twice. (Find under tag 0 reads
      HEAD itself and not tag rows.) */
  lemma {:induction false} TagIsSnapshot(before: seq<Event>, tagId: int, after: seq<Event>, p: Key)
    requires AllLegal(before) && AllLegal(after) && Leaves(after, tagId)
    requires StoreCount(before) > 0 && tagId != 0
    ensures AllLegal(before + [AddTag(tagId)] + after)
    ensures var t, u := Run(before), Run(before + [AddTag(tagId)] + after);
            && TagRows(u.tags, tagId) != {}
            && TagFind(u, tagId, p) == HeadFind(t, p)
            && |TagRows(u.tags, tagId)| == |t.head|
  {
    HeadNotEmpty(before);
    var t := Run(before);
    var tagging := before + [AddTag(tagId)];
    assert tagging[..|tagging|-1] == before;
    var s := Run(tagging);
    RunSplit(EMPTY, tagging, after);
    TagUntouched(s, after, tagId);
    TaggedRows(t, tagId);
    HeadAsTagSize(t.head, tagId);
    TagFindsHead(t, RunFrom(s, after), tagId, p);
  }

  /** Removing a tag leaves no row of it, none of another tag less, and undoes a tagging if
      the tag was new. */
  lemma UntagUndoesTag(t: Tables, tagId: int, other: int)
    ensures TagRows(Untagged(t, tagId).tags, tagId) == {}
    ensures other != tagId ==> TagRows(Untagged(t, tagId).tags, other) == TagRows(t.tags, other)
    ensures TagRows(t.tags, tagId) == {} ==> Untagged(Tagged(t, tagId), tagId) == t
  {
    if TagRows(t.tags, tagId) == {} && t.head != {} {
      TaggedRows(t, tagId);
      assert forall g :: g in t.tags ==> g !in TagRows(t.tags, tagId);
      assert Untagged(Tagged(t, tagId), tagId).tags == t.tags;
    }
  }

  lemma {:induction false} HeadAsTagSize(head: set<HeadRow>, tagId: int)
    ensures |HeadAsTag(head, tagId)| == |head|
    decreases |head|
  {
    if head != {} {
      var h :| h in head;
      HeadAsTagSize(head - {h}, tagId);
      assert HeadAsTag(head, tagId) == HeadAsTag(head - {h}, tagId) + {TagRow(tagId, h.objId, h.since, h.till)};
    }
  }
}
