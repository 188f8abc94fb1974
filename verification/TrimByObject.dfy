/** The trimming loop of the table store. Its statements name only the object id, so
    they reach every fragment of the object; here is when that makes no difference. */
module TrimByObject {
  import opened CondDBKeys
  import opened SqlTable
  import opened HeadIndex
  import opened VersionedStore

  /** The loop over an overlap snapshot, in the order the rows are delivered. */
  function TrimAll(head: seq<HeadRow>, rows: seq<HeadRow>, since: Key, till: Key): seq<HeadRow> {
    if rows == [] then head
    else
      var r := rows[|rows|-1];
      Trimmed(TrimAll(head, rows[..|rows|-1], since, till), SameObject(r), r, since, till)
  }

  lemma TrimAllNext(head: seq<HeadRow>, rows: seq<HeadRow>, i: nat, since: Key, till: Key)
    requires i < |rows|
    ensures TrimAll(head, rows[..0], since, till) == head
    ensures TrimAll(head, rows[..i+1], since, till)
            == Trimmed(TrimAll(head, rows[..i], since, till), SameObject(rows[i]), rows[i], since, till)
  {
    hide Trimmed;
    assert rows[..i+1][..i] == rows[..i];
  }

  /** The overlap query on a table that may hold a row twice: the rows it delivers. */
  ghost predicate Delivered(rows: seq<HeadRow>, head: seq<HeadRow>, since: Key, till: Key) {
    && (forall r :: r in rows <==> r in head && Overlaps(r, since, till))
    && (NoDup(head) ==> NoDup(rows))
  }

  lemma DeliveredSnapshot(rows: seq<HeadRow>, head: seq<HeadRow>, since: Key, till: Key)
    requires Delivered(rows, head, since, till) && NoDup(head)
    ensures Snapshot(rows, Rows(head), since, till)
  {
    hide Overlaps;
    assert Rows(rows) == Touched(Rows(head), since, till);
  }

  /** One store of the table version, the order of delivery left open. */
  ghost predicate TableStep(head: seq<HeadRow>, after: seq<HeadRow>, id: nat, since: Key, till: Key) {
    exists rows :: Delivered(rows, head, since, till) && after == TrimAll(head, rows, since, till) + [HeadRow(id, since, till)]
  }

  /** Every object the new interval overlaps either has a single fragment, or all its
      fragments lie inside the interval. */
  ghost predicate ByObjectSafe(head: set<HeadRow>, since: Key, till: Key) {
    forall h :: h in head && Overlaps(h, since, till) ==>
      || Alone(head, h)
      || AllInside(head, h.objId, since, till)
  }

  ghost predicate Alone(head: set<HeadRow>, h: HeadRow) {
    forall g :: g in head && g.objId == h.objId ==> g == h
  }

  ghost predicate AllInside(head: set<HeadRow>, objId: nat, since: Key, till: Key) {
    forall g :: g in head && g.objId == objId ==> Inside(g, since, till)
  }

  // ---- Safe states: the object condition does what the exact one does

  /** The fragments of the objects met in `rows`. */
  ghost function Met(head: set<HeadRow>, rows: seq<HeadRow>): set<HeadRow> {
    set h | h in head && exists r :: r in rows && r.objId == h.objId
  }

  lemma MetNext(head: set<HeadRow>, rows: seq<HeadRow>, i: nat)
    requires i < |rows|
    ensures Met(head, rows[..i+1]) == Met(head, rows[..i]) + set h | h in head && h.objId == rows[i].objId
  {
    assert rows[..i+1] == rows[..i] + [rows[i]];
    assert rows[i] in rows[..i+1];
    assert forall r :: r in rows[..i] ==> r in rows[..i+1];
  }

  lemma CarvedObject(done: set<HeadRow>, since: Key, till: Key, q: HeadRow)
    requires q in Carve(done, since, till)
    ensures exists h :: h in done && h.objId == q.objId && q in Pieces(h, since, till)
  {}

  lemma InsideLeavesNothing(done: set<HeadRow>, gone: set<HeadRow>, since: Key, till: Key)
    requires forall h :: h in gone ==> Inside(h, since, till)
    ensures Carve(done + gone, since, till) == Carve(done, since, till)
  {
    forall h | h in gone
      ensures Pieces(h, since, till) == {}
    {}
  }

  lemma NothingOf(done: set<HeadRow>, a: nat, since: Key, till: Key)
    requires forall h :: h in done && h.objId == a ==> Inside(h, since, till)
    ensures forall q :: q in Carve(done, since, till) ==> q.objId != a
  {}

  lemma SwallowedDeletes(head: seq<HeadRow>, r: HeadRow, since: Key, till: Key)
    requires Inside(r, since, till)
    ensures Trimmed(head, SameObject(r), r, since, till) == Delete(head, SameObject(r))
  {}

  lemma DeletedObject(head: seq<HeadRow>, r: HeadRow)
    ensures forall x :: x in Rows(Delete(head, SameObject(r))) <==> x in Rows(head) && x.objId != r.objId
    ensures NoDup(head) ==> NoDup(Delete(head, SameObject(r)))
  {}

  lemma SafeStepAlone(before: set<HeadRow>, head: seq<HeadRow>, rows: seq<HeadRow>, i: nat, since: Key, till: Key)
    requires since <= till && Disjoint(before) && i < |rows| && Snapshot(rows, before, since, till)
    requires Alone(before, rows[i])
    requires Midway(before, Met(before, rows[..i]), head, since, till)
    ensures Midway(before, Met(before, rows[..i+1]), Trimmed(head, SameObject(rows[i]), rows[i], since, till), since, till)
  {
    hide Trimmed, Disjoint, Pieces;
    var r, done := rows[i], Met(before, rows[..i]);
    assert r in Rows(rows);
    MetNext(before, rows, i);
    assert Met(before, rows[..i+1]) == done + {r};
    assert r !in rows[..i];
    forall q | q in rows[..i]
      ensures q in before
    {
      assert q in Rows(rows);
    }
    assert r !in done;
    forall h | h in Rows(head) && h.objId == r.objId
      ensures h == r
    {
      assert forall g :: g in done ==> g.objId != r.objId;
      if h in Carve(done, since, till) {
        CarvedObject(done, since, till, h);
        assert false;
      }
    }
    TrimStep(before, done, head, SameObject(r), r, since, till);
  }

  lemma SafeStepInside(before: set<HeadRow>, head: seq<HeadRow>, rows: seq<HeadRow>, i: nat, since: Key, till: Key)
    requires since <= till && Disjoint(before) && i < |rows| && Snapshot(rows, before, since, till)
    requires AllInside(before, rows[i].objId, since, till)
    requires Midway(before, Met(before, rows[..i]), head, since, till)
    ensures Midway(before, Met(before, rows[..i+1]), Trimmed(head, SameObject(rows[i]), rows[i], since, till), since, till)
  {
    hide Disjoint, Pieces, Overlaps, Trimmed;
    var r, done := rows[i], Met(before, rows[..i]);
    var gone := set h | h in before && h.objId == r.objId;
    assert r in Rows(rows);
    MetNext(before, rows, i);
    InsideLeavesNothing(done, gone, since, till);
    assert r in before;
    SwallowedDeletes(head, r, since, till);
    NothingOf(done, r.objId, since, till);
    var out := Trimmed(head, SameObject(r), r, since, till);
    var carved := Carve(done, since, till);
    assert Rows(head) == carved + (before - done);
    assert out == Delete(head, SameObject(r));
    DeletedObject(head, r);
    assert forall q :: q in carved ==> q.objId != r.objId;
    assert Rows(out) == carved + (before - (done + gone));
  }

  lemma {:induction false} SafeTrims(head: seq<HeadRow>, rows: seq<HeadRow>, n: nat, since: Key, till: Key)
    requires since <= till && NoDup(head) && Disjoint(Rows(head))
    requires Snapshot(rows, Rows(head), since, till) && n <= |rows|
    requires ByObjectSafe(Rows(head), since, till)
    ensures Midway(Rows(head), Met(Rows(head), rows[..n]), TrimAll(head, rows[..n], since, till), since, till)
  {
    var before := Rows(head);
    if n == 0 {
      assert Carve(Met(before, rows[..0]), since, till) == {};
    } else {
      hide Midway, Trimmed, Disjoint, Met;
      SafeTrims(head, rows, n - 1, since, till);
      assert rows[..n][..n-1] == rows[..n-1];
      assert rows[n-1] in Rows(rows);
      if Alone(before, rows[n-1]) {
        SafeStepAlone(before, TrimAll(head, rows[..n-1], since, till), rows, n - 1, since, till);
      } else {
        SafeStepInside(before, TrimAll(head, rows[..n-1], since, till), rows, n - 1, since, till);
      }
    }
  }

  // ---- Unsafe states: a fragment is missing

  ghost predicate Unsafe(head: set<HeadRow>, a: nat, since: Key, till: Key) {
    && (exists g, h :: g in head && h in head && g != h && g.objId == h.objId == a && Overlaps(h, since, till))
    && (exists g :: g in head && g.objId == a && !Inside(g, since, till))
  }

  lemma UnsafeObject(head: set<HeadRow>, since: Key, till: Key) returns (a: nat)
    requires !ByObjectSafe(head, since, till)
    ensures Unsafe(head, a, since, till)
  {
    var h :| h in head && Overlaps(h, since, till) && !Alone(head, h) && !AllInside(head, h.objId, since, till);
    a := h.objId;
  }

  ghost predicate Gone(out: set<HeadRow>, a: nat) {
    forall x :: x in out ==> x.objId != a
  }

  ghost predicate AllEnd(out: set<HeadRow>, a: nat, at: Key) {
    forall x :: x in out && x.objId == a ==> x.till == at
  }

  ghost predicate AllStart(out: set<HeadRow>, a: nat, at: Key) {
    forall x :: x in out && x.objId == a ==> x.since == at
  }

  /** After a split of `r`, its remainder is the one row of the object not cut at the start of
      the interval. */
  ghost predicate AllEndBut(out: set<HeadRow>, r: HeadRow, since: Key, till: Key) {
    forall x :: x in out && x.objId == r.objId ==> x.till == since || x == HeadRow(r.objId, till, r.till)
  }

  ghost predicate CutAlike(before: set<HeadRow>, out: set<HeadRow>, a: nat, since: Key, till: Key) {
    || AllEnd(out, a, since)
    || AllStart(out, a, till)
    || exists r :: r in before && r.objId == a && Split(r, since, till) && AllEndBut(out, r, since, till)
  }

  lemma UpdateHas(head: seq<HeadRow>, where: HeadRow -> bool, change: HeadRow -> HeadRow, h: HeadRow)
    requires h in head
    ensures (if where(h) then change(h) else h) in Update(head, where, change)
  {
    var i :| 0 <= i < |head| && head[i] == h;
    assert Update(head, where, change)[i] == if where(h) then change(h) else h;
  }

  /** Statements for another object do not reach the rows of `a`. */
  lemma OtherObject(head: seq<HeadRow>, r: HeadRow, a: nat, since: Key, till: Key, h: HeadRow)
    requires r.objId != a && h.objId == a
    ensures h in Trimmed(head, SameObject(r), r, since, till) <==> h in head
  {
    if h in head {
      UpdateHas(head, SameObject(r), (x: HeadRow) => x.(till := since), h);
      UpdateHas(head, SameObject(r), (x: HeadRow) => x.(since := till), h);
    }
  }

  /** What the statements for a row of `a` do to all rows of `a`. */
  lemma SameObjectCut(head: seq<HeadRow>, r: HeadRow, since: Key, till: Key)
    ensures var out := Rows(Trimmed(head, SameObject(r), r, since, till));
            && (TailCut(r, since, till) ==> AllEnd(out, r.objId, since))
            && (Inside(r, since, till) ==> Gone(out, r.objId))
            && (FrontCut(r, since, till) ==> AllStart(out, r.objId, till))
            && (Split(r, since, till) ==> AllEndBut(out, r, since, till))
            && (!Split(r, since, till) && Gone(Rows(head), r.objId) ==> Gone(out, r.objId))
  {}

  /** A split leaves no room for a second overlapping row. */
  lemma NotTheOnlyOne(head: set<HeadRow>, r: HeadRow, h: HeadRow, since: Key, till: Key)
    requires Disjoint(head) && since <= till && r in head && h in head && h != r
    requires Overlaps(h, since, till)
    ensures NonEmpty(r) && !Split(r, since, till)
  {
    assert !Overlaps(h, r.since, r.till);
  }

  ghost predicate MetObject(met: seq<HeadRow>, a: nat) {
    exists r :: r in met && r.objId == a
  }

  ghost predicate MetInside(met: seq<HeadRow>, a: nat, since: Key, till: Key) {
    exists r :: r in met && r.objId == a && Inside(r, since, till)
  }

  /** Until a row of `a` has been met its rows are as before; from then on they are all cut
      alike, and once a row inside the interval has been met they are gone. */
  ghost predicate OnTheWay(head: seq<HeadRow>, met: seq<HeadRow>, out: seq<HeadRow>, a: nat, since: Key, till: Key) {
    && (!MetObject(met, a) ==> forall h: HeadRow :: h.objId == a ==> (h in out <==> h in head))
    && (MetObject(met, a) ==> CutAlike(Rows(head), Rows(out), a, since, till))
    && (MetInside(met, a, since, till) ==> Gone(Rows(out), a))
  }

  lemma MetMore(met: seq<HeadRow>, r: HeadRow, a: nat, since: Key, till: Key)
    ensures MetObject(met + [r], a) <==> MetObject(met, a) || r.objId == a
    ensures MetInside(met + [r], a, since, till) <==> MetInside(met, a, since, till) || (r.objId == a && Inside(r, since, till))
  {
    assert r in met + [r];
    assert forall q :: q in met ==> q in met + [r];
  }

  /** A row of the object itself. */
  lemma StepOfObject(head: seq<HeadRow>, met: seq<HeadRow>, mid: seq<HeadRow>, r: HeadRow, since: Key, till: Key)
    requires since <= till && Disjoint(Rows(head))
    requires forall q :: q in met + [r] ==> q in head && Overlaps(q, since, till)
    requires r !in met && OnTheWay(head, met, mid, r.objId, since, till)
    ensures OnTheWay(head, met + [r], Trimmed(mid, SameObject(r), r, since, till), r.objId, since, till)
  {
    hide Trimmed, Disjoint, AllEndBut, AllEnd, AllStart, Overlaps;
    var a := r.objId;
    assert r in met + [r] && r in Rows(head);
    MetMore(met, r, a, since, till);
    SameObjectCut(mid, r, since, till);
    HeadNonEmpty(Rows(head), r);
    BranchesPartition(r, since, till);
    if q :| q in met && q.objId == a {
      assert q in met + [r] && q in Rows(head);
      NotTheOnlyOne(Rows(head), r, q, since, till);
    }
    GoneIsAlike(Rows(head), Rows(Trimmed(mid, SameObject(r), r, since, till)), a, since, till);
  }

  lemma HeadNonEmpty(head: set<HeadRow>, r: HeadRow)
    requires Disjoint(head) && r in head
    ensures NonEmpty(r)
  {}

  lemma GoneIsAlike(before: set<HeadRow>, out: set<HeadRow>, a: nat, since: Key, till: Key)
    ensures Gone(out, a) ==> CutAlike(before, out, a, since, till)
  {}

  /** A row of another object. */
  lemma StepOfOther(head: seq<HeadRow>, met: seq<HeadRow>, mid: seq<HeadRow>, r: HeadRow, a: nat, since: Key, till: Key)
    requires r.objId != a && OnTheWay(head, met, mid, a, since, till)
    ensures OnTheWay(head, met + [r], Trimmed(mid, SameObject(r), r, since, till), a, since, till)
  {
    hide Trimmed, Split;
    var out := Trimmed(mid, SameObject(r), r, since, till);
    MetMore(met, r, a, since, till);
    forall h: HeadRow | h.objId == a
      ensures h in out <==> h in mid
    {
      OtherObject(mid, r, a, since, till, h);
    }
    SameRowsAlike(Rows(head), Rows(mid), Rows(out), a, since, till);
  }

  lemma SameRowsAlike(before: set<HeadRow>, mid: set<HeadRow>, out: set<HeadRow>, a: nat, since: Key, till: Key)
    requires forall h: HeadRow :: h.objId == a ==> (h in out <==> h in mid)
    ensures CutAlike(before, mid, a, since, till) ==> CutAlike(before, out, a, since, till)
    ensures Gone(mid, a) ==> Gone(out, a)
  {
    hide Split;
    if r :| r in before && r.objId == a && Split(r, since, till) && AllEndBut(mid, r, since, till) {
      assert AllEndBut(out, r, since, till);
    }
  }

  lemma {:induction false} UnsafeTrims(head: seq<HeadRow>, rows: seq<HeadRow>, a: nat, since: Key, till: Key)
    requires since <= till && Disjoint(Rows(head))
    requires NoDup(rows) && forall q :: q in rows ==> q in head && Overlaps(q, since, till)
    ensures OnTheWay(head, rows, TrimAll(head, rows, since, till), a, since, till)
  {
    hide Trimmed, Disjoint, Overlaps;
    if rows != [] {
      hide OnTheWay;
      var met, r := rows[..|rows|-1], rows[|rows|-1];
      assert rows == met + [r];
      UnsafeTrims(head, met, a, since, till);
      if r.objId == a {
        StepOfObject(head, met, TrimAll(head, met, since, till), r, since, till);
      } else {
        StepOfOther(head, met, TrimAll(head, met, since, till), r, a, since, till);
      }
    }
  }

  /** A piece that the exact loop leaves of a fragment not inside the interval. */
  lemma PieceOf(head: set<HeadRow>, g: HeadRow, since: Key, till: Key) returns (q: HeadRow)
    requires Disjoint(head) && since <= till && g in head && !Inside(g, since, till)
    ensures q in Carve(head, since, till) && q.objId == g.objId && NonEmpty(q) && Inside(q, g.since, g.till)
    ensures !Overlaps(g, since, till) ==> q == g
  {
    q := if g.since < since then g.(till := Min(g.till, since)) else g.(since := Max(g.since, till));
    assert q in Pieces(g, since, till);
  }

  lemma AlikeMisses(before: set<HeadRow>, out: set<HeadRow>, g: HeadRow, h: HeadRow, since: Key, till: Key) returns (q: HeadRow)
    requires Disjoint(before) && since <= till && g in before && h in before && g != h && g.objId == h.objId
    requires !Inside(g, since, till) && !Inside(h, since, till)
    requires CutAlike(before, out, g.objId, since, till)
    ensures q in Carve(before, since, till) && q !in out
  {
    var x := PieceOf(before, g, since, till);
    var y := PieceOf(before, h, since, till);
    assert !Overlaps(g, h.since, h.till);
    assert x.till != y.till && x.since != y.since;
    if AllEnd(out, g.objId, since) || AllStart(out, g.objId, till) {
      q := if x in out then y else x;
    } else {
      var r :| r in before && r.objId == g.objId && Split(r, since, till) && AllEndBut(out, r, since, till);
      var o := if r == g then h else g;
      assert !Overlaps(r, o.since, o.till);
      q := PieceOf(before, o, since, till);
    }
  }

  /** In an unsafe state the loop leaves out a piece that the exact loop keeps. */
  lemma UnsafeMisses(head: seq<HeadRow>, rows: seq<HeadRow>, since: Key, till: Key) returns (q: HeadRow)
    requires since <= till && Disjoint(Rows(head)) && Snapshot(rows, Rows(head), since, till)
    requires !ByObjectSafe(Rows(head), since, till)
    ensures q in Carve(Rows(head), since, till) && q !in TrimAll(head, rows, since, till)
  {
    hide Disjoint, TrimAll, CutAlike, ByObjectSafe;
    var before, out := Rows(head), TrimAll(head, rows, since, till);
    var a := UnsafeObject(before, since, till);
    var g, h :| g in before && h in before && g != h && g.objId == h.objId == a && Overlaps(h, since, till);
    assert forall x :: x in rows <==> x in Touched(before, since, till);
    assert h in rows;
    UnsafeTrims(head, rows, a, since, till);
    assert MetObject(rows, a);
    assert forall x :: x in out <==> x in Rows(out);
    if k :| k in before && k.objId == a && Inside(k, since, till) {
      HeadNonEmpty(before, k);
      assert k in rows;
      assert MetInside(rows, a, since, till);
      var o :| o in before && o.objId == a && !Inside(o, since, till);
      q := PieceOf(before, o, since, till);
    } else {
      q := AlikeMisses(before, Rows(out), g, h, since, till);
    }
  }

  /** Whatever order the snapshot comes in, naming only the object id yields the head of
      the exact store if and only if the state is safe for the interval; in any other state
      a fragment that should be left is missing. */
  lemma ByObjectExactlyWhenSafe(head: seq<HeadRow>, rows: seq<HeadRow>, since: Key, till: Key)
    requires since <= till && NoDup(head) && Disjoint(Rows(head))
    requires Snapshot(rows, Rows(head), since, till)
    ensures var out := TrimAll(head, rows, since, till);
            (NoDup(out) && Rows(out) == Carve(Rows(head), since, till)) <==> ByObjectSafe(Rows(head), since, till)
    ensures Carve(Rows(head), since, till) <= Rows(TrimAll(head, rows, since, till)) <==> ByObjectSafe(Rows(head), since, till)
  {
    hide Trimmed, Disjoint, TrimAll, Carve, ByObjectSafe;
    var before := Rows(head);
    if ByObjectSafe(before, since, till) {
      assert rows[..|rows|] == rows;
      SafeTrims(head, rows, |rows|, since, till);
      assert forall h :: h in Touched(before, since, till) ==> h in rows;
      assert Met(before, rows) <= before;
      CarveUntouched(before, Met(before, rows), since, till);
    } else {
      var q := UnsafeMisses(head, rows, since, till);
    }
  }
}
