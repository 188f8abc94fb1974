/** The rows of the versioned store and the algebra of the head table:
    what trimming a fragment against a new interval must leave behind. */
module HeadIndex {
  import opened CondDBKeys
  import opened SqlTable

  datatype LogRow = LogRow(objId: nat, since: Key, till: Key, layer: nat, dbId: int, datId: int)

  datatype HeadRow = HeadRow(objId: nat, since: Key, till: Key)

  predicate NonEmpty(h: HeadRow) {
    h.since < h.till
  }

  predicate At(h: HeadRow, p: Key) {
    Within(h.since, p, h.till)
  }

  /** The WHERE clause of the overlap query. */
  predicate Overlaps(h: HeadRow, since: Key, till: Key) {
    h.since < till && h.till > since
  }

  predicate Inside(h: HeadRow, since: Key, till: Key) {
    since <= h.since && h.till <= till
  }

  ghost predicate Disjoint(head: set<HeadRow>) {
    && (forall h :: h in head ==> NonEmpty(h))
    && (forall g, h :: g in head && h in head && g != h ==> !Overlaps(g, h.since, h.till))
  }

  /** Interval subtraction: what remains of `h` outside [since, till). */
  ghost function Pieces(h: HeadRow, since: Key, till: Key): set<HeadRow> {
    (if h.since < Min(h.till, since) then {h.(till := Min(h.till, since))} else {}) +
    (if Max(h.since, till) < h.till then {h.(since := Max(h.since, till))} else {})
  }

  ghost function Carve(head: set<HeadRow>, since: Key, till: Key): (r: set<HeadRow>)
    ensures forall q :: q in r <==> exists h :: h in head && q in Pieces(h, since, till)
  {
    set h, q | h in head && q in Pieces(h, since, till) :: q
  }

  // ---- The four-case branch of the store loop

  predicate TailCut(h: HeadRow, since: Key, till: Key) {
    h.since < since && h.till > since && h.till <= till
  }

  predicate Swallowed(h: HeadRow, since: Key, till: Key) {
    h.since >= since && h.till <= till
  }

  predicate FrontCut(h: HeadRow, since: Key, till: Key) {
    h.since < till && h.till > till && h.since >= since
  }

  predicate Split(h: HeadRow, since: Key, till: Key) {
    h.since < since && h.till > till
  }

  /** Exactly one branch of the loop body is taken for every overlapping row. */
  lemma BranchesPartition(h: HeadRow, since: Key, till: Key)
    requires since <= till && NonEmpty(h)
    ensures Overlaps(h, since, till) <==>
            TailCut(h, since, till) || Swallowed(h, since, till) || FrontCut(h, since, till) || Split(h, since, till)
    ensures !(TailCut(h, since, till) && (Swallowed(h, since, till) || FrontCut(h, since, till) || Split(h, since, till)))
    ensures !(Swallowed(h, since, till) && (FrontCut(h, since, till) || Split(h, since, till)))
    ensures !(FrontCut(h, since, till) && Split(h, since, till))
  {}

  /** The statements issued for one overlapping row `r`; `where` is the condition
      they carry, which differs between the object store and the table store. */
  function Trimmed(head: seq<HeadRow>, where: HeadRow -> bool, r: HeadRow, since: Key, till: Key): seq<HeadRow> {
    if TailCut(r, since, till) then
      Update(head, where, (h: HeadRow) => h.(till := since))
    else if Swallowed(r, since, till) then
      Delete(head, where)
    else if FrontCut(r, since, till) then
      Update(head, where, (h: HeadRow) => h.(since := till))
    else if Split(r, since, till) then
      Update(head, where, (h: HeadRow) => h.(till := since)) + [HeadRow(r.objId, till, r.till)]
    else
      head
  }

  /** WHERE obj_id = .. AND since_t = .. AND till_t = .. */
  function ExactRow(r: HeadRow): HeadRow -> bool {
    (h: HeadRow) => h.objId == r.objId && h.since == r.since && h.till == r.till
  }

  /** WHERE obj_id = .. */
  function SameObject(r: HeadRow): HeadRow -> bool {
    (h: HeadRow) => h.objId == r.objId
  }

  /** If the condition hits one stored row once, the statements replace that row
      by its pieces. */
  lemma TrimmedOne(head: seq<HeadRow>, where: HeadRow -> bool, r: HeadRow, since: Key, till: Key)
    requires since <= till && NonEmpty(r) && Overlaps(r, since, till)
    requires NoDup(head) && r in head && where(r)
    requires forall h :: h in head && where(h) ==> h == r
    requires forall q :: q in Pieces(r, since, till) ==> q !in head
    ensures NoDup(Trimmed(head, where, r, since, till))
    ensures Rows(Trimmed(head, where, r, since, till)) == Rows(head) - {r} + Pieces(r, since, till)
  {
    if TailCut(r, since, till) {
      assert Pieces(r, since, till) == {r.(till := since)};
      UpdateOne(head, where, (h: HeadRow) => h.(till := since), r);
    } else if Swallowed(r, since, till) {
      assert Pieces(r, since, till) == {};
    } else if FrontCut(r, since, till) {
      assert Pieces(r, since, till) == {r.(since := till)};
      UpdateOne(head, where, (h: HeadRow) => h.(since := till), r);
    } else {
      assert Pieces(r, since, till) == {r.(till := since), r.(since := till)};
      UpdateOne(head, where, (h: HeadRow) => h.(till := since), r);
    }
  }

  // ---- The loop over the overlap snapshot

  /** State of the head table when the rows in `done` have been dealt with: they are
      replaced by their pieces, every other row still stands. */
  ghost predicate Midway(before: set<HeadRow>, done: set<HeadRow>, head: seq<HeadRow>, since: Key, till: Key) {
    && NoDup(head)
    && Rows(head) == Carve(done, since, till) + (before - done)
  }

  lemma PiecesStayOut(before: set<HeadRow>, done: set<HeadRow>, r: HeadRow, since: Key, till: Key, q: HeadRow)
    requires since <= till && Disjoint(before) && done <= before && r in before - done
    requires q in Pieces(r, since, till)
    ensures q !in Carve(done, since, till) && q !in before - done - {r}
  {
    assert NonEmpty(q) && Inside(q, r.since, r.till);
    forall h | h in done
      ensures q !in Pieces(h, since, till)
    {
      assert !Overlaps(h, r.since, r.till);
    }
  }

  lemma CarveOneMore(done: set<HeadRow>, r: HeadRow, since: Key, till: Key)
    ensures Carve(done + {r}, since, till) == Carve(done, since, till) + Pieces(r, since, till)
  {}

  /** When the condition reaches only the row at hand, one pass of the loop body moves
      that row to the finished ones; earlier edits cannot make it hit another row. */
  lemma TrimStep(before: set<HeadRow>, done: set<HeadRow>, head: seq<HeadRow>, where: HeadRow -> bool,
                 r: HeadRow, since: Key, till: Key)
    requires since <= till && Disjoint(before) && done <= before
    requires r in before - done && Overlaps(r, since, till)
    requires Midway(before, done, head, since, till)
    requires where(r) && forall h :: h in head && where(h) ==> h == r
    ensures Midway(before, done + {r}, Trimmed(head, where, r, since, till), since, till)
  {
    assert r in Rows(head);
    forall q | q in Pieces(r, since, till)
      ensures q !in head
    {
      PiecesStayOut(before, done, r, since, till, q);
      assert q != r;
      assert q !in Rows(head);
    }
    TrimmedOne(head, where, r, since, till);
    assert r !in Carve(done, since, till);
    CarveOneMore(done, r, since, till);
    assert before - (done + {r}) == before - done - {r};
    assert Rows(head) - {r} == Carve(done, since, till) + (before - done - {r});
  }

  /** Rows that do not overlap are their own only piece. */
  lemma CarveUntouched(before: set<HeadRow>, done: set<HeadRow>, since: Key, till: Key)
    requires since <= till && Disjoint(before) && done <= before
    requires forall h :: h in before - done ==> !Overlaps(h, since, till)
    ensures Carve(before, since, till) == Carve(done, since, till) + (before - done)
  {
    forall h | h in before - done
      ensures Pieces(h, since, till) == {h}
    {}
    forall q | q in Carve(done, since, till) + (before - done)
      ensures q in Carve(before, since, till)
    {
      if q in before - done {
        assert q in Pieces(q, since, till);
      }
    }
  }
}
