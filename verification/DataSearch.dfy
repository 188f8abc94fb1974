/** Searching for the object that becomes valid next, or was valid last, around a point. */
module DataSearch {
  import opened Options
  import opened CondDBKeys
  import opened SqlTable
  import opened HeadIndex
  import opened VersionedStore
  import opened MySqlObjectMgr

  /** A query result with the position of the row that is read next. */
  class ResultSet {
    const rows: seq<FoundRow>
    var rpos: nat

    constructor (rows: seq<FoundRow>)
      ensures this.rows == rows && rpos == 0
    {
      this.rows := rows;
      rpos := 0;
    }

    method Seek(pos: nat)
      modifies this
      ensures rpos == if pos < |rows| then pos else old(rpos)
    {
      if pos < |rows| {
        rpos := pos;
      }
    }

    method NextRow() returns (ok: bool)
      modifies this
      ensures ok <==> old(rpos) < |rows| - 1
      ensures rpos == if ok then old(rpos) + 1 else old(rpos)
    {
      if rpos < |rows| - 1 {
        rpos := rpos + 1;
        return true;
      }
      return false;
    }
  }

  /** A cursor over a non-empty result; its own position and that of the result move
      together. */
  class DataIterator {
    const resultSet: ResultSet
    const lastpos: nat
    var currpos: nat

    predicate Valid()
      reads this, resultSet
    {
      && lastpos == |resultSet.rows| - 1
      && currpos <= lastpos
      && resultSet.rpos == currpos
    }

    constructor (res: ResultSet)
      requires res.rows != [] && res.rpos == 0
      ensures Valid() && resultSet == res && currpos == 0
    {
      resultSet := res;
      currpos := 0;
      lastpos := |res.rows| - 1;
    }

    predicate HasNext()
      reads this
    {
      currpos < lastpos
    }

    predicate HasPrevious()
      reads this
    {
      currpos > 0
    }

    method GoToFirst()
      requires Valid()
      modifies this, resultSet
      ensures Valid() && currpos == 0
    {
      currpos := 0;
      resultSet.Seek(currpos);
    }

    method GoToLast()
      requires Valid()
      modifies this, resultSet
      ensures Valid() && currpos == lastpos
    {
      currpos := lastpos;
      resultSet.Seek(currpos);
    }

    method Current() returns (obj: FoundRow)
      requires Valid()
      modifies resultSet
      ensures Valid() && obj == resultSet.rows[currpos]
    {
      resultSet.Seek(currpos);
      obj := resultSet.rows[resultSet.rpos];
    }

    /** The next row, or nothing at the end. */
    method Next() returns (obj: Option<FoundRow>)
      requires Valid()
      modifies this, resultSet
      ensures Valid()
      ensures old(HasNext()) ==> currpos == old(currpos) + 1 && obj == Some(resultSet.rows[currpos])
      ensures !old(HasNext()) ==> currpos == old(currpos) && obj == None
    {
      if HasNext() {
        currpos := currpos + 1;
        var more := resultSet.NextRow();
        obj := Some(resultSet.rows[resultSet.rpos]);
      } else {
        obj := None;
      }
    }

    method Previous() returns (obj: Option<FoundRow>)
      requires Valid()
      modifies this, resultSet
      ensures Valid()
      ensures old(HasPrevious()) ==> currpos == old(currpos) - 1 && obj == Some(resultSet.rows[currpos])
      ensures !old(HasPrevious()) ==> currpos == old(currpos) && obj == None
    {
      if HasPrevious() {
        currpos := currpos - 1;
        resultSet.Seek(currpos);
        obj := Some(resultSet.rows[resultSet.rpos]);
      } else {
        obj := None;
      }
    }
  }

  /** `f` is the row with the least start after the point; None if no row starts after it. */
  ghost predicate IsNext(rows: set<FoundRow>, point: Key, f: Option<FoundRow>) {
    match f
    case None => forall r :: r in rows ==> r.since <= point
    case Some(x) => x in rows && x.since > point && forall r :: r in rows && r.since > point ==> x.since <= r.since
  }

  /** `f` is the row with the greatest end before the point. */
  ghost predicate IsLast(rows: set<FoundRow>, point: Key, f: Option<FoundRow>) {
    match f
    case None => forall r :: r in rows ==> r.till >= point
    case Some(x) => x in rows && x.till < point && forall r :: r in rows && r.till < point ==> x.till >= r.till
  }

  ghost function Given(f: Option<FoundRow>): set<FoundRow> {
    if f.None? then {} else {f.value}
  }

  /** The search of one folder. An object handed in, which must start after the point,
      competes with the rows of the folder. */
  method FindNextValid(objectMgr: ObjectMgr, point: Key, tagId: int, given: Option<FoundRow>) returns (r: Result<Option<FoundRow>>)
    requires objectMgr.Valid()
    requires given.Some? ==> given.value.since > point
    ensures !r.NoResult?
    ensures r.EmptyQuery? <==> tagId != 0 && tagId != -1 && TagRows(objectMgr.Abs().tags, tagId) == {}
    ensures r.Ok? ==> IsNext(Shown(objectMgr.Abs(), tagId) + Given(given), point, r.value)
  {
    hide *;
    ValidKeyed(objectMgr);
    var oblock := given;
    var res := objectMgr.BrowseTagged(tagId);
    if res.EmptyQuery? {
      return EmptyQuery;
    }
    if res.NoResult? {
      ShownUnknown(objectMgr.Abs());
      NothingShown([], point, given);
      return Ok(oblock);
    }
    oblock := LeastAfter(res.value, point, given);
    return Ok(oblock);
  }

  method FindLastValid(objectMgr: ObjectMgr, point: Key, tagId: int, given: Option<FoundRow>) returns (r: Result<Option<FoundRow>>)
    requires objectMgr.Valid()
    requires given.Some? ==> given.value.till < point
    ensures !r.NoResult?
    ensures r.EmptyQuery? <==> tagId != 0 && tagId != -1 && TagRows(objectMgr.Abs().tags, tagId) == {}
    ensures r.Ok? ==> IsLast(Shown(objectMgr.Abs(), tagId) + Given(given), point, r.value)
  {
    hide *;
    ValidKeyed(objectMgr);
    var oblock := given;
    var res := objectMgr.BrowseTagged(tagId);
    if res.EmptyQuery? {
      return EmptyQuery;
    }
    if res.NoResult? {
      ShownUnknown(objectMgr.Abs());
      NothingShown([], point, given);
      return Ok(oblock);
    }
    oblock := GreatestBefore(res.value, point, given);
    return Ok(oblock);
  }

  lemma ValidKeyed(objectMgr: ObjectMgr)
    requires objectMgr.Valid()
    ensures Keyed(objectMgr.Abs())
  {}

  lemma ShownUnknown(t: Tables)
    requires Keyed(t)
    ensures Shown(t, -1) == Rows([])
  {}

  lemma NothingShown(rows: seq<FoundRow>, point: Key, given: Option<FoundRow>)
    requires rows == []
    ensures (given.Some? ==> given.value.since > point) ==> IsNext(Rows(rows) + Given(given), point, given)
    ensures (given.Some? ==> given.value.till < point) ==> IsLast(Rows(rows) + Given(given), point, given)
  {}

  /** The loop of the forward search. */
  method LeastAfter(rows: seq<FoundRow>, point: Key, given: Option<FoundRow>) returns (oblock: Option<FoundRow>)
    requires given.Some? ==> given.value.since > point
    ensures IsNext(Rows(rows) + Given(given), point, oblock)
  {
    oblock := given;
    if |rows| == 0 {
      return;
    }
    var res := new ResultSet(rows);
    var condIterator := new DataIterator(res);
    condIterator.GoToFirst();
    var obj := condIterator.Current();
    while true
      invariant fresh(res) && fresh(condIterator) && condIterator.resultSet == res && res.rows == rows
      invariant condIterator.Valid() && obj == rows[condIterator.currpos]
      invariant oblock.None? ==> given.None?
      invariant oblock.Some? ==> (oblock.value in rows || oblock == given) && oblock.value.since > point
      invariant given.Some? ==> oblock.value.since <= given.value.since
      invariant forall k :: 0 <= k < condIterator.currpos && rows[k].since > point ==>
                  oblock.Some? && oblock.value.since <= rows[k].since
      decreases |rows| - condIterator.currpos
    {
      if obj.since > point && (oblock.None? || obj.since < oblock.value.since) {
        oblock := Some(obj);
      }
      if !condIterator.HasNext() {
        break;
      }
      var next := condIterator.Next();
      obj := next.value;
    }
    assert forall k :: 0 <= k < |rows| && rows[k].since > point ==> oblock.Some? && oblock.value.since <= rows[k].since;
  }

  /** The loop of the backward search. */
  method GreatestBefore(rows: seq<FoundRow>, point: Key, given: Option<FoundRow>) returns (oblock: Option<FoundRow>)
    requires given.Some? ==> given.value.till < point
    ensures IsLast(Rows(rows) + Given(given), point, oblock)
  {
    oblock := given;
    if |rows| == 0 {
      return;
    }
    var res := new ResultSet(rows);
    var condIterator := new DataIterator(res);
    condIterator.GoToFirst();
    var obj := condIterator.Current();
    while true
      invariant fresh(res) && fresh(condIterator) && condIterator.resultSet == res && res.rows == rows
      invariant condIterator.Valid() && obj == rows[condIterator.currpos]
      invariant oblock.None? ==> given.None?
      invariant oblock.Some? ==> (oblock.value in rows || oblock == given) && oblock.value.till < point
      invariant given.Some? ==> oblock.value.till >= given.value.till
      invariant forall k :: 0 <= k < condIterator.currpos && rows[k].till < point ==>
                  oblock.Some? && oblock.value.till >= rows[k].till
      decreases |rows| - condIterator.currpos
    {
      if obj.till < point && (oblock.None? || obj.till > oblock.value.till) {
        oblock := Some(obj);
      }
      if !condIterator.HasNext() {
        break;
      }
      var next := condIterator.Next();
      obj := next.value;
    }
    assert forall k :: 0 <= k < |rows| && rows[k].till < point ==> oblock.Some? && oblock.value.till >= rows[k].till;
  }

  // ---- What the two searches say together

  ghost predicate Uncovered(t: Tables, p: Key) {
    forall h :: h in t.head ==> !At(h, p)
  }

  lemma HeadIsShown(t: Tables, h: HeadRow) returns (f: FoundRow)
    requires Keyed(t) && h in t.head
    ensures f in Shown(t, 0) && f.since == h.since && f.till == h.till
  {
    f := Joined(t.log, h.objId, h.since, h.till);
  }

  /** Around an uncovered point the two searches bracket a gap: the span from the end of the
      last object to the start of the next contains the point, and all of it is uncovered if
      and only if no fragment ends at the point itself. */
  lemma SearchesBracketGap(t: Tables, p: Key, last: FoundRow, next: FoundRow)
    requires Inv(t) && Uncovered(t, p)
    requires IsLast(Shown(t, 0), p, Some(last)) && IsNext(Shown(t, 0), p, Some(next))
    ensures last.till < p < next.since
    ensures (forall q: Key :: Within(last.till, q, next.since) ==> Uncovered(t, q))
            <==> forall h :: h in t.head ==> h.till != p
  {
    hide Refines, LogInv, InLogged, Shown;
    if h :| h in t.head && h.till == p {
      assert NonEmpty(h);
      var q := Max(h.since, last.till);
      assert At(h, q) && Within(last.till, q, next.since);
    } else {
      forall q: Key, h | Within(last.till, q, next.since) && h in t.head
        ensures !At(h, q)
      {
        var f := HeadIsShown(t, h);
        assert !At(h, p);
      }
    }
  }
}
