/** The meaning of the SQL statements the managers issue, on a table of rows. */
module SqlTable {

  ghost predicate NoDup<R>(t: seq<R>) {
    forall i, j :: 0 <= i < j < |t| ==> t[i] != t[j]
  }

  ghost function Rows<R>(t: seq<R>): set<R> {
    set x | x in t
  }

  /** SELECT * FROM t WHERE where */
  function Select<R(!new)>(t: seq<R>, where: R -> bool): (r: seq<R>)
    ensures forall x :: x in r <==> x in t && where(x)
    ensures NoDup(t) ==> NoDup(r)
  {
    if t == [] then
      []
    else if where(t[0]) then
      [t[0]] + Select(t[1..], where)
    else
      Select(t[1..], where)
  }

  /** DELETE FROM t WHERE where */
  function Delete<R(!new)>(t: seq<R>, where: R -> bool): (r: seq<R>)
    ensures forall x :: x in r <==> x in t && !where(x)
    ensures NoDup(t) ==> NoDup(r)
  {
    Select(t, x => !where(x))
  }

  /** UPDATE t SET change WHERE where */
  function Update<R>(t: seq<R>, where: R -> bool, change: R -> R): (r: seq<R>)
    ensures |r| == |t|
    ensures forall i :: 0 <= i < |t| ==> r[i] == if where(t[i]) then change(t[i]) else t[i]
  {
    seq(|t|, i requires 0 <= i < |t| => if where(t[i]) then change(t[i]) else t[i])
  }

  /** An update that hits a single stored row exchanges that row and nothing else. */
  lemma UpdateOne<R>(t: seq<R>, where: R -> bool, change: R -> R, row: R)
    requires NoDup(t) && row in t && where(row)
    requires forall x :: x in t && where(x) ==> x == row
    requires change(row) !in t
    ensures NoDup(Update(t, where, change))
    ensures Rows(Update(t, where, change)) == Rows(t) - {row} + {change(row)}
  {
    var u := Update(t, where, change);
    var k :| 0 <= k < |t| && t[k] == row;
    assert u == t[k := change(row)];
    forall x
      ensures x in Rows(u) <==> x in Rows(t) - {row} + {change(row)}
    {
      if x in t && x != row {
        var i :| 0 <= i < |t| && t[i] == x;
        assert u[i] == x;
      } else if x == change(row) {
        assert u[k] == x;
      }
    }
  }

  lemma {:induction false} NoDupCardinality<R>(t: seq<R>)
    requires NoDup(t)
    ensures |t| == |Rows(t)|
  {
    if t != [] {
      NoDupCardinality(t[1..]);
      assert Rows(t) == {t[0]} + Rows(t[1..]);
    }
  }
}
