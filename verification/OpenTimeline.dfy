/** Structure folders without versions: every row is inserted as valid to +Inf and cuts
    the rows that reach beyond its start. */
module OpenTimeline {
  import opened CondDBKeys
  import opened SqlTable
  import opened TableRow
  import opened CondDBTable

  datatype OnlRow = OnlRow(since: Key, till: Key, fields: seq<Field>)

  datatype Insertion = Insertion(since: Key, fields: seq<Field>)

  predicate ValidAt(r: OnlRow, t: Key) {
    t >= r.since && t < r.till
  }

  /** UPDATE .. SET till_t = since WHERE till_t > since */
  function CutAll(rows: seq<OnlRow>, since: Key): seq<OnlRow> {
    Update(rows, (r: OnlRow) => r.till > since, (r: OnlRow) => r.(till := since))
  }

  function NullRow(columns: nat): seq<Field> {
    seq(columns, i => Null)
  }

  /** The table after a history of insertions, in any time order. */
  function Timeline(columns: nat, history: seq<Insertion>): (rows: seq<OnlRow>)
    ensures |rows| == |history| + 1
  {
    if history == [] then [OnlRow(MINUS_INF, PLUS_INF, NullRow(columns))]
    else
      var last := history[|history|-1];
      CutAll(Timeline(columns, history[..|history|-1]), last.since) + [OnlRow(last.since, PLUS_INF, last.fields)]
  }

  /** The last insertion starting at or before t, -1 if there is none. */
  function LastFrom(history: seq<Insertion>, t: Key): (k: int)
    ensures -1 <= k < |history|
    ensures k >= 0 ==> history[k].since <= t
    ensures forall i :: k < i < |history| ==> history[i].since > t
  {
    if history == [] then -1
    else if history[|history|-1].since <= t then |history| - 1
    else LastFrom(history[..|history|-1], t)
  }

  /** At every time before +Inf exactly one row is valid, that of the latest insertion
      starting at or before it, else the initial null row; at +Inf none is. */
  lemma {:induction false} OneRowValid(columns: nat, history: seq<Insertion>, t: Key, k: nat)
    requires k <= |history|
    ensures var rows := Timeline(columns, history);
            && (ValidAt(rows[k], t) <==> t < PLUS_INF && k == LastFrom(history, t) + 1)
            && rows[k].fields == (if k == 0 then NullRow(columns) else history[k-1].fields)
            && rows[k].since == (if k == 0 then MINUS_INF else history[k-1].since)
  {
    if history != [] && k < |history| {
      OneRowValid(columns, history[..|history|-1], t, k);
    }
  }

  /** What is valid at t. */
  function FieldsAt(columns: nat, history: seq<Insertion>, t: Key): seq<Field> {
    var k := LastFrom(history, t);
    if k == -1 then NullRow(columns) else history[k].fields
  }

  function Insertions(table: Table, n: nat): (h: seq<Insertion>)
    requires WellFormed(table) && n <= |table.rows|
    ensures |h| == n
    ensures forall l :: 0 <= l < n ==> h[l] == Insertion(table.since[l], StoredRow(table, l))
  {
    seq(n, l requires 0 <= l < n => Insertion(table.since[l], StoredRow(table, l)))
  }

  class OnlineTable {
    const columns: nat
    var rows: seq<OnlRow>
    ghost var history: seq<Insertion>

    ghost predicate Valid()
      reads this
    {
      rows == Timeline(columns, history) && forall k :: 0 <= k < |history| ==> |history[k].fields| == columns
    }

    /** A fresh table holds one row of nulls, valid always. */
    constructor (columns: nat)
      ensures Valid() && history == [] && this.columns == columns
    {
      this.columns := columns;
      history := [];
      rows := [OnlRow(MINUS_INF, PLUS_INF, NullRow(columns))];
    }

    /** Row by row: encode, cut everything that reaches beyond the start, insert. */
    method StoreOnl(table: Table)
      requires Valid() && WellFormed(table) && |table.types| == columns
      modifies this
      ensures Valid()
      ensures history == old(history) + Insertions(table, |table.rows|)
    {
      hide Timeline, CutAll, StoredRow, RowStored;
      var l := 0;
      while l < |table.rows|
        invariant 0 <= l <= |table.rows|
        invariant Valid() && history == old(history) + Insertions(table, l)
      {
        var fields := EncodeRow(table.types, table.floats, table.nulls, table.rows[l]);
        var since := table.since[l];
        EncodedIsStored(table, l, fields);
        StoredWidth(table, l);
        TimelineNext(columns, history, Insertion(since, fields));
        Cut(since);
        rows := rows + [OnlRow(since, PLUS_INF, fields)];
        assert Insertions(table, l + 1) == Insertions(table, l) + [Insertion(since, fields)];
        history := history + [Insertion(since, fields)];
        l := l + 1;
      }
    }

    method Cut(since: Key)
      modifies this`rows
      ensures rows == CutAll(old(rows), since)
    {
      rows := Update(rows, (r: OnlRow) => r.till > since, (r: OnlRow) => r.(till := since));
    }

    /** The rows valid at a time: exactly one before +Inf. */
    method FindOnl(time: Key) returns (found: seq<OnlRow>)
      requires Valid()
      ensures time < PLUS_INF ==>
                && |found| == 1 && ValidAt(found[0], time)
                && found[0].fields == FieldsAt(columns, history, time) && |found[0].fields| == columns
      ensures time == PLUS_INF ==> found == []
    {
      found := Select(rows, (r: OnlRow) => ValidAt(r, time));
      forall k | 0 <= k < |rows|
        ensures ValidAt(rows[k], time) <==> time < PLUS_INF && k == LastFrom(history, time) + 1
        ensures k == LastFrom(history, time) + 1 ==> rows[k].fields == FieldsAt(columns, history, time)
      {
        OneRowValid(columns, history, time, k);
      }
      if time < PLUS_INF {
        SelectSingle(rows, (r: OnlRow) => ValidAt(r, time), LastFrom(history, time) + 1);
      } else {
        SelectNothing(rows, (r: OnlRow) => ValidAt(r, time));
      }
    }
  }

  lemma TimelineNext(columns: nat, history: seq<Insertion>, x: Insertion)
    ensures Timeline(columns, history + [x]) == CutAll(Timeline(columns, history), x.since) + [OnlRow(x.since, PLUS_INF, x.fields)]
  {
    hide CutAll;
    assert (history + [x])[..|history|] == history;
  }

  lemma {:induction false} SelectNothing<R(!new)>(t: seq<R>, where: R -> bool)
    requires forall i :: 0 <= i < |t| ==> !where(t[i])
    ensures Select(t, where) == []
  {
    if t != [] {
      SelectNothing(t[1..], where);
    }
  }

  lemma {:induction false} SelectSingle<R(!new)>(t: seq<R>, where: R -> bool, k: nat)
    requires k < |t| && where(t[k])
    requires forall i :: 0 <= i < |t| && i != k ==> !where(t[i])
    ensures Select(t, where) == [t[k]]
  {
    if k == 0 {
      SelectNothing(t[1..], where);
    } else {
      SelectSingle(t[1..], where, k - 1);
    }
  }
}
