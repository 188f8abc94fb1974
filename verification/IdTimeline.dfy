/** Structure folders with an ID in their first column: the rows handed in are cut into
    runs of one ID, and each run replaces what was valid for its ID from its start on. */
module IdTimeline {
  import opened CondDBKeys
  import opened SqlTable
  import opened CText
  import opened CdbTypes
  import opened TableRow
  import opened CondDBTable
  import opened OpenTimeline

  /** A row of the input: the text of its first column, its start, its stored form. */
  datatype Entry = Entry(id: string, since: Key, fields: seq<Field>)

  /** Consecutive rows of one ID; the start is that of the last of them. */
  datatype Run = Run(id: string, since: Key, rows: seq<seq<Field>>)

  // ---- Runs

  /** How many entries at the front share the ID of the first. */
  function RunLength(entries: seq<Entry>): (n: nat)
    requires entries != []
    ensures 1 <= n <= |entries|
    ensures forall i :: 0 <= i < n ==> entries[i].id == entries[0].id
    ensures n < |entries| ==> entries[n].id != entries[0].id
  {
    if |entries| == 1 || entries[1].id != entries[0].id then 1 else RunLength(entries[1..]) + 1
  }

  function FieldsOf(entries: seq<Entry>): (r: seq<seq<Field>>)
    ensures |r| == |entries|
  {
    seq(|entries|, i requires 0 <= i < |entries| => entries[i].fields)
  }

  function RunsOf(entries: seq<Entry>): seq<Run> {
    if entries == [] then []
    else
      var n := RunLength(entries);
      [Run(entries[0].id, entries[n-1].since, FieldsOf(entries[..n]))] + RunsOf(entries[n..])
  }

  function Joined(runs: seq<Run>): seq<seq<Field>> {
    if runs == [] then [] else runs[0].rows + Joined(runs[1..])
  }

  /** The runs are the input cut into maximal pieces: nothing is lost, doubled or moved, no
      piece is empty and neighbours have different IDs. */
  lemma {:induction false} RunsPartition(entries: seq<Entry>)
    ensures Joined(RunsOf(entries)) == FieldsOf(entries)
    ensures forall i :: 0 <= i < |RunsOf(entries)| ==> RunsOf(entries)[i].rows != []
    ensures forall i :: 0 <= i < |RunsOf(entries)| - 1 ==> RunsOf(entries)[i].id != RunsOf(entries)[i+1].id
    decreases |entries|
  {
    if entries != [] {
      var n := RunLength(entries);
      RunsPartition(entries[n..]);
      FieldsSplit(entries, n);
      RunsFirst(entries);
      hide RunsOf, Joined, FieldsOf;
      var first := Run(entries[0].id, entries[n-1].since, FieldsOf(entries[..n]));
      JoinedFirst(first, RunsOf(entries[n..]));
      if n < |entries| {
        FirstRunId(entries[n..]);
      }
    }
  }

  lemma RunsFirst(entries: seq<Entry>)
    requires entries != []
    ensures var n := RunLength(entries);
            RunsOf(entries) == [Run(entries[0].id, entries[n-1].since, FieldsOf(entries[..n]))] + RunsOf(entries[n..])
  {
    hide RunLength, FieldsOf;
  }

  lemma FirstRunId(entries: seq<Entry>)
    requires entries != []
    ensures RunsOf(entries) != [] && RunsOf(entries)[0].id == entries[0].id
  {}

  lemma FieldsSplit(entries: seq<Entry>, n: nat)
    requires n <= |entries|
    ensures FieldsOf(entries) == FieldsOf(entries[..n]) + FieldsOf(entries[n..])
  {}

  lemma JoinedFirst(first: Run, rest: seq<Run>)
    ensures Joined([first] + rest) == first.rows + Joined(rest)
  {}

  // ---- One run applied to the table

  /** .. WHERE till_t > since AND (id = runId OR id IS NULL) */
  predicate CutBy(r: OnlRow, run: Run) {
    r.till > run.since && r.fields != [] && (r.fields[0] == Plain(run.id) || r.fields[0] == Null)
  }

  function CutRun(rows: seq<OnlRow>, run: Run): seq<OnlRow> {
    Update(rows, (r: OnlRow) => CutBy(r, run), (r: OnlRow) => r.(till := run.since))
  }

  function NewRows(run: Run): (r: seq<OnlRow>)
    ensures |r| == |run.rows|
  {
    seq(|run.rows|, i requires 0 <= i < |run.rows| => OnlRow(run.since, PLUS_INF, run.rows[i]))
  }

  function ApplyRun(rows: seq<OnlRow>, run: Run): seq<OnlRow> {
    CutRun(rows, run) + NewRows(run)
  }

  /** The table after a history of accepted runs. */
  function IdTable(columns: nat, history: seq<Run>): seq<OnlRow> {
    if history == [] then [OnlRow(MINUS_INF, PLUS_INF, NullRow(columns))]
    else ApplyRun(IdTable(columns, history[..|history|-1]), history[|history|-1])
  }

  /** Every row of a run carries its ID, or every one a null where the ID counts as null. */
  predicate Uniform(run: Run) {
    && run.rows != []
    && (forall i :: 0 <= i < |run.rows| ==> run.rows[i] != [])
    && (run.rows[0][0] == Plain(run.id) || run.rows[0][0] == Null)
    && (forall i :: 0 <= i < |run.rows| ==> run.rows[i][0] == run.rows[0][0])
  }

  /** What the ID column of a run holds. */
  function IdField(run: Run): Field {
    if run.rows != [] && run.rows[0] != [] then run.rows[0][0] else Null
  }

  lemma UniformRun(run: Run)
    requires Uniform(run)
    ensures run.rows != [] && (IdField(run) == Plain(run.id) || IdField(run) == Null)
  {}

  predicate AllUniform(history: seq<Run>) {
    forall k :: 0 <= k < |history| ==> Uniform(history[k])
  }

  predicate HoldsId(r: OnlRow, f: Field) {
    r.fields != [] && r.fields[0] == f
  }

  predicate Carries(r: OnlRow, id: string) {
    HoldsId(r, Plain(id))
  }

  /** The rows that are valid at t and hold the field in the ID column, in table order. */
  function VisibleOf(rows: seq<OnlRow>, f: Field, t: Key): seq<seq<Field>> {
    if rows == [] then []
    else VisibleOf(rows[..|rows|-1], f, t) +
         if ValidAt(rows[|rows|-1], t) && HoldsId(rows[|rows|-1], f) then [rows[|rows|-1].fields] else []
  }

  /** The last accepted run of the ID starting at or before t, -1 if there is none. */
  function LastRunOf(history: seq<Run>, id: string, t: Key): (k: int)
    ensures -1 <= k < |history|
    ensures k >= 0 ==> history[k].id == id && history[k].since <= t
    ensures forall i :: k < i < |history| && history[i].id == id ==> history[i].since > t
  {
    if history == [] then -1
    else if history[|history|-1].id == id && history[|history|-1].since <= t then |history| - 1
    else LastRunOf(history[..|history|-1], id, t)
  }

  function Starts(history: seq<Run>): (r: seq<Insertion>)
    ensures |r| == |history|
  {
    seq(|history|, i requires 0 <= i < |history| => Insertion(history[i].since, []))
  }

  /** The last accepted run of any ID starting at or before t, -1 if there is none. */
  function LastRun(history: seq<Run>, t: Key): int {
    LastFrom(Starts(history), t)
  }

  lemma LastRunNext(history: seq<Run>, t: Key)
    requires history != []
    ensures var n := |history| - 1;
            && -1 <= LastRun(history[..n], t) < n
            && LastRun(history, t) == if history[n].since <= t then n else LastRun(history[..n], t)
  {
    assert Starts(history)[..|history|-1] == Starts(history[..|history|-1]);
  }

  lemma {:induction false} VisibleAppend(a: seq<OnlRow>, b: seq<OnlRow>, f: Field, t: Key)
    ensures VisibleOf(a + b, f, t) == VisibleOf(a, f, t) + VisibleOf(b, f, t)
    decreases |b|
  {
    if b == [] {
      assert a + b == a;
    } else {
      hide VisibleOf, HoldsId, ValidAt;
      VisibleAppend(a, b[..|b|-1], f, t);
      VisibleLast(a + b, f, t);
      VisibleLast(b, f, t);
      assert (a + b)[..|a + b|-1] == a + b[..|b|-1];
    }
  }

  /** Cutting for a run hides the rows of its own ID and the null rows from its start on, and
      nothing of any other ID. */
  lemma {:induction false} CutVisible(rows: seq<OnlRow>, run: Run, f: Field, t: Key)
    ensures VisibleOf(CutRun(rows, run), f, t)
            == if (f == Plain(run.id) || f == Null) && run.since <= t then [] else VisibleOf(rows, f, t)
    decreases |rows|
  {
    if rows != [] {
      var n := |rows| - 1;
      CutVisible(rows[..n], run, f, t);
      CutLast(rows, run);
      VisibleLast(CutRun(rows, run), f, t);
      VisibleLast(rows, f, t);
    }
  }

  lemma CutLast(rows: seq<OnlRow>, run: Run)
    requires rows != []
    ensures var n := |rows| - 1; var c := CutRun(rows, run);
            && |c| == |rows| && c[..n] == CutRun(rows[..n], run)
            && c[n] == if CutBy(rows[n], run) then rows[n].(till := run.since) else rows[n]
  {
    hide CutBy;
  }

  lemma VisibleLast(rows: seq<OnlRow>, f: Field, t: Key)
    requires rows != []
    ensures var n := |rows| - 1;
            VisibleOf(rows, f, t) == VisibleOf(rows[..n], f, t) +
              if ValidAt(rows[n], t) && HoldsId(rows[n], f) then [rows[n].fields] else []
  {}

  lemma NewRowHolds(run: Run, i: nat)
    requires Uniform(run) && i < |run.rows|
    ensures NewRows(run)[i] == OnlRow(run.since, PLUS_INF, run.rows[i])
    ensures run.rows[i] != [] && run.rows[i][0] == IdField(run)
  {}

  lemma {:induction false} NewVisible(run: Run, n: nat, f: Field, t: Key)
    requires Uniform(run) && n <= |run.rows|
    ensures VisibleOf(NewRows(run)[..n], f, t)
            == if run.since <= t < PLUS_INF && IdField(run) == f then run.rows[..n] else []
  {
    if n > 0 {
      NewVisible(run, n - 1, f, t);
      NewRowHolds(run, n - 1);
      hide VisibleOf, NewRows, Uniform, IdField;
      VisibleLast(NewRows(run)[..n], f, t);
      assert NewRows(run)[..n][..n-1] == NewRows(run)[..n-1];
      assert run.rows[..n] == run.rows[..n-1] + [run.rows[n-1]];
    }
  }

  /** From its start on a run shows its rows, and no others of its ID and no null rows; at
      other times and of other IDs it changes nothing. */
  lemma ApplyVisible(before: seq<OnlRow>, run: Run, f: Field, t: Key)
    requires Uniform(run) && t < PLUS_INF
    ensures VisibleOf(ApplyRun(before, run), f, t)
            == if run.since > t then VisibleOf(before, f, t)
               else if IdField(run) == f then run.rows
               else if f == Plain(run.id) || f == Null then []
               else VisibleOf(before, f, t)
  {
    hide CutRun, VisibleOf, NewRows, Uniform, IdField;
    CutVisible(before, run, f, t);
    NewVisible(run, |run.rows|, f, t);
    UniformRun(run);
    assert NewRows(run)[..|run.rows|] == NewRows(run) && run.rows[..|run.rows|] == run.rows;
    VisibleAppend(CutRun(before, run), NewRows(run), f, t);
  }

  /** The rows of the last accepted run of an ID starting at or before t. */
  function RunRows(history: seq<Run>, id: string, t: Key): seq<seq<Field>> {
    var k := LastRunOf(history, id, t);
    if k == -1 || IdField(history[k]) == Null then [] else history[k].rows
  }

  /** The null rows at t: those of the last accepted run of any ID if it stored nulls, and the
      initial row while there is no run at all. */
  function NullRows(columns: nat, history: seq<Run>, t: Key): seq<seq<Field>> {
    var k := LastRun(history, t);
    if k == -1 then [NullRow(columns)]
    else if IdField(history[k]) == Null then history[k].rows
    else []
  }

  lemma RunRowsNext(history: seq<Run>, id: string, t: Key)
    requires history != []
    ensures var run := history[|history|-1];
            RunRows(history, id, t) ==
              if run.id != id || run.since > t then RunRows(history[..|history|-1], id, t)
              else if IdField(run) == Null then []
              else run.rows
  {
    hide IdField;
  }

  /** For every ID and every time before +Inf, the valid rows carrying the ID are exactly
      the rows of its last accepted run starting at or before that time. */
  lemma {:induction false} LastRunVisible(columns: nat, history: seq<Run>, id: string, t: Key)
    requires AllUniform(history) && t < PLUS_INF
    ensures VisibleOf(IdTable(columns, history), Plain(id), t) == RunRows(history, id, t)
  {
    if history == [] {
      assert IdTable(columns, history)[..0] == [];
    } else {
      hide ApplyRun, VisibleOf, Uniform, IdField, IdTable, RunRows, LastRunOf;
      var n := |history| - 1;
      UniformRun(history[n]);
      RunRowsNext(history, id, t);
      IdTableNext(columns, history[..n], history[n]);
      assert history == history[..n] + [history[n]];
      LastRunVisible(columns, history[..n], id, t);
      ApplyVisible(IdTable(columns, history[..n]), history[n], Plain(id), t);
    }
  }

  lemma {:induction false} NullsVisible(columns: nat, history: seq<Run>, t: Key)
    requires AllUniform(history) && t < PLUS_INF && columns > 0
    ensures VisibleOf(IdTable(columns, history), Null, t) == NullRows(columns, history, t)
  {
    if history == [] {
      assert IdTable(columns, history)[..0] == [];
    } else {
      hide ApplyRun, VisibleOf, Uniform, IdField;
      var n := |history| - 1;
      UniformRun(history[n]);
      LastRunNext(history, t);
      NullsVisible(columns, history[..n], t);
      ApplyVisible(IdTable(columns, history[..n]), history[n], Null, t);
    }
  }

  // ---- All rows of a time, whatever their ID

  function VisibleAll(rows: seq<OnlRow>, t: Key): seq<seq<Field>> {
    if rows == [] then []
    else VisibleAll(rows[..|rows|-1], t) + if ValidAt(rows[|rows|-1], t) then [rows[|rows|-1].fields] else []
  }

  /** Of the rows found, those that hold the field in the ID column, in order. */
  function With(found: seq<seq<Field>>, f: Field): seq<seq<Field>> {
    if found == [] then []
    else
      var last := found[|found|-1];
      With(found[..|found|-1], f) + if last != [] && last[0] == f then [last] else []
  }

  lemma WithLast(found: seq<seq<Field>>, x: seq<Field>, f: Field)
    ensures With(found + [x], f) == With(found, f) + if x != [] && x[0] == f then [x] else []
  {
    assert (found + [x])[..|found|] == found;
  }

  lemma {:induction false} WithIsVisible(rows: seq<OnlRow>, f: Field, t: Key)
    ensures With(VisibleAll(rows, t), f) == VisibleOf(rows, f, t)
  {
    if rows != [] {
      var n := |rows| - 1;
      WithIsVisible(rows[..n], f, t);
      hide VisibleOf, With;
      VisibleLast(rows, f, t);
      WithLast(VisibleAll(rows[..n], t), rows[n].fields, f);
      assert VisibleAll(rows, t) == if ValidAt(rows[n], t) then VisibleAll(rows[..n], t) + [rows[n].fields] else VisibleAll(rows[..n], t);
      assert VisibleOf(rows[..n], f, t) + [] == VisibleOf(rows[..n], f, t);
    }
  }

  lemma {:induction false} VisibleRows(rows: seq<OnlRow>, t: Key)
    requires forall i :: 0 <= i < |rows| ==> HasIdField(rows[i].fields)
    ensures forall k :: 0 <= k < |VisibleAll(rows, t)| ==> HasIdField(VisibleAll(rows, t)[k])
  {
    if rows != [] {
      VisibleRows(rows[..|rows|-1], t);
    }
  }

  /** An ID column holds a text or a null. */
  predicate HasIdField(fields: seq<Field>) {
    fields != [] && !fields[0].Bytes?
  }

  lemma {:induction false} RowsHaveId(columns: nat, history: seq<Run>)
    requires AllUniform(history) && columns > 0
    ensures forall i :: 0 <= i < |IdTable(columns, history)| ==> HasIdField(IdTable(columns, history)[i].fields)
  {
    if history != [] {
      RowsHaveId(columns, history[..|history|-1]);
      assert Uniform(history[|history|-1]);
    }
  }

  /** All that is valid at a time: for every ID the rows of its last run, the null rows, and
      nothing besides. */
  ghost predicate AllOfThem(found: seq<seq<Field>>, columns: nat, history: seq<Run>, t: Key) {
    && (forall id :: With(found, Plain(id)) == RunRows(history, id, t))
    && With(found, Null) == NullRows(columns, history, t)
    && (forall k :: 0 <= k < |found| ==> HasIdField(found[k]))
  }

  lemma EverythingVisible(columns: nat, history: seq<Run>, t: Key)
    requires AllUniform(history) && t < PLUS_INF && columns > 0
    ensures AllOfThem(VisibleAll(IdTable(columns, history), t), columns, history, t)
  {
    hide With, VisibleAll, VisibleOf, RunRows, NullRows, IdTable, HasIdField, AllUniform;
    var rows := IdTable(columns, history);
    forall id
      ensures With(VisibleAll(rows, t), Plain(id)) == RunRows(history, id, t)
    {
      WithIsVisible(rows, Plain(id), t);
      LastRunVisible(columns, history, id, t);
    }
    WithIsVisible(rows, Null, t);
    NullsVisible(columns, history, t);
    RowsHaveId(columns, history);
    VisibleRows(rows, t);
  }

  /** The rows of other IDs are left as they stand; only null rows may be cut along. */
  lemma OtherRowsStand(rows: seq<OnlRow>, run: Run, i: nat)
    requires i < |rows| && rows[i].fields != [] && rows[i].fields[0] != Plain(run.id) && rows[i].fields[0] != Null
    ensures ApplyRun(rows, run)[i] == rows[i]
  {}

  // ---- Which runs are accepted

  /** An open row with an ID that is not null. */
  predicate OpenRow(r: OnlRow) {
    r.till == PLUS_INF && r.fields != [] && r.fields[0].Plain?
  }

  /** The ID as the query hands it over: up to its first NUL. */
  function ReadId(r: OnlRow): string
    requires OpenRow(r)
  {
    UpToNul(r.fields[0].text)
  }

  /** The map of IDs to starts read from the open rows before the first insertion. If open rows
      with different starts read as one ID, either start may be in the map. */
  ghost predicate IsOpenMap(rows: seq<OnlRow>, m: map<string, Key>) {
    && (forall i :: 0 <= i < |rows| && OpenRow(rows[i]) ==> ReadId(rows[i]) in m)
    && (forall id :: id in m ==> exists i :: 0 <= i < |rows| && OpenRow(rows[i]) && ReadId(rows[i]) == id && rows[i].since == m[id])
  }

  /** Looking an unknown ID up yields time 0. */
  function StartOf(m: map<string, Key>, id: string): Key {
    if id in m then m[id] else 0
  }

  predicate Accepts(m: map<string, Key>, run: Run) {
    StartOf(m, run.id) < run.since
  }

  function Accepted(m: map<string, Key>, runs: seq<Run>): seq<Run> {
    if runs == [] then []
    else Accepted(m, runs[..|runs|-1]) + if Accepts(m, runs[|runs|-1]) then [runs[|runs|-1]] else []
  }

  /** The rows of the run are still open: it did not store nulls, and every later run of its ID
      starts at +Inf and so cut nothing. */
  predicate Leads(history: seq<Run>, k: nat)
    requires k < |history|
  {
    && IdField(history[k]) != Null
    && forall i :: k < i < |history| && history[i].id == history[k].id ==> history[i].since == PLUS_INF
  }

  predicate OpensAs(history: seq<Run>, k: nat, field: Field, since: Key)
    requires k < |history|
  {
    Leads(history, k) && field == Plain(history[k].id) && since == history[k].since
  }

  lemma LeadsNext(history: seq<Run>, k: nat)
    requires k < |history|
    ensures var n := |history| - 1;
            Leads(history, k) <==>
              if k == n then IdField(history[n]) != Null
              else Leads(history[..n], k) && (history[n].id == history[k].id ==> history[n].since == PLUS_INF)
  {
    hide IdField;
    var n := |history| - 1;
    if k < n {
      assert forall i :: 0 <= i < n ==> history[..n][i] == history[i];
    }
  }

  /** An open row belongs to a run that leads. */
  lemma {:induction false} OpenBelongs(columns: nat, history: seq<Run>, r: OnlRow) returns (k: nat)
    requires AllUniform(history) && r in IdTable(columns, history) && OpenRow(r)
    ensures k < |history| && OpensAs(history, k, r.fields[0], r.since)
  {
    hide Leads, Uniform, IdField, NewRows;
    FirstRowIsNull(columns);
    var n := |history| - 1;
    var before, run := IdTable(columns, history[..n]), history[n];
    UniformRun(run);
    if r in NewRows(run) {
      var i :| 0 <= i < |run.rows| && NewRows(run)[i] == r;
      NewRowHolds(run, i);
      k := n;
      LeadsNext(history, k);
    } else {
      var i :| 0 <= i < |before| && CutRun(before, run)[i] == r;
      assert before[i] == r && r in before;
      k := OpenBelongs(columns, history[..n], r);
      LeadsNext(history, k);
    }
  }

  lemma FirstRowIsNull(columns: nat)
    ensures forall r :: r in IdTable(columns, []) ==> !OpenRow(r)
  {}

  /** A run that leads has an open row. */
  lemma {:induction false} LeaderIsOpen(columns: nat, history: seq<Run>, k: nat) returns (r: OnlRow)
    requires AllUniform(history) && k < |history| && Leads(history, k)
    ensures r in IdTable(columns, history) && OpenRow(r) && OpensAs(history, k, r.fields[0], r.since)
    decreases |history|
  {
    hide Uniform, IdField, NewRows, Leads;
    var n := |history| - 1;
    var before, run := IdTable(columns, history[..n]), history[n];
    UniformRun(run);
    LeadsNext(history, k);
    if k == n {
      NewRowHolds(run, 0);
      r := NewRows(run)[0];
      assert IdTable(columns, history)[|before|] == r;
    } else {
      r := LeaderIsOpen(columns, history[..n], k);
      var i :| 0 <= i < |before| && before[i] == r;
      assert IdTable(columns, history)[i] == r;
    }
  }

  /** Some run leads whose ID reads as this one and whose start is the one given. */
  ghost predicate LedFrom(history: seq<Run>, id: string, since: Key) {
    exists k :: 0 <= k < |history| && Leads(history, k) && UpToNul(history[k].id) == id && history[k].since == since
  }

  /** Every run whose ID reads as this one is of this very ID and starts before +Inf. */
  predicate Settled(history: seq<Run>, id: string) {
    NoNul(id) && forall k :: 0 <= k < |history| && UpToNul(history[k].id) == id ==> history[k].id == id && history[k].since < PLUS_INF
  }

  /** The start a run is compared with is that of an earlier run whose rows are open and whose ID
      reads as the one of the run, and 0 if there is none. If those runs are all of the same ID
      and start before +Inf, a run is accepted exactly when it starts after the last accepted run
      of its ID had started before the call, or after time 0 when the ID has none with a value. */
  lemma AcceptanceRule(columns: nat, history: seq<Run>, m: map<string, Key>, run: Run)
    requires AllUniform(history) && IsOpenMap(IdTable(columns, history), m)
    ensures var s := StartOf(m, run.id);
            LedFrom(history, run.id, s) || (s == 0 && forall since :: !LedFrom(history, run.id, since))
    ensures Settled(history, run.id) ==>
              var k := LastRunOf(history, run.id, PLUS_INF);
              Accepts(m, run) <==> (if k == -1 || IdField(history[k]) == Null then 0 else history[k].since) < run.since
  {
    hide IdTable, AllUniform, Settled, LedFrom;
    var rows := IdTable(columns, history);
    if run.id in m {
      MappedLeads(columns, history, m, run.id);
    }
    forall since | LedFrom(history, run.id, since)
      ensures run.id in m
    {
      LeaderMapped(columns, history, m, run.id, since);
    }
    if Settled(history, run.id) {
      SettledStart(history, run.id, StartOf(m, run.id));
    }
  }

  lemma MappedLeads(columns: nat, history: seq<Run>, m: map<string, Key>, id: string)
    requires AllUniform(history) && IsOpenMap(IdTable(columns, history), m) && id in m
    ensures LedFrom(history, id, m[id])
  {
    hide IdTable, AllUniform, Leads;
    var rows := IdTable(columns, history);
    var i :| 0 <= i < |rows| && OpenRow(rows[i]) && ReadId(rows[i]) == id && rows[i].since == m[id];
    var k := OpenBelongs(columns, history, rows[i]);
  }

  lemma LeaderMapped(columns: nat, history: seq<Run>, m: map<string, Key>, id: string, since: Key)
    requires AllUniform(history) && IsOpenMap(IdTable(columns, history), m) && LedFrom(history, id, since)
    ensures id in m
  {
    hide IdTable, AllUniform, Leads;
    var rows := IdTable(columns, history);
    var k :| 0 <= k < |history| && Leads(history, k) && UpToNul(history[k].id) == id && history[k].since == since;
    var r := LeaderIsOpen(columns, history, k);
    var i :| 0 <= i < |rows| && rows[i] == r;
  }

  /** When the ID is settled the only run that can lead is its last one. */
  lemma SettledStart(history: seq<Run>, id: string, s: Key)
    requires Settled(history, id)
    requires LedFrom(history, id, s) || (s == 0 && forall since :: !LedFrom(history, id, since))
    ensures var k := LastRunOf(history, id, PLUS_INF);
            s == if k == -1 || IdField(history[k]) == Null then 0 else history[k].since
  {
    hide IdField;
    UpToNulExactly(id);
    var k := LastRunOf(history, id, PLUS_INF);
    if k != -1 && IdField(history[k]) != Null {
      assert Leads(history, k) && UpToNul(history[k].id) == id;
      assert LedFrom(history, id, history[k].since);
    }
    if LedFrom(history, id, s) {
      var j :| 0 <= j < |history| && Leads(history, j) && UpToNul(history[j].id) == id && history[j].since == s;
      assert history[j].id == id && history[j].since < PLUS_INF;
      assert j == k;
    }
  }

  // ---- The input

  /** The table has an ID column first, which is not an array. */
  predicate HasId(table: Table) {
    WellFormed(table) && |table.types| > 0 && !IsArray(table.types[0])
  }

  lemma IdIsFirst(row: seq<Cell>, types: seq<CdbType>)
    requires RowFits(row, types) && |types| > 0 && !IsArray(types[0])
    ensures |FlatRow(row)| > 0 && Rendered(row[0]) == [FlatRow(row)[0]]
  {
    FlatFirst(row);
    FlatShape(row[0], types[0]);
  }

  function EntryOf(table: Table, l: nat): Entry
    requires HasId(table) && l < |table.rows|
  {
    IdIsFirst(table.rows[l], table.types);
    Entry(FlatRow(table.rows[l])[0], table.since[l], StoredRow(table, l))
  }

  function EntriesOf(table: Table): (r: seq<Entry>)
    requires HasId(table)
    ensures |r| == |table.rows| && forall l :: 0 <= l < |r| ==> r[l] == EntryOf(table, l)
  {
    seq(|table.rows|, l requires 0 <= l < |table.rows| => EntryOf(table, l))
  }

  /** The ID column holds the ID, or a null if the ID is the null value of the column. */
  predicate IdStored(e: Entry, isNull: string -> bool) {
    e.fields != [] && e.fields[0] == if WrittenNull([e.id], isNull) then Null else Plain(e.id)
  }

  lemma EntryStoresId(table: Table, l: nat)
    requires HasId(table) && l < |table.rows|
    ensures IdStored(EntryOf(table, l), table.nulls[0])
  {
    hide FlatRow, Rendered, RowStored;
    IdIsFirst(table.rows[l], table.types);
    RowStoredAt(table.types, table.floats, table.nulls, table.rows[l], 0);
    PushedNull([EntryOf(table, l).id], table.nulls[0]);
  }

  lemma {:induction false} RunsUniform(entries: seq<Entry>, isNull: string -> bool)
    requires forall i :: 0 <= i < |entries| ==> IdStored(entries[i], isNull)
    ensures AllUniform(RunsOf(entries))
    decreases |entries|
  {
    if entries != [] {
      var n := RunLength(entries);
      RunsUniform(entries[n..], isNull);
      RunsFirst(entries);
      var first := Run(entries[0].id, entries[n-1].since, FieldsOf(entries[..n]));
      forall i | 0 <= i < n
        ensures first.rows[i] != [] && first.rows[i][0] == if WrittenNull([first.id], isNull) then Null else Plain(first.id)
      {
        assert IdStored(entries[i], isNull) && entries[i].id == first.id;
      }
      assert Uniform(first);
    }
  }

  // ---- The loops

  class OnlineIdTable {
    const columns: nat
    var rows: seq<OnlRow>
    ghost var history: seq<Run>

    ghost predicate Valid()
      reads this
    {
      columns > 0 && AllUniform(history) && rows == IdTable(columns, history)
    }

    constructor (columns: nat)
      requires columns > 0
      ensures Valid() && history == [] && this.columns == columns
    {
      this.columns := columns;
      history := [];
      rows := [OnlRow(MINUS_INF, PLUS_INF, NullRow(columns))];
    }

    /** ID and start of every open row; null IDs are passed over. */
    method BuildMap() returns (idToTime: map<string, Key>)
      ensures IsOpenMap(rows, idToTime)
    {
      idToTime := map[];
      var i := 0;
      while i < |rows|
        invariant 0 <= i <= |rows|
        invariant forall k :: 0 <= k < i && OpenRow(rows[k]) ==> ReadId(rows[k]) in idToTime
        invariant forall id :: id in idToTime ==>
                    exists k :: 0 <= k < i && OpenRow(rows[k]) && ReadId(rows[k]) == id && rows[k].since == idToTime[id]
      {
        var r := rows[i];
        if r.till == PLUS_INF && r.fields != [] && r.fields[0].Plain? {
          assert OpenRow(rows[i]);
          var mapId := UpToNul(r.fields[0].text);
          idToTime := idToTime[mapId := r.since];
        }
        i := i + 1;
      }
    }

    /** Cut the rows of the ID and the null rows, then insert the block. */
    method InsertBlock(run: Run)
      modifies this`rows
      ensures rows == ApplyRun(old(rows), run)
    {
      rows := Update(rows, (r: OnlRow) => CutBy(r, run), (r: OnlRow) => r.(till := run.since));
      var b := 0;
      while b < |run.rows|
        invariant 0 <= b <= |run.rows|
        invariant rows == CutRun(old(rows), run) + NewRows(run)[..b]
      {
        rows := rows + [OnlRow(run.since, PLUS_INF, run.rows[b])];
        b := b + 1;
      }
      assert NewRows(run)[..b] == NewRows(run);
    }

    /** Collect the rows from `start` on that share the ID of that row. */
    method CollectBlock(table: Table, start: nat) returns (blockId: string, block: seq<seq<Field>>, l: nat)
      requires HasId(table) && start < |table.rows|
      ensures blockId == EntriesOf(table)[start].id
      ensures l == start + RunLength(EntriesOf(table)[start..])
      ensures block == FieldsOf(EntriesOf(table)[start..l])
    {
      hide *;
      ghost var entries := EntriesOf(table);
      block, l := [], start;
      EntryParts(table, l);
      var values := GetRow(table.rows[l]);
      var id := values[0];
      blockId := id;
      var more := true;
      FieldsNone(entries, start);
      while more
        invariant start <= l <= |table.rows| == |entries| && (l == start ==> more)
        invariant block == FieldsOf(entries[start..l])
        invariant forall k :: start <= k < l ==> entries[k].id == blockId
        invariant more ==> l < |table.rows| && id == blockId && entries[l].id == id
        invariant !more ==> l == |table.rows| || entries[l].id != blockId
        decreases |table.rows| - l, more
      {
        EntryParts(table, l);
        var fields := EncodeRow(table.types, table.floats, table.nulls, table.rows[l]);
        FieldsNext(entries, start, l);
        block := block + [fields];
        l := l + 1;
        if l < |table.rows| {
          EntryParts(table, l);
          values := GetRow(table.rows[l]);
          id := values[0];
        }
        more := l < |table.rows| && blockId == id;
      }
      RunLengthIs(entries[start..], l - start);
    }

    /** Read the start of the ID off the map, which answers 0 for an unknown ID and keeps
        that answer, and insert the run whole or skip it whole. */
    method OfferRun(idToTime: map<string, Key>, run: Run) returns (m: map<string, Key>)
      requires Valid() && Uniform(run)
      modifies this
      ensures Valid()
      ensures history == old(history) + if Accepts(idToTime, run) then [run] else []
      ensures forall id :: StartOf(m, id) == StartOf(idToTime, id)
    {
      hide ApplyRun, IdTable, Uniform;
      m := idToTime;
      if run.id !in m {
        m := m[run.id := 0];
      }
      if m[run.id] < run.since || |m| == 0 {
        assert run.id in m;
        IdTableNext(columns, history, run);
        InsertBlock(run);
        history := history + [run];
      }
    }

    /** Run by run; the map is read once and not kept up to date. */
    method StoreOnlId(table: Table) returns (ghost open: map<string, Key>)
      requires Valid() && HasId(table) && |table.types| == columns
      modifies this
      ensures Valid()
      ensures IsOpenMap(old(rows), open)
      ensures history == old(history) + Accepted(open, RunsOf(EntriesOf(table)))
    {
      hide EntryOf, EntriesOf, Uniform, IsOpenMap, RunLength, RunsOf, FieldsOf, Valid, StartOf, WellFormed;
      ghost var entries := EntriesOf(table);
      InputRuns(table);
      var idToTime := BuildMap();
      open := idToTime;
      ghost var done := [];
      var l := 0;
      assert entries[0..] == entries;
      while l < |table.rows|
        invariant 0 <= l <= |table.rows|
        invariant done + RunsOf(entries[l..]) == RunsOf(entries)
        invariant Valid() && history == old(history) + Accepted(open, done)
        invariant forall id :: StartOf(idToTime, id) == StartOf(open, id)
      {
        var start := l;
        var blockId, block;
        blockId, block, l := CollectBlock(table, start);
        var since := table.since[l - 1];
        var run := Run(blockId, since, block);
        EntrySince(table, l - 1);
        RunTaken(entries, done, start, run);
        AcceptedNext(open, done, run);
        idToTime := OfferRun(idToTime, run);
        done := done + [run];
      }
      NoRunsLeft(entries);
      assert done == RunsOf(entries);
    }

    /** Rows at a time: those of the last accepted run of the ID starting at or before it. An
        empty ID is no ID: then the rows of every ID and the null rows are returned. */
    method FindOnl(time: Key, id: string) returns (found: seq<seq<Field>>)
      requires Valid()
      ensures time == PLUS_INF ==> found == []
      ensures time < PLUS_INF && id != "" ==> found == RunRows(history, id, time)
      ensures time < PLUS_INF && id == "" ==> AllOfThem(found, columns, history, time)
    {
      hide AllOfThem, RunRows, IdTable, AllUniform;
      found := [];
      var i := 0;
      while i < |rows|
        invariant 0 <= i <= |rows|
        invariant found == if id == "" then VisibleAll(rows[..i], time) else VisibleOf(rows[..i], Plain(id), time)
        invariant time == PLUS_INF ==> found == []
      {
        assert rows[..i+1][..i] == rows[..i];
        if ValidAt(rows[i], time) && (id == "" || Carries(rows[i], id)) {
          found := found + [rows[i].fields];
        }
        i := i + 1;
      }
      assert rows[..i] == rows;
      if time < PLUS_INF {
        LastRunVisible(columns, history, id, time);
        EverythingVisible(columns, history, time);
      }
    }
  }

  lemma NoRunsLeft(entries: seq<Entry>)
    ensures RunsOf(entries[|entries|..]) == []
  {}

  lemma EntryParts(table: Table, l: nat)
    requires HasId(table) && l < |table.rows|
    ensures |EntriesOf(table)| == |table.rows| && |table.types| == |table.nulls| && |table.since| == |table.rows|
    ensures RowFits(table.rows[l], table.types)
    ensures |FlatRow(table.rows[l])| > 0
    ensures EntriesOf(table)[l] == Entry(FlatRow(table.rows[l])[0], table.since[l], RowStored(table.types, table.floats, table.nulls, table.rows[l]))
  {
    hide FlatRow, RowStored;
    IdIsFirst(table.rows[l], table.types);
  }

  lemma EntrySince(table: Table, l: nat)
    requires HasId(table) && l < |table.rows|
    ensures EntriesOf(table)[l].since == table.since[l]
  {
    hide FlatRow, RowStored;
  }

  lemma InputRuns(table: Table)
    requires HasId(table)
    ensures AllUniform(RunsOf(EntriesOf(table))) && |EntriesOf(table)| == |table.rows| == |table.since|
  {
    hide EntryOf, IdStored, RunsOf;
    var entries := EntriesOf(table);
    forall l | 0 <= l < |entries|
      ensures IdStored(entries[l], table.nulls[0])
    {
      EntryStoresId(table, l);
    }
    RunsUniform(entries, table.nulls[0]);
  }

  /** The next block is the next run of the input. */
  lemma RunTaken(entries: seq<Entry>, done: seq<Run>, start: nat, run: Run)
    requires start < |entries| && done + RunsOf(entries[start..]) == RunsOf(entries)
    requires AllUniform(RunsOf(entries))
    requires var l := start + RunLength(entries[start..]);
             run == Run(entries[start].id, entries[l-1].since, FieldsOf(entries[start..l]))
    ensures var l := start + RunLength(entries[start..]);
            (done + [run]) + RunsOf(entries[l..]) == RunsOf(entries)
    ensures Uniform(run)
  {
    hide RunLength, RunsOf, FieldsOf, Uniform;
    NextRunOf(entries, start);
    assert RunsOf(entries)[|done|] == run;
  }

  lemma FieldsNone(entries: seq<Entry>, start: nat)
    requires start <= |entries|
    ensures FieldsOf(entries[start..start]) == []
  {}

  lemma FieldsNext(entries: seq<Entry>, start: nat, l: nat)
    requires start <= l < |entries|
    ensures FieldsOf(entries[start..l+1]) == FieldsOf(entries[start..l]) + [entries[l].fields]
  {}

  lemma {:induction false} RunLengthIs(entries: seq<Entry>, n: nat)
    requires 1 <= n <= |entries|
    requires forall i :: 0 <= i < n ==> entries[i].id == entries[0].id
    requires n < |entries| ==> entries[n].id != entries[0].id
    ensures RunLength(entries) == n
    decreases n
  {
    if n > 1 {
      assert entries[1].id == entries[0].id;
      RunLengthIs(entries[1..], n - 1);
    }
  }

  lemma NextRunOf(entries: seq<Entry>, start: nat)
    requires start < |entries|
    ensures var l := start + RunLength(entries[start..]);
            RunsOf(entries[start..]) == [Run(entries[start].id, entries[l-1].since, FieldsOf(entries[start..l]))] + RunsOf(entries[l..])
  {
    hide RunLength, RunsOf, FieldsOf;
    var es := entries[start..];
    var n := RunLength(es);
    RunsFirst(es);
    assert es[..n] == entries[start..start + n] && es[n..] == entries[start + n..];
  }

  lemma AcceptedNext(m: map<string, Key>, done: seq<Run>, run: Run)
    ensures Accepted(m, done + [run]) == Accepted(m, done) + if Accepts(m, run) then [run] else []
  {
    assert (done + [run])[..|done|] == done;
  }

  lemma IdTableNext(columns: nat, history: seq<Run>, run: Run)
    ensures IdTable(columns, history + [run]) == ApplyRun(IdTable(columns, history), run)
  {
    hide ApplyRun;
    assert (history + [run])[..|history|] == history;
  }
}
