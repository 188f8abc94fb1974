/** Tables stored with versions (STRUCTTAG folders): rows of data keyed by dat_id,
    over the same log and head tables as the object store. */
module TableVersions {
  import opened CondDBKeys
  import opened SqlTable
  import opened HeadIndex
  import opened VersionedStore
  import opened VersionedRuns
  import opened TrimByObject
  import opened MySqlObjectMgr
  import opened TableRow
  import opened CondDBTable

  /** The stored columns of one table row. */
  type Cells = seq<Field>

  datatype DataRow = DataRow(datId: int, cells: Cells)

  datatype StoredTable = StoredTable(since: Key, till: Key, rows: seq<Cells>)

  /** A row shown by a query on the versions of a table. */
  datatype ShownRow = ShownRow(since: Key, till: Key, cells: Cells, layer: nat)

  ghost predicate LegalTable(s: StoredTable) {
    s.since < s.till && s.rows != []
  }

  ghost predicate NonEmptyTables(ts: seq<StoredTable>) {
    forall i :: 0 <= i < |ts| ==> ts[i].rows != []
  }

  ghost predicate LegalTables(ts: seq<StoredTable>) {
    forall i :: 0 <= i < |ts| ==> LegalTable(ts[i])
  }

  /** The times of a table are those of its first row. */
  predicate ForVersions(t: Table) {
    WellFormed(t) && t.rows != [] && t.till != []
  }

  function Version(t: Table): (s: StoredTable)
    requires ForVersions(t)
    ensures s.rows != [] && (LegalTable(s) <==> t.since[0] < t.till[0])
  {
    StoredTable(t.since[0], t.till[0], RowsUpTo(t, |t.rows|))
  }

  function RowsUpTo(t: Table, n: nat): (r: seq<Cells>)
    requires WellFormed(t) && n <= |t.rows|
    ensures |r| == n && forall l :: 0 <= l < n ==> r[l] == StoredRow(t, l)
  {
    seq(n, l requires 0 <= l < n => StoredRow(t, l))
  }

  /** The k-th stored table puts its object over its interval under dat_id k. */
  ghost function Events(ts: seq<StoredTable>, partId: int): (es: seq<Event>)
    requires LegalTables(ts)
    ensures |es| == |ts| && AllLegal(es)
    ensures forall i :: 0 <= i < |ts| ==> es[i] == StoreObject(ts[i].since, ts[i].till, partId, i)
  {
    seq(|ts|, i requires 0 <= i < |ts| => StoreObject(ts[i].since, ts[i].till, partId, i))
  }

  function RowsUnder(datId: int, rows: seq<Cells>): seq<DataRow> {
    seq(|rows|, i requires 0 <= i < |rows| => DataRow(datId, rows[i]))
  }

  /** The data table after storing `ts`. */
  function DataTable(ts: seq<StoredTable>): seq<DataRow> {
    if ts == [] then []
    else DataTable(ts[..|ts|-1]) + RowsUnder(|ts| - 1, ts[|ts|-1].rows)
  }

  /** SELECT .. WHERE dat_id = datId */
  function DataOf(data: seq<DataRow>, datId: int): seq<Cells> {
    if data == [] then []
    else DataOf(data[..|data|-1], datId) + if data[|data|-1].datId == datId then [data[|data|-1].cells] else []
  }

  lemma DataOfLast(data: seq<DataRow>, datId: int)
    requires data != []
    ensures var n := |data| - 1;
            DataOf(data, datId) == DataOf(data[..n], datId) + if data[n].datId == datId then [data[n].cells] else []
  {}

  lemma {:induction false} DataOfAppend(a: seq<DataRow>, b: seq<DataRow>, datId: int)
    ensures DataOf(a + b, datId) == DataOf(a, datId) + DataOf(b, datId)
  {
    if b == [] {
      assert a + b == a;
    } else {
      hide DataOf;
      DataOfAppend(a, b[..|b|-1], datId);
      DataOfLast(a + b, datId);
      DataOfLast(b, datId);
      assert (a + b)[..|a + b|-1] == a + b[..|b|-1];
    }
  }

  lemma {:induction false} DataOfKeyed(k: int, rows: seq<Cells>, datId: int)
    ensures DataOf(RowsUnder(k, rows), datId) == if k == datId then rows else []
  {
    if rows != [] {
      DataOfKeyed(k, rows[..|rows|-1], datId);
      assert RowsUnder(k, rows)[..|rows|-1] == RowsUnder(k, rows[..|rows|-1]);
      assert rows == rows[..|rows|-1] + [rows[|rows|-1]];
    }
  }

  /** Every stored table keeps its rows to itself: selecting its dat_id gives them back,
      with multiplicity and in order. */
  lemma {:induction false} TablesKeepApart(ts: seq<StoredTable>, k: int)
    ensures DataOf(DataTable(ts), k) == if 0 <= k < |ts| then ts[k].rows else []
  {
    if ts != [] {
      var n := |ts| - 1;
      TablesKeepApart(ts[..n], k);
      DataOfAppend(DataTable(ts[..n]), RowsUnder(n, ts[n].rows), k);
      DataOfKeyed(n, ts[n].rows, k);
    }
  }

  /** As no table is empty, the largest dat_id in use belongs to the last one, whatever the
      intervals. */
  lemma {:induction false} DatIds(ts: seq<StoredTable>)
    requires NonEmptyTables(ts)
    ensures forall d :: d in DataTable(ts) ==> 0 <= d.datId < |ts|
    ensures ts != [] ==> exists d :: d in DataTable(ts) && d.datId == |ts| - 1
  {
    if ts != [] {
      var n := |ts| - 1;
      DatIds(ts[..n]);
      var added := RowsUnder(n, ts[n].rows);
      assert added[0] in DataTable(ts);
    }
  }

  lemma LastDatId(ts: seq<StoredTable>, data: seq<DataRow>, used: bool, m: int)
    requires NonEmptyTables(ts) && data == DataTable(ts)
    requires used <==> data != []
    requires used ==> (exists d :: d in data && d.datId == m) && forall d :: d in data ==> d.datId <= m
    ensures (if used then m + 1 else 0) == |ts|
  {
    DatIds(ts);
    NoTablesNoData();
    hide DataTable, NonEmptyTables;
  }

  lemma NoTablesNoData()
    ensures DataTable([]) == []
  {}

  /** The last table stored over p, -1 if there is none. */
  ghost function LastTableOver(ts: seq<StoredTable>, p: Key): (k: int)
    ensures -1 <= k < |ts|
  {
    if ts == [] then -1
    else if Within(ts[|ts|-1].since, p, ts[|ts|-1].till) then |ts| - 1
    else LastTableOver(ts[..|ts|-1], p)
  }

  lemma {:induction false} LastTableIsLastStore(ts: seq<StoredTable>, partId: int, p: Key)
    requires LegalTables(ts)
    ensures LastTableOver(ts, p) == LastStoreOver(Events(ts, partId), p)
  {
    if ts != [] {
      var n := |ts| - 1;
      LastTableIsLastStore(ts[..n], partId, p);
      assert Events(ts, partId)[..n] == Events(ts[..n], partId);
    }
  }

  /** The rows of a tag are the head as it was when the tables stored were these. */
  ghost predicate FrozenAt(tags: set<TagRow>, tagId: int, ts: seq<StoredTable>, partId: int) {
    LegalTables(ts) && TagRows(tags, tagId) == HeadAsTag(Run(Events(ts, partId)).head, tagId)
  }

  /** Every tag row belongs to a tag whose rows were copied when `frozen` of it tables had been
      stored. */
  ghost predicate Frozen(tags: seq<TagRow>, frozen: map<int, nat>, ts: seq<StoredTable>, partId: int) {
    && NoDup(tags)
    && (forall g :: g in tags ==> g.tagId in frozen)
    && (forall id :: id in frozen ==> 1 <= frozen[id] <= |ts| && FrozenAt(Rows(tags), id, ts[..frozen[id]], partId))
  }

  class VersionMgr {
    const partId: int
    const columns: nat
    var log: seq<LogRow>
    var head: seq<HeadRow>
    var tags: seq<TagRow>
    var data: seq<DataRow>
    ghost var stored: seq<StoredTable>
    ghost var frozen: map<int, nat>

    ghost function Abs(): Tables
      reads this
    {
      Tables(log, Rows(head), {})
    }

    /** What every history of calls keeps: the log and the data are those of the tables stored
        so far, each table under a dat_id of its own, and head and tag rows name objects of
        the log. */
    ghost predicate Loaded()
      reads this
    {
      && NonEmptyTables(stored)
      && LogOf(log, stored, partId)
      && data == DataTable(stored)
      && (forall d :: d in data ==> |d.cells| == columns)
      && (forall h :: h in head ==> 1 <= h.objId <= |log|)
      && (forall g :: g in tags ==> 1 <= g.objId <= |log|)
    }

    /** As long as every store was of an interval in order and safe for it, head is that of the
        exact store as well. */
    ghost predicate Valid()
      reads this
    {
      && Loaded()
      && LegalTables(stored)
      && NoDup(head)
      && Abs() == Run(Events(stored, partId))
      && Frozen(tags, frozen, stored, partId)
    }

    constructor (partId: int, columns: nat)
      ensures Valid() && stored == [] && frozen == map[] && this.partId == partId && this.columns == columns
    {
      this.partId := partId;
      this.columns := columns;
      log, head, tags, data, stored, frozen := [], [], [], [], [], map[];
    }

    /** The overlap query, rows in no particular order; the layer comes from the log. */
    method SelectOverlap(since: Key, till: Key) returns (rows: seq<HeadRow>)
      ensures Delivered(rows, head, since, till)
    {
      rows := Select(head, (h: HeadRow) => Overlaps(h, since, till));
    }

    /** The four-case branch, every statement restricted to the object id alone. */
    method TrimRow(r: HeadRow, since: Key, till: Key)
      modifies this`head
      ensures head == Trimmed(old(head), SameObject(r), r, since, till)
    {
      if r.since < since && r.till > since && r.till <= till {
        head := Update(head, SameObject(r), (h: HeadRow) => h.(till := since));
      } else if r.since >= since && r.till <= till {
        head := Delete(head, SameObject(r));
      } else if r.since < till && r.till > till && r.since >= since {
        head := Update(head, SameObject(r), (h: HeadRow) => h.(since := till));
      } else if r.since < since && r.till > till {
        head := Update(head, SameObject(r), (h: HeadRow) => h.(till := since));
        head := head + [HeadRow(r.objId, till, r.till)];
      }
    }

    method Insert(since: Key, till: Key, layer: nat, dbId: int, datId: int)
      modifies this`log, this`head
      ensures log == old(log) + [LogRow(|old(log)| + 1, since, till, layer, dbId, datId)]
      ensures head == old(head) + [HeadRow(|old(log)| + 1, since, till)]
    {
      log := log + [LogRow(|log| + 1, since, till, layer, dbId, datId)];
      head := head + [HeadRow(|log|, since, till)];
    }

    /** Trim the snapshot and return the highest layer in it. */
    method TrimOverlapped(rows: seq<HeadRow>, since: Key, till: Key) returns (layer: nat)
      requires rows != [] && forall r :: r in rows ==> 1 <= r.objId <= |log|
      modifies this`head
      ensures head == TrimAll(old(head), rows, since, till)
      ensures exists r :: r in rows && log[r.objId-1].layer == layer
      ensures forall r :: r in rows ==> log[r.objId-1].layer <= layer
    {
      hide *;
      layer := log[rows[0].objId-1].layer;
      TrimAllNext(head, rows, 0, since, till);
      TrimRow(rows[0], since, till);
      var i := 1;
      while i < |rows|
        invariant 1 <= i <= |rows|
        invariant head == TrimAll(old(head), rows[..i], since, till)
        invariant exists k :: 0 <= k < i && log[rows[k].objId-1].layer == layer
        invariant forall k :: 0 <= k < i ==> log[rows[k].objId-1].layer <= layer
      {
        var tmpLay := log[rows[i].objId-1].layer;
        if tmpLay > layer {
          layer := tmpLay;
        }
        TrimAllNext(old(head), rows, i, since, till);
        TrimRow(rows[i], since, till);
        i := i + 1;
      }
      assert rows[..i] == rows;
    }

    /** The table version of the store. In every state the log is right and head is what the
        loop over the rows delivered leaves, and the new row. From a state of the exact store,
        an interval in order, be it empty, leaves the head of the exact store, and finds the
        same at every point, if and only if the state is safe for the interval; one in reverse
        order leaves one row at each point if and only if no fragment spans it. */
    method Store(since: Key, till: Key, dbId: int, datId: int)
      requires Keyed(Abs())
      modifies this`log, this`head
      ensures Keyed(Abs()) && log == Stored(old(Abs()), since, till, dbId, datId).log
      ensures TableStep(old(head), head, |log|, since, till)
      ensures Inv(old(Abs())) && NoDup(old(head)) && since <= till ==>
                StepAgrees(old(Abs()), head, log, since, till, dbId, datId)
      ensures Inv(old(Abs())) && NoDup(old(head)) && till < since ==>
                (OneAtEach(head) <==> forall h :: h in old(head) ==> !Spans(h, till, since))
    {
      hide *;
      AbsParts();
      ghost var t, was := Abs(), head;
      var rows := SelectOverlap(since, till);
      RowsNamed(t, head, rows, since, till);
      if |rows| != 0 {
        var layer := TrimOverlapped(rows, since, till);
        LayerOf(t, was, rows, layer, since, till);
        layer := layer + 1;
        Insert(since, till, layer, dbId, datId);
      } else {
        TrimNone(was, since, till);
        NoLayer(t, was, rows, since, till);
        Insert(since, till, 0, dbId, datId);
      }
      StepDone(t, was, rows, head, log, since, till, dbId, datId);
      AbsParts();
    }

    /** SELECT MAX(dat_id); None when the data table is empty. */
    method MaxDatId() returns (used: bool, m: int)
      ensures used <==> data != []
      ensures used ==> (exists d :: d in data && d.datId == m) && forall d :: d in data ==> d.datId <= m
    {
      used, m := false, 0;
      var i := 0;
      while i < |data|
        invariant 0 <= i <= |data|
        invariant used <==> i > 0
        invariant used ==> exists k :: 0 <= k < i && data[k].datId == m
        invariant used ==> forall k :: 0 <= k < i ==> data[k].datId <= m
      {
        if !used || data[i].datId > m {
          m := data[i].datId;
        }
        used := true;
        i := i + 1;
      }
    }

    /** Insert the rows of a table one by one. */
    method InsertRows(table: Table, datId: int)
      requires WellFormed(table)
      modifies this`data
      ensures data == old(data) + RowsUnder(datId, RowsUpTo(table, |table.rows|))
    {
      hide StoredRow, RowStored;
      var l := 0;
      while l < |table.rows|
        invariant 0 <= l <= |table.rows|
        invariant data == old(data) + RowsUnder(datId, RowsUpTo(table, l))
      {
        var fields := EncodeRow(table.types, table.floats, table.nulls, table.rows[l]);
        EncodedIsStored(table, l, fields);
        assert RowsUpTo(table, l + 1) == RowsUpTo(table, l) + [fields];
        data := data + [DataRow(datId, fields)];
        RowsUnderNext(datId, RowsUpTo(table, l), fields);
        l := l + 1;
      }
    }

    /** Store a table: its rows go to the data table under a fresh dat_id, in every history;
        then its object goes on top. From a state of the exact store the result is the one that
        has the table as its latest if and only if the interval is in order and not empty and
        the state is safe for it. The times are not checked; what other intervals and states
        leave is what `Store` leaves. Tags keep what they have. */
    method StoreVer(table: Table)
      requires Loaded() && ForVersions(table) && |table.types| == columns
      modifies this
      ensures Loaded() && stored == old(stored) + [Version(table)]
      ensures data == old(data) + RowsUnder(|old(stored)|, Version(table).rows)
      ensures forall d :: d in old(data) ==> d.datId != |old(stored)|
      ensures tags == old(tags) && frozen == old(frozen)
      ensures Keyed(old(Abs())) && log == Stored(old(Abs()), table.since[0], table.till[0], partId, |old(stored)|).log
      ensures TableStep(old(head), head, |stored|, table.since[0], table.till[0])
      ensures old(Valid()) ==>
                (Valid() <==> table.since[0] < table.till[0] && ByObjectSafe(old(Rows(head)), table.since[0], table.till[0]))
      ensures old(Valid()) && table.since[0] <= table.till[0] ==>
                StepAgrees(old(Abs()), head, log, table.since[0], table.till[0], partId, |old(stored)|)
      ensures old(Valid()) && table.till[0] < table.since[0] ==>
                (OneAtEach(head) <==> forall h :: h in old(head) ==> !Spans(h, table.till[0], table.since[0]))
    {
      hide *;
      LoadedParts();
      var used, m := MaxDatId();
      var datId := if used then m + 1 else 0;
      LastDatId(stored, data, used, m);
      ghost var t, was := Abs(), head;
      ghost var ts, version := stored, Version(table);
      ghost var valid := Valid();
      if valid {
        ValidParts();
      }
      VersionParts(table);
      DatIds(ts);
      InsertRows(table, datId);
      stored := stored + [version];
      AbsParts();
      var since, till := table.since[0], table.till[0];
      Store(since, till, partId, datId);
      StoredLoaded(t, log, ts, version, partId);
      DataTableNext(ts, version);
      WideMore(old(data), columns, |ts|, version.rows);
      HeadNamed();
      IsLoaded();
      AbsParts();
      if valid {
        FrozenMore(tags, frozen, ts, version, partId);
        ValidNext(t, log, head, ts, version, partId);
        IsValid();
      }
    }

    /** Tag the head: the folder's tag rows become a copy of it. An empty head: an error without
        effect. */
    method AddTag(newTagId: int) returns (ok: bool)
      requires Loaded()
      modifies this`tags, this`frozen
      ensures Loaded() && (old(Valid()) ==> Valid())
      ensures ok <==> head != []
      ensures Rows(tags) == if ok then old(Rows(tags)) - TagRows(old(Rows(tags)), newTagId) + HeadAsTag(Rows(head), newTagId)
                            else old(Rows(tags))
      ensures frozen == if ok then old(frozen)[newTagId := |stored|] else old(frozen)
    {
      hide *;
      LoadedParts();
      AbsParts();
      ghost var was, valid := tags, Valid();
      if valid {
        ValidParts();
        HeadOfTables(stored, partId, head);
      }
      ok, tags := Retag(tags, head, newTagId);
      TagsNamed(was, tags, head, newTagId, ok, |log|);
      if valid {
        if ok {
          FrozenTag(was, tags, frozen, newTagId, stored, partId);
        } else {
          SameTags(was, tags, frozen, stored, partId);
        }
      }
      if ok {
        frozen := frozen[newTagId := |stored|];
      }
      AbsParts();
      IsLoaded();
      if valid {
        IsValid();
      }
    }

    /** Tables at a time, on HEAD or under a tag: the rows of the table of every head or tag row
        over the time. In states of the exact store these are the rows of the last table
        stored over the time, each as often as it was stored, and nothing if there is none.
        Under a tag the last table is that among the tables stored before the tag was put
        on, however many have been stored since; under a tag that was never put on nothing
        is found. */
    method FindTag(time: Key, tagId: int) returns (rows: seq<ShownRow>)
      requires Loaded()
      ensures AllNamed(HitsAt(head, tags, tagId, time), log, stored)
      ensures rows == TablesShown(HitsAt(head, tags, tagId, time), log, stored)
      ensures Valid() && tagId != 0 && tagId !in frozen ==> rows == []
      ensures Valid() && (tagId == 0 || tagId in frozen) ==>
                LastShown(rows, stored, if tagId == 0 then |stored| else frozen[tagId], partId, time)
    {
      hide *;
      LoadedParts();
      var hit := HitsAt(head, tags, tagId, time);
      HitsNamed(head, tags, tagId, time, log, stored);
      rows := [];
      NothingShown(hit[..0], log, stored);
      var i := 0;
      while i < |hit|
        invariant 0 <= i <= |hit|
        invariant AllNamed(hit[..i], log, stored) && rows == TablesShown(hit[..i], log, stored)
      {
        HitNamed(hit, log, stored, i);
        DataOfTable(stored, log, data, partId, hit[i]);
        var h := hit[i];
        var o := log[h.objId-1];
        var cells := DataOf(data, o.datId);
        rows := rows + seq(|cells|, c requires 0 <= c < |cells| => ShownRow(h.since, h.till, cells[c], o.layer));
        ShownMore(hit, log, stored, i);
        i := i + 1;
      }
      assert hit[..i] == hit;
      if Valid() {
        ValidParts();
        ValidShown(head, tags, frozen, tagId, stored, partId, log, time);
      }
    }

    lemma AbsParts()
      ensures Abs() == Tables(log, Rows(head), {})
    {}

    lemma HeadNamed()
      requires Keyed(Abs())
      ensures forall h :: h in head ==> 1 <= h.objId <= |log|
    {
      assert forall h :: h in head ==> h in Abs().head;
    }

    lemma LoadedParts()
      requires Loaded()
      ensures NonEmptyTables(stored) && LogOf(log, stored, partId) && |log| == |stored| && data == DataTable(stored)
      ensures forall d :: d in data ==> |d.cells| == columns
      ensures forall h :: h in head ==> 1 <= h.objId <= |log|
      ensures forall g :: g in tags ==> 1 <= g.objId <= |log|
      ensures Keyed(Abs()) && Abs() == Tables(log, Rows(head), {})
    {
      hide DataTable;
    }

    lemma IsLoaded()
      requires NonEmptyTables(stored) && LogOf(log, stored, partId) && data == DataTable(stored)
      requires forall d :: d in data ==> |d.cells| == columns
      requires forall h :: h in head ==> 1 <= h.objId <= |log|
      requires forall g :: g in tags ==> 1 <= g.objId <= |log|
      ensures Loaded()
    {
      hide DataTable;
    }

    lemma ValidParts()
      requires Valid()
      ensures LegalTables(stored) && Frozen(tags, frozen, stored, partId) && NoDup(head) && NoDup(tags)
      ensures Abs() == Run(Events(stored, partId)) && Inv(Abs())
      ensures log == Run(Events(stored, partId)).log && Rows(head) == Run(Events(stored, partId)).head
    {
      hide Events, DataTable, Run, LegalTables, FrozenAt, Inv;
    }

    /** Loaded, and everything else: valid. */
    lemma IsValid()
      requires Loaded()
      ensures LegalTables(stored) && NoDup(head) && Abs() == Run(Events(stored, partId)) && Frozen(tags, frozen, stored, partId)
              <==> Valid()
    {
      hide Events, DataTable, Run, LegalTables, Frozen, Loaded;
    }
  }

  // ---- What every history keeps

  /** One log row for each table, in order. */
  ghost predicate LogOf(log: seq<LogRow>, ts: seq<StoredTable>, partId: int) {
    && |log| == |ts|
    && forall i :: 0 <= i < |ts| ==>
         log[i].objId == i + 1 && log[i].since == ts[i].since && log[i].till == ts[i].till && log[i].dbId == partId && log[i].datId == i
  }

  lemma StoredLoaded(t: Tables, log: seq<LogRow>, ts: seq<StoredTable>, table: StoredTable, partId: int)
    requires Keyed(t) && LogOf(t.log, ts, partId) && NonEmptyTables(ts) && table.rows != []
    requires log == Stored(t, table.since, table.till, partId, |ts|).log
    ensures LogOf(log, ts + [table], partId) && NonEmptyTables(ts + [table]) && |log| == |ts| + 1
  {
    hide Carve, NextLayer;
  }

  lemma TagsNamed(was: seq<TagRow>, tags: seq<TagRow>, head: seq<HeadRow>, tagId: int, ok: bool, n: nat)
    requires forall g :: g in was ==> 1 <= g.objId <= n
    requires forall h :: h in head ==> 1 <= h.objId <= n
    requires Rows(tags) == if ok then Rows(was) - TagRows(Rows(was), tagId) + HeadAsTag(Rows(head), tagId) else Rows(was)
    ensures forall g :: g in tags ==> 1 <= g.objId <= n
  {
    forall g | g in tags
      ensures 1 <= g.objId <= n
    {
      assert g in Rows(tags);
    }
  }

  lemma VersionParts(table: Table)
    requires ForVersions(table)
    ensures Version(table).rows == RowsUpTo(table, |table.rows|) && Version(table).rows != []
    ensures Version(table).since == table.since[0] && Version(table).till == table.till[0]
    ensures LegalTable(Version(table)) <==> table.since[0] < table.till[0]
    ensures forall l :: 0 <= l < |Version(table).rows| ==> |Version(table).rows[l]| == |table.types|
    ensures WellFormed(table) && table.since != [] && table.till != []
  {
    hide RowsUpTo;
    VersionWidth(table);
  }

  // ---- The rows shown

  /** A row of the join names an object of the log and with it a table. */
  predicate Named(h: HeadRow, log: seq<LogRow>, ts: seq<StoredTable>) {
    1 <= h.objId <= |log| && h.objId <= |ts|
  }

  predicate AllNamed(hit: seq<HeadRow>, log: seq<LogRow>, ts: seq<StoredTable>) {
    forall i :: 0 <= i < |hit| ==> Named(hit[i], log, ts)
  }

  /** The rows of a head or tag row's table, under its times and the layer of its object. */
  function TableShown(h: HeadRow, log: seq<LogRow>, ts: seq<StoredTable>): (r: seq<ShownRow>)
    requires Named(h, log, ts)
    ensures |r| == |ts[h.objId-1].rows|
  {
    var cells := ts[h.objId-1].rows;
    seq(|cells|, c requires 0 <= c < |cells| => ShownRow(h.since, h.till, cells[c], log[h.objId-1].layer))
  }

  function TablesShown(hit: seq<HeadRow>, log: seq<LogRow>, ts: seq<StoredTable>): seq<ShownRow>
    requires AllNamed(hit, log, ts)
  {
    if hit == [] then []
    else TablesShown(hit[..|hit|-1], log, ts) + TableShown(hit[|hit|-1], log, ts)
  }

  function AsHeads(found: seq<TagRow>): (hit: seq<HeadRow>)
    ensures |hit| == |found| && forall i :: 0 <= i < |found| ==> hit[i] == HeadRow(found[i].objId, found[i].since, found[i].till)
  {
    seq(|found|, i requires 0 <= i < |found| => HeadRow(found[i].objId, found[i].since, found[i].till))
  }

  /** The head rows, or the rows of the tag, over the time. */
  function HitsAt(head: seq<HeadRow>, tags: seq<TagRow>, tagId: int, time: Key): seq<HeadRow> {
    if tagId != 0 then AsHeads(Select(tags, (g: TagRow) => g.tagId == tagId && Within(g.since, time, g.till)))
    else Select(head, (h: HeadRow) => At(h, time))
  }

  lemma HitsNamed(head: seq<HeadRow>, tags: seq<TagRow>, tagId: int, time: Key, log: seq<LogRow>, ts: seq<StoredTable>)
    requires |log| == |ts|
    requires forall h :: h in head ==> 1 <= h.objId <= |log|
    requires forall g :: g in tags ==> 1 <= g.objId <= |log|
    ensures AllNamed(HitsAt(head, tags, tagId, time), log, ts)
  {
    var hit := HitsAt(head, tags, tagId, time);
    if tagId != 0 {
      var found := Select(tags, (g: TagRow) => g.tagId == tagId && Within(g.since, time, g.till));
      assert forall i :: 0 <= i < |found| ==> found[i] in found;
    } else {
      assert forall i :: 0 <= i < |hit| ==> hit[i] in hit;
    }
  }

  lemma HitNamed(hit: seq<HeadRow>, log: seq<LogRow>, ts: seq<StoredTable>, i: nat)
    requires AllNamed(hit, log, ts) && i < |hit|
    ensures Named(hit[i], log, ts) && 1 <= hit[i].objId <= |log| && hit[i].objId <= |ts|
  {}

  /** Joining a head row with the data by dat_id gives the rows of its table. */
  lemma DataOfTable(ts: seq<StoredTable>, log: seq<LogRow>, data: seq<DataRow>, partId: int, h: HeadRow)
    requires LogOf(log, ts, partId) && data == DataTable(ts) && Named(h, log, ts)
    ensures DataOf(data, log[h.objId-1].datId) == ts[h.objId-1].rows
  {
    hide DataTable, DataOf;
    TablesKeepApart(ts, h.objId - 1);
  }

  lemma ShownMore(hit: seq<HeadRow>, log: seq<LogRow>, ts: seq<StoredTable>, i: nat)
    requires AllNamed(hit, log, ts) && i < |hit|
    ensures AllNamed(hit[..i], log, ts) && AllNamed(hit[..i+1], log, ts)
    ensures var h, cells := hit[i], ts[hit[i].objId-1].rows;
            TablesShown(hit[..i+1], log, ts) == TablesShown(hit[..i], log, ts)
              + seq(|cells|, c requires 0 <= c < |cells| => ShownRow(h.since, h.till, cells[c], log[h.objId-1].layer))
  {
    assert hit[..i+1][..i] == hit[..i];
    assert TableShown(hit[i], log, ts) == seq(|ts[hit[i].objId-1].rows|, c requires 0 <= c < |ts[hit[i].objId-1].rows| =>
        ShownRow(hit[i].since, hit[i].till, ts[hit[i].objId-1].rows[c], log[hit[i].objId-1].layer));
  }

  /** In a state of the exact store at most one row is hit: head has one at each point, and so has
      a tag, which is a copy of a head. */
  lemma HitOnce(t: Tables, hit: seq<HeadRow>, time: Key)
    requires Inv(t) && NoDup(hit) && HitsOf(hit, t.head, time)
    ensures |hit| <= 1
  {
    hide Refines, LogInv, InLogged;
    if |hit| > 1 {
      assert hit[0] in hit && hit[1] in hit;
      AtMostOneAt(t.head, hit[0], hit[1], time);
    }
  }

  lemma HitsNoDup(head: seq<HeadRow>, tags: seq<TagRow>, tagId: int, time: Key)
    requires NoDup(head) && NoDup(tags)
    ensures NoDup(HitsAt(head, tags, tagId, time))
  {
    if tagId != 0 {
      var found := Select(tags, (g: TagRow) => g.tagId == tagId && Within(g.since, time, g.till));
      forall i, j | 0 <= i < j < |found|
        ensures AsHeads(found)[i] != AsHeads(found)[j]
      {
        assert found[i] in found && found[j] in found;
      }
    }
  }

  lemma ValidShown(head: seq<HeadRow>, tags: seq<TagRow>, frozen: map<int, nat>, tagId: int, ts: seq<StoredTable>, partId: int,
                   log: seq<LogRow>, time: Key)
    requires LegalTables(ts) && NoDup(head) && NoDup(tags) && Frozen(tags, frozen, ts, partId)
    requires log == Run(Events(ts, partId)).log && Rows(head) == Run(Events(ts, partId)).head && LogOf(log, ts, partId)
    requires AllNamed(HitsAt(head, tags, tagId, time), log, ts)
    ensures var rows := TablesShown(HitsAt(head, tags, tagId, time), log, ts);
            && (tagId != 0 && tagId !in frozen ==> rows == [])
            && (tagId == 0 || tagId in frozen ==>
                  LastShown(rows, ts, if tagId == 0 then |ts| else frozen[tagId], partId, time))
  {
    hide *;
    var hit := HitsAt(head, tags, tagId, time);
    HitsNoDup(head, tags, tagId, time);
    HitsWhich(head, tags, frozen, tagId, ts, partId, time);
    if tagId == 0 || tagId in frozen {
      var n := if tagId == 0 then |ts| else frozen[tagId];
      KeyedRun(ts[..n], partId);
      HitOnce(Run(Events(ts[..n], partId)), hit, time);
      OneShown(ts, n, partId, log, hit, time);
    } else {
      NothingShown(hit, log, ts);
    }
  }

  lemma NothingShown(hit: seq<HeadRow>, log: seq<LogRow>, ts: seq<StoredTable>)
    requires hit == []
    ensures AllNamed(hit, log, ts) && TablesShown(hit, log, ts) == []
  {}

  lemma HitsWhich(head: seq<HeadRow>, tags: seq<TagRow>, frozen: map<int, nat>, tagId: int, ts: seq<StoredTable>, partId: int, time: Key)
    requires LegalTables(ts) && Frozen(tags, frozen, ts, partId) && Rows(head) == Run(Events(ts, partId)).head
    ensures var hit := HitsAt(head, tags, tagId, time);
            && (tagId != 0 && tagId !in frozen ==> hit == [])
            && (tagId == 0 || tagId in frozen ==>
                  var n := if tagId == 0 then |ts| else frozen[tagId];
                  && n <= |ts| && LegalTables(ts[..n]) && HitsOf(hit, Run(Events(ts[..n], partId)).head, time))
  {
    hide Run, Events, LegalTables, Frozen, NoDup, FrozenAt;
    if tagId != 0 {
      TagHits(tags, frozen, tagId, ts, partId, time, Select(tags, (g: TagRow) => g.tagId == tagId && Within(g.since, time, g.till)));
    } else {
      HeadHits(ts, partId, head, Select(head, (h: HeadRow) => At(h, time)), time);
    }
  }

  /** The rows of the one hit are those of the last table stored over the time. */
  lemma OneShown(ts: seq<StoredTable>, n: nat, partId: int, log: seq<LogRow>, hit: seq<HeadRow>, time: Key)
    requires LegalTables(ts) && n <= |ts| && log == Run(Events(ts, partId)).log && LogOf(log, ts, partId)
    requires LegalTables(ts[..n]) && HitsOf(hit, Run(Events(ts[..n], partId)).head, time) && |hit| <= 1
    requires AllNamed(hit, log, ts)
    ensures LastShown(TablesShown(hit, log, ts), ts, n, partId, time)
  {
    hide LegalTables, LastTableOver, HeadFind, Run, Events, DataOf, DataTable, HitsOf, LogOf;
    var f := LastTableShown(ts, n, partId, log, hit, time);
    if LastTableOver(ts[..n], time) != -1 {
      HitNamed(hit, log, ts, 0);
      DataOfTable(ts, log, DataTable(ts), partId, hit[0]);
      assert hit[..0] == [] && TablesShown(hit, log, ts) == TableShown(hit[0], log, ts);
      RowsShow(TablesShown(hit, log, ts), ts, n, partId, f, time);
    } else {
      NoneShown(ts, n, partId, time);
    }
  }

  // ---- Tags of tables

  lemma HeadOfTables(ts: seq<StoredTable>, partId: int, head: seq<HeadRow>)
    requires LegalTables(ts) && Rows(head) == Run(Events(ts, partId)).head
    ensures head == [] <==> ts == []
  {
    hide Run;
    HeadNotEmpty(Events(ts, partId));
    CountTables(ts, partId);
    EmptyRows(head);
  }

  lemma {:induction false} CountTables(ts: seq<StoredTable>, partId: int)
    requires LegalTables(ts)
    ensures StoreCount(Events(ts, partId)) == |ts|
  {
    if ts != [] {
      CountTables(ts[..|ts|-1], partId);
      assert Events(ts, partId)[..|ts|-1] == Events(ts[..|ts|-1], partId);
    }
  }

  lemma FrozenMore(tags: seq<TagRow>, frozen: map<int, nat>, ts: seq<StoredTable>, t: StoredTable, partId: int)
    requires Frozen(tags, frozen, ts, partId)
    ensures Frozen(tags, frozen, ts + [t], partId)
  {
    hide FrozenAt, NoDup;
    forall id | id in frozen
      ensures (ts + [t])[..frozen[id]] == ts[..frozen[id]]
    {}
  }

  lemma SameTags(was: seq<TagRow>, tags: seq<TagRow>, frozen: map<int, nat>, ts: seq<StoredTable>, partId: int)
    requires Frozen(was, frozen, ts, partId) && NoDup(tags) && Rows(tags) == Rows(was)
    ensures Frozen(tags, frozen, ts, partId)
  {
    hide FrozenAt, NoDup;
    assert forall g :: g in tags ==> g in Rows(was);
  }

  /** Putting a tag on freezes the head under it and leaves the other tags as they were. */
  lemma FrozenTag(was: seq<TagRow>, tags: seq<TagRow>, frozen: map<int, nat>, tagId: int, ts: seq<StoredTable>, partId: int)
    requires LegalTables(ts) && ts != [] && Frozen(was, frozen, ts, partId) && NoDup(tags)
    requires Rows(tags) == Rows(was) - TagRows(Rows(was), tagId) + HeadAsTag(Run(Events(ts, partId)).head, tagId)
    ensures Frozen(tags, frozen[tagId := |ts|], ts, partId)
  {
    hide NoDup, Run, LegalTables;
    var head := Run(Events(ts, partId)).head;
    assert ts[..|ts|] == ts;
    assert TagRows(Rows(tags), tagId) == HeadAsTag(head, tagId);
    forall id | id in frozen && id != tagId
      ensures TagRows(Rows(tags), id) == TagRows(Rows(was), id)
    {}
    forall g | g in tags
      ensures g.tagId == tagId || g.tagId in frozen
    {
      assert g in Rows(tags);
    }
  }

  /** The hits under a tag are those of the head it froze. */
  lemma TagHits(tags: seq<TagRow>, frozen: map<int, nat>, tagId: int, ts: seq<StoredTable>, partId: int, time: Key, found: seq<TagRow>)
    requires Frozen(tags, frozen, ts, partId)
    requires forall g :: g in found <==> g in tags && g.tagId == tagId && Within(g.since, time, g.till)
    ensures tagId !in frozen ==> AsHeads(found) == []
    ensures tagId in frozen ==>
              && 1 <= frozen[tagId] <= |ts| && LegalTables(ts[..frozen[tagId]])
              && HitsOf(AsHeads(found), Run(Events(ts[..frozen[tagId]], partId)).head, time)
  {
    hide NoDup, Run, LegalTables, Events;
    assert |found| > 0 ==> found[0] in found;
    if tagId in frozen {
      var head := Run(Events(ts[..frozen[tagId]], partId)).head;
      assert FrozenAt(Rows(tags), tagId, ts[..frozen[tagId]], partId);
      forall h | h in AsHeads(found)
        ensures h in head && At(h, time)
      {
        var i :| 0 <= i < |found| && AsHeads(found)[i] == h;
        assert found[i] in found && found[i] in TagRows(Rows(tags), tagId);
      }
      forall h | h in head && At(h, time)
        ensures h in AsHeads(found)
      {
        var g := TagRow(tagId, h.objId, h.since, h.till);
        assert g in HeadAsTag(head, tagId) && g in TagRows(Rows(tags), tagId);
        var i :| 0 <= i < |found| && found[i] == g;
        assert AsHeads(found)[i] == h;
      }
    }
  }

  ghost predicate HitsOf(hit: seq<HeadRow>, head: set<HeadRow>, time: Key) {
    forall h :: h in hit <==> h in head && At(h, time)
  }

  lemma HeadHits(ts: seq<StoredTable>, partId: int, head: seq<HeadRow>, hit: seq<HeadRow>, time: Key)
    requires LegalTables(ts) && Rows(head) == Run(Events(ts, partId)).head
    requires forall h :: h in hit <==> h in head && At(h, time)
    ensures LegalTables(ts[..|ts|]) && HitsOf(hit, Run(Events(ts[..|ts|], partId)).head, time)
  {
    hide Run, Events;
    assert ts[..|ts|] == ts;
    assert forall h :: h in head <==> h in Rows(head);
  }

  /** What is shown at a time when the first n tables count: the rows of the last of them
      stored over it, under the times and the layer of its head row. */
  ghost predicate LastShown(rows: seq<ShownRow>, ts: seq<StoredTable>, n: nat, partId: int, time: Key) {
    && n <= |ts| && LegalTables(ts[..n])
    && var k := LastTableOver(ts[..n], time);
       if k == -1 then rows == []
       else exists f :: HeadFind(Run(Events(ts[..n], partId)), time) == {f} && Shows(rows, f, ts[k], time)
  }

  /** The rows are those of the table, under the times and the layer of the head row. */
  ghost predicate Shows(rows: seq<ShownRow>, f: FoundRow, table: StoredTable, time: Key) {
    && |rows| == |table.rows|
    && (forall i :: 0 <= i < |rows| ==> rows[i] == ShownRow(f.since, f.till, table.rows[i], f.layer))
    && table.since <= f.since <= time < f.till <= table.till
  }

  lemma RowsShow(rows: seq<ShownRow>, ts: seq<StoredTable>, n: nat, partId: int, f: FoundRow, time: Key)
    requires n <= |ts| && LegalTables(ts[..n]) && LastTableOver(ts[..n], time) != -1
    requires HeadFind(Run(Events(ts[..n], partId)), time) == {f}
    requires var table := ts[LastTableOver(ts[..n], time)];
             && |rows| == |table.rows|
             && (forall i :: 0 <= i < |rows| ==> rows[i] == ShownRow(f.since, f.till, table.rows[i], f.layer))
             && table.since <= f.since <= time < f.till <= table.till
    ensures LastShown(rows, ts, n, partId, time)
  {
    hide LegalTables, LastTableOver, HeadFind, Run, Events;
    var k := LastTableOver(ts[..n], time);
    assert Shows(rows, f, ts[k], time);
  }

  lemma NoneShown(ts: seq<StoredTable>, n: nat, partId: int, time: Key)
    requires n <= |ts| && LegalTables(ts[..n]) && LastTableOver(ts[..n], time) == -1
    ensures LastShown([], ts, n, partId, time)
  {
    hide LegalTables, LastTableOver;
  }

  /** Storing more tables only extends the log. */
  lemma MoreTables(ts: seq<StoredTable>, n: nat, partId: int)
    requires LegalTables(ts) && n <= |ts|
    ensures LegalTables(ts[..n]) && Run(Events(ts[..n], partId)).log <= Run(Events(ts, partId)).log
  {
    hide Run;
    var a, es := Events(ts[..n], partId), Events(ts, partId);
    assert es == a + es[n..];
    LogGrows(a, es[n..]);
  }

  /** A head row over a time, of the state after the first n tables, leads to the data of the
      last of them stored over it, even if the log has grown since. */
  lemma LastTableShown(ts: seq<StoredTable>, n: nat, partId: int, log: seq<LogRow>, hit: seq<HeadRow>, time: Key)
    returns (f: FoundRow)
    requires LegalTables(ts) && n <= |ts| && log == Run(Events(ts, partId)).log
    requires LegalTables(ts[..n]) && HitsOf(hit, Run(Events(ts[..n], partId)).head, time)
    ensures var k := LastTableOver(ts[..n], time);
            if k == -1 then hit == []
            else
              && hit != [] && 1 <= hit[0].objId <= |log|
              && HeadFind(Run(Events(ts[..n], partId)), time) == {f}
              && f.since == hit[0].since && f.till == hit[0].till && f.layer == log[hit[0].objId-1].layer
              && DataOf(DataTable(ts), log[hit[0].objId-1].datId) == ts[k].rows
              && ts[k].since <= f.since <= time < f.till <= ts[k].till
  {
    hide LegalTables, LastTableOver, LastStoreOver, DataTable, DataOf, StoreCount, HeadFind, Refines, LogInv, InLogged, Disjoint;
    var t := Run(Events(ts[..n], partId));
    MoreTables(ts, n, partId);
    f := LastStoreWins(Events(ts[..n], partId), time);
    LastTableIsLastStore(ts[..n], partId, time);
    ShowHit(t, hit, time, f);
    TablesKeepApart(ts, LastTableOver(ts[..n], time));
    assert hit != [] && HeadFind(t, time) == {f} ==> log[hit[0].objId-1] == t.log[hit[0].objId-1];
  }

  lemma RowsUnderNext(datId: int, rows: seq<Cells>, fields: Cells)
    ensures RowsUnder(datId, rows + [fields]) == RowsUnder(datId, rows) + [DataRow(datId, fields)]
  {}

  lemma DataTableNext(ts: seq<StoredTable>, t: StoredTable)
    ensures DataTable(ts + [t]) == DataTable(ts) + RowsUnder(|ts|, t.rows)
  {
    assert (ts + [t])[..|ts|] == ts;
  }

  /** The rows the query hits are those the abstract find shows. */
  lemma ShowHit(t: Tables, hit: seq<HeadRow>, p: Key, f: FoundRow)
    requires Inv(t)
    requires forall h :: h in hit <==> h in t.head && At(h, p)
    ensures hit == [] <==> HeadFind(t, p) == {}
    ensures hit != [] && HeadFind(t, p) == {f} ==>
              && 1 <= hit[0].objId <= |t.log|
              && f == Joined(t.log, hit[0].objId, hit[0].since, hit[0].till)
  {
    hide Refines, LogInv, InLogged, Disjoint;
    if hit != [] {
      assert hit[0] in hit;
      assert Joined(t.log, hit[0].objId, hit[0].since, hit[0].till) in HeadFind(t, p);
    } else {
      assert HeadFind(t, p) == {};
    }
  }

  lemma LegalNext(ts: seq<StoredTable>, t: StoredTable)
    requires LegalTables(ts)
    ensures LegalTables(ts + [t]) <==> LegalTable(t)
  {
    hide LegalTable;
    assert (ts + [t])[|ts|] == t;
  }

  lemma KeyedRun(ts: seq<StoredTable>, partId: int)
    requires LegalTables(ts)
    ensures Inv(Run(Events(ts, partId))) && Keyed(Run(Events(ts, partId)))
  {
    hide Run;
  }

  lemma WideMore(data: seq<DataRow>, columns: nat, datId: int, rows: seq<Cells>)
    requires forall d :: d in data ==> |d.cells| == columns
    requires forall l :: 0 <= l < |rows| ==> |rows[l]| == columns
    ensures forall d :: d in data + RowsUnder(datId, rows) ==> |d.cells| == columns
  {}

  lemma VersionWidth(table: Table)
    requires ForVersions(table)
    ensures forall l :: 0 <= l < |Version(table).rows| ==> |Version(table).rows[l]| == |table.types|
  {
    forall l | 0 <= l < |Version(table).rows|
      ensures |Version(table).rows[l]| == |table.types|
    {
      StoredWidth(table, l);
    }
  }

  /** One more table is one more event. */
  lemma NextRun(ts: seq<StoredTable>, table: StoredTable, partId: int)
    requires LegalTables(ts) && LegalTable(table)
    ensures LegalTables(ts + [table])
    ensures Inv(Run(Events(ts, partId)))
    ensures Run(Events(ts + [table], partId)) == Stored(Run(Events(ts, partId)), table.since, table.till, partId, |ts|)
  {
    var es := Events(ts + [table], partId);
    assert es[..|ts|] == Events(ts, partId);
  }

  /** A table store leaves the state of the exact run if and only if its interval is in order, not
      empty, and safe. */
  lemma ValidNext(t: Tables, log: seq<LogRow>, head: seq<HeadRow>, ts: seq<StoredTable>, table: StoredTable, partId: int)
    requires LegalTables(ts) && t == Run(Events(ts, partId)) && table.rows != [] && Keyed(t)
    requires log == Stored(t, table.since, table.till, partId, |ts|).log && t.tags == {}
    requires table.since <= table.till ==> StepAgrees(t, head, log, table.since, table.till, partId, |ts|)
    ensures LegalTables(ts + [table]) && NoDup(head) && Tables(log, Rows(head), {}) == Run(Events(ts + [table], partId))
            <==> table.since < table.till && ByObjectSafe(t.head, table.since, table.till)
  {
    hide Run, Events, LegalTables, ByObjectSafe, NoDup, HeadFind, Stored, Keyed;
    LegalNext(ts, table);
    if table.since < table.till {
      NextRun(ts, table, partId);
    }
  }

  lemma {:induction false} TrimAllIds(head: seq<HeadRow>, rows: seq<HeadRow>, since: Key, till: Key, n: nat)
    requires forall h :: h in head || h in rows ==> 1 <= h.objId < n
    ensures forall h :: h in TrimAll(head, rows, since, till) ==> 1 <= h.objId < n
  {
    if rows != [] {
      assert forall h :: h in rows[..|rows|-1] ==> h in rows;
      TrimAllIds(head, rows[..|rows|-1], since, till, n);
    }
  }

  lemma FreshRow(head: seq<HeadRow>, n: HeadRow)
    requires forall h :: h in head ==> h != n
    ensures NoDup(head + [n]) <==> NoDup(head)
    ensures Rows(head + [n]) == Rows(head) + {n}
  {
    assert forall i :: 0 <= i < |head| ==> (head + [n])[i] == head[i] && head[i] in head;
    if NoDup(head + [n]) {
      forall i, j | 0 <= i < j < |head|
        ensures head[i] != head[j]
      {
        assert (head + [n])[i] != (head + [n])[j];
      }
    }
  }

  lemma RowsNamed(t: Tables, head: seq<HeadRow>, rows: seq<HeadRow>, since: Key, till: Key)
    requires Keyed(t) && t.head == Rows(head) && Delivered(rows, head, since, till)
    ensures forall r :: r in rows ==> 1 <= r.objId <= |t.log|
  {
    assert forall r :: r in rows ==> r in Rows(head);
  }

  /** What a table store leaves, compared with the exact store: the same head, and the same rows
      found at every point, if and only if the state is safe for the interval. */
  ghost predicate StepAgrees(t: Tables, after: seq<HeadRow>, log: seq<LogRow>, since: Key, till: Key, dbId: int, datId: int) {
    && Keyed(t)
    && var exact := Stored(t, since, till, dbId, datId); var u := Tables(log, Rows(after), t.tags);
       && Keyed(u) && Keyed(exact)
       && (NoDup(after) && u == exact <==> ByObjectSafe(t.head, since, till))
       && ((forall p: Key :: HeadFind(u, p) == HeadFind(exact, p)) <==> ByObjectSafe(t.head, since, till))
  }

  /** What the loop and the final insert amount to. */
  lemma StepDone(t: Tables, was: seq<HeadRow>, rows: seq<HeadRow>, head: seq<HeadRow>, log: seq<LogRow>, since: Key, till: Key,
                  dbId: int, datId: int)
    requires Keyed(t) && Rows(was) == t.head && Delivered(rows, was, since, till)
    requires head == TrimAll(was, rows, since, till) + [HeadRow(|t.log| + 1, since, till)]
    requires log == t.log + [LogRow(|t.log| + 1, since, till, NextLayer(t, since, till), dbId, datId)]
    ensures Keyed(Tables(log, Rows(head), t.tags))
    ensures log == Stored(t, since, till, dbId, datId).log && TableStep(was, head, |log|, since, till)
    ensures Inv(t) && NoDup(was) && since <= till ==> StepAgrees(t, head, log, since, till, dbId, datId)
    ensures Inv(t) && NoDup(was) && till < since ==> (OneAtEach(head) <==> forall h :: h in was ==> !Spans(h, till, since))
  {
    hide *;
    StepKeyed(t, was, rows, head, log, since, till, dbId, datId);
    IsTableStep(was, rows, head, |log|, since, till);
    if Inv(t) && NoDup(was) {
      DeliveredSnapshot(rows, was, since, till);
      if since <= till {
        StorePlan(t, was, rows, since, till, dbId, datId);
        FindsAgree(t, was, rows, head, log, since, till, dbId, datId);
        Agrees(t, head, log, since, till, dbId, datId);
      } else {
        InvertedPlan(t, was, rows, since, till);
      }
    }
  }

  lemma IsTableStep(was: seq<HeadRow>, rows: seq<HeadRow>, head: seq<HeadRow>, id: nat, since: Key, till: Key)
    requires Delivered(rows, was, since, till) && head == TrimAll(was, rows, since, till) + [HeadRow(id, since, till)]
    ensures TableStep(was, head, id, since, till)
  {
    hide Delivered, TrimAll;
  }

  lemma StepKeyed(t: Tables, was: seq<HeadRow>, rows: seq<HeadRow>, head: seq<HeadRow>, log: seq<LogRow>, since: Key, till: Key,
                  dbId: int, datId: int)
    requires Keyed(t) && Rows(was) == t.head && Delivered(rows, was, since, till)
    requires head == TrimAll(was, rows, since, till) + [HeadRow(|t.log| + 1, since, till)]
    requires log == t.log + [LogRow(|t.log| + 1, since, till, NextLayer(t, since, till), dbId, datId)]
    ensures Keyed(Tables(log, Rows(head), t.tags)) && Keyed(Stored(t, since, till, dbId, datId))
    ensures log == Stored(t, since, till, dbId, datId).log && Stored(t, since, till, dbId, datId).tags == t.tags && |log| == |t.log| + 1
  {
    hide TrimAll, NextLayer, Carve;
    RowsNamed(t, was, rows, since, till);
    assert forall h :: h in was ==> h in Rows(was);
    TrimAllIds(was, rows, since, till, |t.log| + 1);
    CarveNamed(t.head, since, till, |t.log|);
  }

  lemma CarveNamed(head: set<HeadRow>, since: Key, till: Key, n: nat)
    requires forall h :: h in head ==> 1 <= h.objId <= n
    ensures forall h :: h in Carve(head, since, till) ==> 1 <= h.objId <= n
  {}

  /** What the loop and the final insert amount to, by the order-free law of the loop. */
  lemma StorePlan(t: Tables, head: seq<HeadRow>, rows: seq<HeadRow>, since: Key, till: Key, dbId: int, datId: int)
    requires Inv(t) && Keyed(t) && NoDup(head) && Rows(head) == t.head && since <= till
    requires Snapshot(rows, t.head, since, till) && Delivered(rows, head, since, till)
    ensures var out := TrimAll(head, rows, since, till) + [HeadRow(|t.log| + 1, since, till)];
            (NoDup(out) && Rows(out) == Stored(t, since, till, dbId, datId).head) <==> ByObjectSafe(t.head, since, till)
  {
    hide Refines, LogInv, InLogged, ByObjectSafe, TrimAll, Carve, NextLayer;
    ByObjectExactlyWhenSafe(head, rows, since, till);
    var n := HeadRow(|t.log| + 1, since, till);
    var trimmed := TrimAll(head, rows, since, till);
    RowsNamed(t, head, rows, since, till);
    assert forall h :: h in head ==> h in Rows(head);
    TrimAllIds(head, rows, since, till, |t.log| + 1);
    FreshRow(trimmed, n);
    assert n !in Rows(trimmed);
    CarveAvoids(t.head, n, since, till);
  }

  /** In an unsafe state a row is missing from what is found at its start. */
  lemma FindsAgree(t: Tables, was: seq<HeadRow>, rows: seq<HeadRow>, head: seq<HeadRow>, log: seq<LogRow>, since: Key, till: Key,
                   dbId: int, datId: int)
    requires Inv(t) && Keyed(t) && NoDup(was) && Rows(was) == t.head && since <= till && Snapshot(rows, t.head, since, till)
    requires head == TrimAll(was, rows, since, till) + [HeadRow(|t.log| + 1, since, till)]
    requires Keyed(Tables(log, Rows(head), t.tags)) && Keyed(Stored(t, since, till, dbId, datId))
    requires log == Stored(t, since, till, dbId, datId).log
    ensures !ByObjectSafe(t.head, since, till) ==>
              exists p: Key :: HeadFind(Tables(log, Rows(head), t.tags), p) != HeadFind(Stored(t, since, till, dbId, datId), p)
  {
    hide Refines, LogInv, InLogged, ByObjectSafe, TrimAll, Carve, NextLayer;
    if !ByObjectSafe(t.head, since, till) {
      var q := UnsafeMisses(was, rows, since, till);
      CarvedAt(t.head, since, till, q, q.since);
      CarveNamed(t.head, since, till, |t.log|);
      assert q !in head;
      MissingIsSeen(Tables(log, Rows(head), t.tags), Stored(t, since, till, dbId, datId), q);
    }
  }

  lemma MissingIsSeen(u: Tables, exact: Tables, q: HeadRow)
    requires Keyed(u) && Keyed(exact) && u.log == exact.log
    requires q in exact.head && q !in u.head && NonEmpty(q)
    ensures HeadFind(u, q.since) != HeadFind(exact, q.since)
  {
    hide HeadFind;
    FoundIsRow(exact, q.since, q);
    FoundIsRow(u, q.since, q);
  }

  lemma FoundIsRow(t: Tables, p: Key, q: HeadRow)
    requires Keyed(t) && 1 <= q.objId <= |t.log|
    ensures Joined(t.log, q.objId, q.since, q.till) in HeadFind(t, p) <==> q in t.head && At(q, p)
  {}

  lemma Agrees(t: Tables, head: seq<HeadRow>, log: seq<LogRow>, since: Key, till: Key, dbId: int, datId: int)
    requires Keyed(t) && Keyed(Tables(log, Rows(head), t.tags)) && Keyed(Stored(t, since, till, dbId, datId))
    requires log == Stored(t, since, till, dbId, datId).log && Stored(t, since, till, dbId, datId).tags == t.tags
    requires (NoDup(head) && Rows(head) == Stored(t, since, till, dbId, datId).head) <==> ByObjectSafe(t.head, since, till)
    requires !ByObjectSafe(t.head, since, till) ==>
               exists p: Key :: HeadFind(Tables(log, Rows(head), t.tags), p) != HeadFind(Stored(t, since, till, dbId, datId), p)
    ensures StepAgrees(t, head, log, since, till, dbId, datId)
  {
    hide NoDup, Stored, HeadFind, ByObjectSafe, Keyed;
  }

  /** The row inserted for an interval in reverse order is valid nowhere. */
  lemma InvertedPlan(t: Tables, head: seq<HeadRow>, rows: seq<HeadRow>, since: Key, till: Key)
    requires Inv(t) && NoDup(head) && Rows(head) == t.head && till < since
    requires Snapshot(rows, t.head, since, till)
    ensures OneAtEach(TrimAll(head, rows, since, till) + [HeadRow(|t.log| + 1, since, till)])
            <==> forall h :: h in head ==> !Spans(h, till, since)
  {
    hide Refines, LogInv, InLogged, TrimAll, Spans;
    InvertedInterval(head, rows, since, till);
    EmptyRow(TrimAll(head, rows, since, till), HeadRow(|t.log| + 1, since, till));
  }

  lemma EmptyRow(head: seq<HeadRow>, n: HeadRow)
    requires n.till <= n.since
    ensures OneAtEach(head + [n]) <==> OneAtEach(head)
  {
    if OneAtEach(head + [n]) {
      forall g, h, p: Key | g in head && h in head && At(g, p) && At(h, p)
        ensures g == h
      {
        assert g in head + [n] && h in head + [n];
      }
    }
  }

  lemma TrimNone(head: seq<HeadRow>, since: Key, till: Key)
    ensures TrimAll(head, [], since, till) == head
  {}

  lemma LayerOf(t: Tables, head: seq<HeadRow>, rows: seq<HeadRow>, layer: nat, since: Key, till: Key)
    requires Keyed(t) && t.head == Rows(head) && Delivered(rows, head, since, till)
    requires exists r :: r in rows && 1 <= r.objId <= |t.log| && t.log[r.objId-1].layer == layer
    requires forall r :: r in rows ==> 1 <= r.objId <= |t.log| && t.log[r.objId-1].layer <= layer
    ensures NextLayer(t, since, till) == layer + 1
  {
    hide Overlaps;
    var r :| r in rows && t.log[r.objId-1].layer == layer;
    assert r in Touched(t.head, since, till);
    assert layer in TouchedLayers(t, since, till);
    assert forall h :: h in Touched(t.head, since, till) ==> h in rows;
  }

  lemma NoLayer(t: Tables, head: seq<HeadRow>, rows: seq<HeadRow>, since: Key, till: Key)
    requires Keyed(t) && t.head == Rows(head) && Delivered(rows, head, since, till) && rows == []
    ensures NextLayer(t, since, till) == 0
  {
    hide Overlaps;
    assert forall h :: h in Touched(t.head, since, till) ==> h in rows;
    assert Touched(t.head, since, till) == {};
  }

  // ---- Histories of table stores

  /** Head is that of the exact store after the first n tables. */
  ghost predicate AgreesAfter(heads: seq<seq<HeadRow>>, ts: seq<StoredTable>, partId: int, n: nat)
    requires LegalTables(ts) && n <= |ts| && n < |heads|
  {
    LegalTables(ts[..n]) && NoDup(heads[n]) && Rows(heads[n]) == Run(Events(ts[..n], partId)).head
  }

  /** The exact head after the first n tables is safe for the interval of the next. */
  ghost predicate SafeNext(ts: seq<StoredTable>, partId: int, n: nat)
    requires LegalTables(ts) && n < |ts|
  {
    LegalTables(ts[..n]) && ByObjectSafe(Run(Events(ts[..n], partId)).head, ts[n].since, ts[n].till)
  }

  ghost predicate TableHistory(heads: seq<seq<HeadRow>>, ts: seq<StoredTable>) {
    && |heads| == |ts| + 1 && heads[0] == []
    && forall n :: 0 <= n < |ts| ==> TableStep(heads[n], heads[n+1], n + 1, ts[n].since, ts[n].till)
  }

  lemma AgreesNext(heads: seq<seq<HeadRow>>, ts: seq<StoredTable>, partId: int, n: nat)
    requires LegalTables(ts) && TableHistory(heads, ts) && n < |ts| && AgreesAfter(heads, ts, partId, n)
    ensures AgreesAfter(heads, ts, partId, n + 1) <==> SafeNext(ts, partId, n)
  {
    hide LegalTable, NoDup, Run, ByObjectSafe, Stored, Inv, TrimAll, Delivered, Keyed, LogOf;
    var front, t := ts[..n], Run(Events(ts[..n], partId));
    assert ts[..n+1] == front + [ts[n]] && LegalTable(ts[n]);
    LegalOrder(ts[n]);
    KeyedRun(front, partId);
    NextRun(front, ts[n], partId);
    LogRun(front, partId);
    var rows :| Delivered(rows, heads[n], ts[n].since, ts[n].till)
                && heads[n+1] == TrimAll(heads[n], rows, ts[n].since, ts[n].till) + [HeadRow(n + 1, ts[n].since, ts[n].till)];
    DeliveredSnapshot(rows, heads[n], ts[n].since, ts[n].till);
    StorePlan(t, heads[n], rows, ts[n].since, ts[n].till, partId, n);
  }

  lemma LegalOrder(t: StoredTable)
    requires LegalTable(t)
    ensures t.since < t.till
  {}

  /** The log of the exact run has one row for each table. */
  lemma {:induction false} LogRun(ts: seq<StoredTable>, partId: int)
    requires LegalTables(ts)
    ensures |Run(Events(ts, partId)).log| == |ts|
  {
    hide Run, Events;
    if ts == [] {
      NoTables(partId);
    } else {
      var n := |ts| - 1;
      assert ts == ts[..n] + [ts[n]];
      LogRun(ts[..n], partId);
      NextRun(ts[..n], ts[n], partId);
    }
  }

  lemma NoTables(partId: int)
    ensures LegalTables([]) && Run(Events([], partId)) == EMPTY
  {}

  /** However the overlap queries deliver their rows, head agrees with the exact store after every
      table of a history if and only if every step of the history is safe. */
  lemma {:induction false} TablesAgree(heads: seq<seq<HeadRow>>, ts: seq<StoredTable>, partId: int, n: nat)
    requires LegalTables(ts) && TableHistory(heads, ts) && n <= |ts|
    ensures (forall k :: 0 <= k <= n ==> AgreesAfter(heads, ts, partId, k)) <==> forall k :: 0 <= k < n ==> SafeNext(ts, partId, k)
    decreases n
  {
    hide AgreesAfter, SafeNext, LegalTables;
    if n == 0 {
      AgreesAtFirst(heads, ts, partId);
    } else {
      TablesAgree(heads, ts, partId, n - 1);
      if AgreesAfter(heads, ts, partId, n - 1) {
        AgreesNext(heads, ts, partId, n - 1);
      }
    }
  }

  lemma AgreesAtFirst(heads: seq<seq<HeadRow>>, ts: seq<StoredTable>, partId: int)
    requires LegalTables(ts) && TableHistory(heads, ts)
    ensures AgreesAfter(heads, ts, partId, 0)
  {
    assert ts[..0] == [];
    NoTables(partId);
  }

  // ---- Intervals that are empty or the wrong way round

  predicate Spans(h: HeadRow, a: Key, b: Key) {
    h.since < a && b < h.till
  }

  /** The exact store of an empty interval shows nothing and hides nothing. By the law of
      `Store` the table store does the same if and only if the state is safe for it, that is,
      unless the object it splits has another fragment. */
  lemma EmptyInterval(t: Tables, at: Key, dbId: int, datId: int, id: nat, p: Key)
    requires Inv(t) && Keyed(t)
    ensures (exists q :: q in Stored(t, at, at, dbId, datId).head && q.objId == id && At(q, p))
            <==> exists h :: h in t.head && h.objId == id && At(h, p)
    ensures Disjoint(Carve(t.head, at, at))
  {
    hide Refines, LogInv, InLogged, Pieces, NextLayer;
    CarveDisjoint(t.head, at, at);
    if h :| h in t.head && h.objId == id && At(h, p) {
      CarveKeeps(t.head, at, at, h, p);
    }
    if q :| q in Stored(t, at, at, dbId, datId).head && q.objId == id && At(q, p) {
      assert q in Carve(t.head, at, at);
      CarvedAt(t.head, at, at, q, p);
    }
  }

  ghost predicate OneAtEach(head: seq<HeadRow>) {
    forall g, h, p: Key :: g in head && h in head && At(g, p) && At(h, p) ==> g == h
  }

  lemma OneSpans(head: seq<HeadRow>, rows: seq<HeadRow>, since: Key, till: Key)
    requires till < since && Disjoint(Rows(head)) && Snapshot(rows, Rows(head), since, till)
    ensures |rows| <= 1
  {
    if |rows| > 1 {
      assert rows[0] in Rows(rows) && rows[1] in Rows(rows);
      assert Overlaps(rows[0], rows[1].since, rows[1].till);
    }
  }

  /** Times of a table are not checked. Given an interval the wrong way round, the trimming
      loop leaves one row at each point if and only if no fragment spans the interval: a
      fragment that does is split into two that both cover it. */
  lemma InvertedInterval(head: seq<HeadRow>, rows: seq<HeadRow>, since: Key, till: Key)
    requires till < since && NoDup(head) && Disjoint(Rows(head))
    requires Snapshot(rows, Rows(head), since, till)
    ensures OneAtEach(TrimAll(head, rows, since, till)) <==> forall h :: h in head ==> !Spans(h, till, since)
  {
    hide TrimAll, Trimmed;
    OneSpans(head, rows, since, till);
    if rows == [] {
      TrimNone(head, since, till);
      assert forall h :: h in head ==> h in Rows(head) && h !in Rows(rows);
      assert OneAtEach(head);
    } else {
      var r := rows[0];
      assert r in Rows(rows);
      assert rows[..1] == rows;
      TrimAllNext(head, rows, 0, since, till);
      assert rows[..0] == [];
      SpanSplit(head, r, since, till);
    }
  }

  lemma SpanSplit(head: seq<HeadRow>, r: HeadRow, since: Key, till: Key)
    requires till < since && r in head && Overlaps(r, since, till)
    ensures !OneAtEach(Trimmed(head, SameObject(r), r, since, till))
  {
    var out := Trimmed(head, SameObject(r), r, since, till);
    var k :| 0 <= k < |head| && head[k] == r;
    assert out[k] == r.(till := since) && out[|head|] == HeadRow(r.objId, till, r.till);
    assert At(out[k], till) && At(out[|head|], till);
  }

  // ---- A history the table store gets wrong

  const SPLIT_HISTORY := [StoreObject(0, 100, 1, 0), StoreObject(40, 60, 1, 1)]

  /** Head after the history: the second object has split the first. */
  const SPLIT_HEAD := [HeadRow(1, 0, 40), HeadRow(1, 60, 100), HeadRow(2, 40, 60)]

  lemma CarveSingle(h: HeadRow, since: Key, till: Key)
    ensures Carve({h}, since, till) == Pieces(h, since, till)
    ensures Carve({}, since, till) == {}
  {}

  lemma {:induction false} SplitHistory()
    ensures AllLegal(SPLIT_HISTORY) && Run(SPLIT_HISTORY).head == Rows(SPLIT_HEAD)
    ensures Run(SPLIT_HISTORY[..1]).head == {HeadRow(1, 0, 100)}
    ensures ByObjectSafe({}, 0, 100) && ByObjectSafe({HeadRow(1, 0, 100)}, 40, 60)
  {
    hide Inv, Carve, NextLayer;
    var es, whole := SPLIT_HISTORY, HeadRow(1, 0, 100);
    assert es[..1] == [es[0]] && es[..1][..0] == [];
    CarveSingle(whole, 0, 100);
    assert Run(es[..1]) == Apply(Run([]), es[0]);
    assert Run(es[..1]).head == {whole} && |Run(es[..1]).log| == 1;
    CarveSingle(whole, 40, 60);
    assert Run(es) == Apply(Run(es[..1]), es[1]);
  }

  /** Storing over [10, 20) after that history touches the fragment [0, 40) alone. With
      the exact condition the other fragment stays; by object id it is cut at 10 as well
      and nothing is found at 70 any more. */
  lemma SecondFragmentLost()
    ensures !ByObjectSafe(Rows(SPLIT_HEAD), 10, 20)
    ensures Snapshot([HeadRow(1, 0, 40)], Rows(SPLIT_HEAD), 10, 20)
    ensures HeadRow(1, 60, 100) in Trimmed(SPLIT_HEAD, ExactRow(HeadRow(1, 0, 40)), HeadRow(1, 0, 40), 10, 20)
    ensures forall h :: h in TrimAll(SPLIT_HEAD, [HeadRow(1, 0, 40)], 10, 20) ==> !At(h, 70)
  {
    hide Trimmed, TrimAll;
    var r, other := HeadRow(1, 0, 40), HeadRow(1, 60, 100);
    assert Rows(SPLIT_HEAD) == {r, other, HeadRow(2, 40, 60)};
    assert !Alone(Rows(SPLIT_HEAD), r) && !AllInside(Rows(SPLIT_HEAD), 1, 10, 20);
    SplitTrimmed(r);
    TrimAllNext(SPLIT_HEAD, [r], 0, 10, 20);
    assert [r][..1] == [r];
  }

  lemma SplitTrimmed(r: HeadRow)
    requires r == HeadRow(1, 0, 40)
    ensures Trimmed(SPLIT_HEAD, ExactRow(r), r, 10, 20)
            == [HeadRow(1, 0, 10), HeadRow(1, 60, 100), HeadRow(2, 40, 60), HeadRow(1, 20, 40)]
    ensures Trimmed(SPLIT_HEAD, SameObject(r), r, 10, 20)
            == [HeadRow(1, 0, 10), HeadRow(1, 60, 10), HeadRow(2, 40, 60), HeadRow(1, 20, 40)]
  {}

  lemma NothingStored(t: Tables, head: seq<HeadRow>)
    requires t.log == [] && head == [] && t.head == Rows(head) && t.tags == {}
    ensures t == EMPTY && Inv(t) && Keyed(t) && NoDup(head)
  {}

  lemma StoredLog(t: Tables, since: Key, till: Key, dbId: int, datId: int)
    requires Keyed(t)
    ensures |Stored(t, since, till, dbId, datId).log| == |t.log| + 1
  {
    hide Carve, NextLayer;
  }

  /** The two stores of the history, one after the other. */
  lemma FirstStores()
    ensures Inv(EMPTY) && Keyed(EMPTY) && EMPTY.tags == {} && ByObjectSafe(EMPTY.head, 0, 100)
    ensures AllLegal(SPLIT_HISTORY)
    ensures var t := Run(SPLIT_HISTORY[..1]);
            && Inv(t) && Keyed(t) && t == Stored(EMPTY, 0, 100, 1, 0) && t.tags == {}
            && ByObjectSafe(t.head, 40, 60)
            && Stored(t, 40, 60, 1, 1).head == Rows(SPLIT_HEAD)
  {
    hide Inv, Carve, NextLayer;
    EmptyInv();
    SplitHistory();
    var es := SPLIT_HISTORY;
    assert es[..1] == [es[0]] && es[..1][..0] == [];
    InvKeyed(Run(es[..1]));
    assert Run(es[..1]) == Apply(Run([]), es[0]);
    assert Run(es) == Apply(Run(es[..1]), es[1]);
  }

  lemma InvKeyed(t: Tables)
    requires Inv(t)
    ensures Keyed(t)
  {}

  lemma AgreesMeans(t: Tables, head: seq<HeadRow>, log: seq<LogRow>, since: Key, till: Key, dbId: int, datId: int)
    requires StepAgrees(t, head, log, since, till, dbId, datId) && ByObjectSafe(t.head, since, till)
    ensures Keyed(t) && NoDup(head) && Tables(log, Rows(head), t.tags) == Stored(t, since, till, dbId, datId)
  {
    hide Stored, HeadFind, ByObjectSafe, NoDup;
  }

  lemma SplitLoses(split: seq<HeadRow>, head: seq<HeadRow>)
    requires NoDup(split) && Rows(split) == Rows(SPLIT_HEAD) && TableStep(split, head, 3, 10, 20)
    ensures forall h :: h in head ==> !At(h, 70)
  {
    hide TrimAll, Trimmed;
    var rows :| Delivered(rows, split, 10, 20) && head == TrimAll(split, rows, 10, 20) + [HeadRow(3, 10, 20)];
    var r := HeadRow(1, 0, 40);
    TouchesFirst(split, rows);
    assert rows[..1] == rows && rows[..0] == [];
    TrimAllNext(split, rows, 0, 10, 20);
    SplitAt70(split, r);
  }

  lemma TouchesFirst(split: seq<HeadRow>, rows: seq<HeadRow>)
    requires NoDup(split) && Rows(split) == Rows(SPLIT_HEAD) && Delivered(rows, split, 10, 20)
    ensures rows == [HeadRow(1, 0, 40)]
  {
    var r := HeadRow(1, 0, 40);
    assert Rows(SPLIT_HEAD) == {r, HeadRow(1, 60, 100), HeadRow(2, 40, 60)};
    assert forall h :: h in split <==> h in Rows(split);
    assert forall h :: h in rows <==> h == r;
    assert forall i :: 0 <= i < |rows| ==> rows[i] in rows;
    assert |rows| > 1 ==> rows[0] == rows[1];
  }

  lemma SplitAt70(split: seq<HeadRow>, r: HeadRow)
    requires Rows(split) == Rows(SPLIT_HEAD) && r == HeadRow(1, 0, 40)
    ensures forall h :: h in Trimmed(split, SameObject(r), r, 10, 20) ==> !At(h, 70)
  {
    assert Rows(SPLIT_HEAD) == {r, HeadRow(1, 60, 100), HeadRow(2, 40, 60)};
    var out := Trimmed(split, SameObject(r), r, 10, 20);
    forall i | 0 <= i < |split|
      ensures !At(out[i], 70)
    {
      assert split[i] in Rows(split);
    }
  }

  /** The table store walks into it by itself: two stores into an empty folder split the first
      object, and the third takes away what was stored over 70, though its interval does not
      come near it. */
  method LoseByTableStore(mgr: VersionMgr) returns (whole: seq<HeadRow>, split: seq<HeadRow>)
    requires mgr.log == [] && mgr.head == []
    modifies mgr
    ensures TableStep([], whole, 1, 0, 100) && TableStep(whole, split, 2, 40, 60) && TableStep(split, mgr.head, 3, 10, 20)
    ensures Rows(split) == Rows(SPLIT_HEAD)
    ensures forall h :: h in mgr.head ==> !At(h, 70)
  {
    hide ByObjectSafe, StepAgrees, Stored, TableStep, NoDup, Inv, Keyed, Run, At, SPLIT_HEAD;
    NothingStored(mgr.Abs(), mgr.head);
    FirstStores();
    ghost var t := Run(SPLIT_HISTORY[..1]);
    StoredLog(EMPTY, 0, 100, 1, 0);
    mgr.Store(0, 100, 1, 0);
    AgreesMeans(EMPTY, mgr.head, mgr.log, 0, 100, 1, 0);
    whole := mgr.head;
    StoredLog(t, 40, 60, 1, 1);
    mgr.Store(40, 60, 1, 1);
    AgreesMeans(t, mgr.head, mgr.log, 40, 60, 1, 1);
    split := mgr.head;
    StoredLog(mgr.Abs(), 10, 20, 1, 2);
    mgr.Store(10, 20, 1, 2);
    SplitLoses(split, mgr.head);
  }
}
