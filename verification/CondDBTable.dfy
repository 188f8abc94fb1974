/** A table handed in for storing: typed rows with their times. */
module CondDBTable {
  import opened CondDBKeys
  import opened CText
  import opened CdbTypes
  import opened Options
  import opened Blob
  import opened TableRow

  /** `nulls` compares a text with the null value of a column; both that and `floats` are
      conversions of the C library. */
  datatype Table = Table(
    types: seq<CdbType>, floats: Floats, nulls: seq<string -> bool>, rows: seq<seq<Cell>>, since: seq<Key>, till: seq<Key>)

  /** Every row has the column types and a start time. */
  predicate WellFormed(t: Table) {
    && |t.nulls| == |t.types| && |t.since| == |t.rows|
    && forall l :: 0 <= l < |t.rows| ==> RowFits(t.rows[l], t.types)
  }

  /** The stored form of a row. */
  function StoredRow(t: Table, l: nat): seq<Field>
    requires WellFormed(t) && l < |t.rows|
  {
    RowStored(t.types, t.floats, t.nulls, t.rows[l])
  }

  lemma EncodedIsStored(t: Table, l: nat, fields: seq<Field>)
    requires WellFormed(t) && l < |t.rows|
    requires fields == RowStored(t.types, t.floats, t.nulls, t.rows[l])
    ensures fields == StoredRow(t, l)
  {}

  lemma StoredWidth(t: Table, l: nat)
    requires WellFormed(t) && l < |t.rows|
    ensures |StoredRow(t, l)| == |t.types|
  {}

  /** The texts of a cell. */
  function CellTexts(t: Table, l: nat, i: nat): seq<string>
    requires WellFormed(t) && l < |t.rows| && i < |t.types|
  {
    Rendered(t.rows[l][i])
  }

  /** What reading the stored row back yields for a column. */
  function ReadBack(t: Table, l: nat, i: nat, nullText: string): Option<seq<string>>
    requires WellFormed(t) && l < |t.rows| && i < |t.types|
  {
    ReadField(t.types[i], t.floats, StoredRow(t, l)[i], nullText)
  }

  predicate DurableCell(t: Table, l: nat, i: nat, nullText: string)
    requires WellFormed(t) && l < |t.rows| && i < |t.types|
  {
    Durable(t.types[i], t.floats, CellTexts(t, l, i), t.nulls[i], nullText)
  }

  lemma CellSurvives(t: Table, l: nat, i: nat, nullText: string)
    requires WellFormed(t) && l < |t.rows| && i < |t.types|
    requires forall k :: 0 <= k < |CellTexts(t, l, i)| ==> |CellTexts(t, l, i)[k]| <= LONG_MAX / 2
    ensures ReadBack(t, l, i, nullText) == Some(CellTexts(t, l, i)) <==> DurableCell(t, l, i, nullText)
  {
    hide Durable, ReadField, StoredField, RowStored, Rendered;
    RowStoredAt(t.types, t.floats, t.nulls, t.rows[l], i);
    ColumnSurvives(t.types[i], t.floats, CellTexts(t, l, i), t.nulls[i], nullText);
  }

  /** A row flattened, parsed, encoded, stored and read back is the row that was put in if and
      only if each of its cells is durable. */
  lemma RowSurvives(t: Table, l: nat, nullTexts: seq<string>)
    requires WellFormed(t) && l < |t.rows| && |nullTexts| == |t.types|
    requires forall i, k :: 0 <= i < |t.types| && 0 <= k < |CellTexts(t, l, i)| ==> |CellTexts(t, l, i)[k]| <= LONG_MAX / 2
    ensures (forall i :: 0 <= i < |t.types| ==> ReadBack(t, l, i, nullTexts[i]) == Some(CellTexts(t, l, i)))
            <==> forall i :: 0 <= i < |t.types| ==> DurableCell(t, l, i, nullTexts[i])
  {
    hide ReadBack, DurableCell, CellTexts, WellFormed;
    forall i | 0 <= i < |t.types|
      ensures ReadBack(t, l, i, nullTexts[i]) == Some(CellTexts(t, l, i)) <==> DurableCell(t, l, i, nullTexts[i])
    {
      CellSurvives(t, l, i, nullTexts[i]);
    }
  }
}
