/** Rows of a table on their way to the database: getRow flattens the typed cells into a
    list of texts, the store loops parse that list, map null values and build blobs; the
    browse loops turn stored fields back into texts. */
module TableRow {
  import opened Decimal
  import opened CText
  import opened CdbTypes
  import opened Options
  import opened Blob

  /** A cell value. Floating-point values are kept as the texts they print as. */
  datatype Cell =
    | Number(n: int)
    | Text(s: string)
    | Real(printed: string)
    | Numbers(ns: seq<int>)
    | Texts(ss: seq<string>)
    | Reals(ps: seq<string>)

  predicate HasType(c: Cell, t: CdbType) {
    match t
    case CdbBool => c.Number?
    case CdbInt => c.Number?
    case CdbLongLong => c.Number?
    case CdbString => c.Text?
    case CdbFloat => c.Real?
    case CdbDouble => c.Real?
    case CdbArrayBool => c.Numbers?
    case CdbArrayInt => c.Numbers?
    case CdbArrayLongLong => c.Numbers?
    case CdbArrayString => c.Texts?
    case CdbArrayFloat => c.Reals?
    case CdbArrayDouble => c.Reals?
  }

  function PrintedAll(ns: seq<int>): (r: seq<string>)
    ensures |r| == |ns| && forall i :: 0 <= i < |ns| ==> r[i] == Printed(ns[i])
  {
    seq(|ns|, i requires 0 <= i < |ns| => Printed(ns[i]))
  }

  /** The texts of the values of a cell. */
  function Rendered(c: Cell): seq<string> {
    match c
    case Number(n) => [Printed(n)]
    case Text(s) => [s]
    case Real(p) => [p]
    case Numbers(ns) => PrintedAll(ns)
    case Texts(ss) => ss
    case Reals(ps) => ps
  }

  /** An array is preceded by its size. */
  function Flat(c: Cell): seq<string> {
    if c.Numbers? || c.Texts? || c.Reals? then [Digits(|Rendered(c)|)] + Rendered(c) else Rendered(c)
  }

  function FlatRow(row: seq<Cell>): seq<string> {
    if row == [] then [] else Flat(row[0]) + FlatRow(row[1..])
  }

  /** The size of an array, then its values, or the one value of a scalar. */
  method PushCell(before: seq<string>, c: Cell) returns (values: seq<string>)
    ensures values == before + Flat(c)
  {
    hide Rendered, Digits;
    values := before;
    if c.Numbers? || c.Texts? || c.Reals? {
      var tmp := Rendered(c);
      values := values + [Digits(|tmp|)];
      var k := 0;
      while k < |tmp|
        invariant 0 <= k <= |tmp| && values == before + ([Digits(|tmp|)] + tmp[..k])
      {
        values := values + [tmp[k]];
        k := k + 1;
      }
      assert tmp[..k] == tmp;
    } else {
      values := values + Rendered(c);
    }
  }

  /** getRow: push the texts of every column. */
  method GetRow(row: seq<Cell>) returns (values: seq<string>)
    ensures values == FlatRow(row)
  {
    values := [];
    var i := 0;
    assert row[0..] == row;
    while i < |row|
      invariant 0 <= i <= |row| && values + FlatRow(row[i..]) == FlatRow(row)
    {
      hide Flat, FlatRow;
      FlatGrows(values, row, i);
      values := PushCell(values, row[i]);
      i := i + 1;
    }
    assert values + [] == values;
  }

  lemma FlatRest(row: seq<Cell>, i: nat)
    requires i < |row|
    ensures FlatRow(row[i..]) == Flat(row[i]) + FlatRow(row[i+1..])
  {
    hide Flat;
    assert row[i..][1..] == row[i+1..];
  }

  lemma FlatGrows(values: seq<string>, row: seq<Cell>, i: nat)
    requires i < |row|
    ensures values + FlatRow(row[i..]) == values + Flat(row[i]) + FlatRow(row[i+1..])
  {
    hide Flat;
    FlatRest(row, i);
  }

  // ---- The parser of the store loops

  datatype Parsed = Parsed(cells: seq<seq<string>>, pos: nat)

  /** n_vals: an int, read from the list for an array. */
  function CountAt(t: CdbType, values: seq<string>, pos: nat): int
    requires IsArray(t) ==> pos < |values|
  {
    if IsArray(t) then Signed(Atol(values[pos]), 32) else 1
  }

  function Start(t: CdbType, pos: nat): nat {
    if IsArray(t) then pos + 1 else pos
  }

  /** The texts of the columns from `pos` on; None where the program would index past the
      list or find no value to look at. */
  function ParseFrom(types: seq<CdbType>, values: seq<string>, pos: nat): Option<Parsed>
  {
    if types == [] then Some(Parsed([], pos))
    else if IsArray(types[0]) && pos >= |values| then None
    else
      var n := CountAt(types[0], values, pos);
      var p := Start(types[0], pos);
      if n < 0 || p + n > |values| then None
      else
        match ParseFrom(types[1..], values, p + n)
        case None => None
        case Some(r) => Some(Parsed([values[p..p + n]] + r.cells, r.pos))
  }

  predicate RowFits(row: seq<Cell>, types: seq<CdbType>) {
    && |row| == |types|
    && forall i :: 0 <= i < |row| ==> HasType(row[i], types[i]) && |Rendered(row[i])| < 0x8000_0000
  }

  function RenderedRow(row: seq<Cell>): (r: seq<seq<string>>)
    ensures |r| == |row|
  {
    if row == [] then [] else [Rendered(row[0])] + RenderedRow(row[1..])
  }

  lemma CountPrinted(n: nat)
    requires n < 0x8000_0000
    ensures Signed(Atol(Digits(n)), 32) == n
  {
    AtolPrinted(n);
    SignedFits(n, 32);
  }

  /** The list holds `part` at `pos`. */
  predicate Holds(values: seq<string>, pos: nat, part: seq<string>) {
    pos + |part| <= |values| && values[pos..pos + |part|] == part
  }

  lemma FlatShape(c: Cell, t: CdbType)
    requires HasType(c, t)
    ensures IsArray(t) ==> Flat(c) == [Digits(|Rendered(c)|)] + Rendered(c)
    ensures !IsArray(t) ==> Flat(c) == Rendered(c) && |Rendered(c)| == 1
  {}

  lemma CellHeld(c: Cell, t: CdbType, values: seq<string>, pos: nat)
    requires HasType(c, t) && |Rendered(c)| < 0x8000_0000
    requires Holds(values, pos, Flat(c))
    ensures IsArray(t) ==> pos < |values|
    ensures CountAt(t, values, pos) == |Rendered(c)|
    ensures Holds(values, Start(t, pos), Rendered(c))
    ensures Start(t, pos) + |Rendered(c)| == pos + |Flat(c)|
  {
    hide Rendered, Flat, Digits, Signed, Atol, HasType;
    FlatShape(c, t);
    if IsArray(t) {
      CountPrinted(|Rendered(c)|);
      HoldsRest(values, pos, [Digits(|Rendered(c)|)], Rendered(c));
      assert values[pos..pos + 1][0] == values[pos];
    }
  }

  lemma HoldsRest(values: seq<string>, pos: nat, a: seq<string>, b: seq<string>)
    requires Holds(values, pos, a + b)
    ensures Holds(values, pos, a) && Holds(values, pos + |a|, b)
  {
    var part := values[pos..pos + |a + b|];
    assert values[pos..pos + |a|] == part[..|a|] == a;
    assert values[pos + |a|..pos + |a| + |b|] == part[|a|..] == b;
  }

  lemma ParseCell(c: Cell, types: seq<CdbType>, values: seq<string>, pos: nat, r: Parsed)
    requires types != [] && HasType(c, types[0]) && |Rendered(c)| < 0x8000_0000
    requires Holds(values, pos, Flat(c))
    requires ParseFrom(types[1..], values, pos + |Flat(c)|) == Some(r)
    ensures ParseFrom(types, values, pos) == Some(Parsed([Rendered(c)] + r.cells, r.pos))
  {
    hide Rendered, Flat, CountAt, Start, HasType, Holds;
    CellHeld(c, types[0], values, pos);
    HeldTexts(values, Start(types[0], pos), Rendered(c));
  }

  lemma FlatFirst(row: seq<Cell>)
    requires row != []
    ensures FlatRow(row) == Flat(row[0]) + FlatRow(row[1..])
  {}

  /** Wherever the flattened row stands in the list, the parser recovers exactly its cells,
      for any mix of scalars and arrays, empty ones included, and stops behind it. */
  lemma {:induction false} ParseRecovers(row: seq<Cell>, types: seq<CdbType>, values: seq<string>, pos: nat)
    requires RowFits(row, types) && Holds(values, pos, FlatRow(row))
    ensures ParseFrom(types, values, pos) == Some(Parsed(RenderedRow(row), pos + |FlatRow(row)|))
    decreases |row|
  {
    hide *;
    if row == [] {
      ParseNothing(row, types, values, pos);
    } else {
      FirstCell(row, types, values, pos);
      ParseRecovers(row[1..], types[1..], values, pos + |Flat(row[0])|);
      ParseMore(row, types, values, pos);
    }
  }

  lemma ParseMore(row: seq<Cell>, types: seq<CdbType>, values: seq<string>, pos: nat)
    requires RowFits(row, types) && Holds(values, pos, FlatRow(row)) && row != [] && types != []
    requires ParseFrom(types[1..], values, pos + |Flat(row[0])|)
             == Some(Parsed(RenderedRow(row[1..]), pos + |Flat(row[0])| + |FlatRow(row[1..])|))
    ensures ParseFrom(types, values, pos) == Some(Parsed(RenderedRow(row), pos + |FlatRow(row)|))
  {
    hide *;
    FirstCell(row, types, values, pos);
    ParseCell(row[0], types, values, pos, Parsed(RenderedRow(row[1..]), pos + |FlatRow(row)|));
  }

  lemma ParseNothing(row: seq<Cell>, types: seq<CdbType>, values: seq<string>, pos: nat)
    requires RowFits(row, types) && row == []
    ensures ParseFrom(types, values, pos) == Some(Parsed(RenderedRow(row), pos + |FlatRow(row)|))
  {}

  lemma FirstCell(row: seq<Cell>, types: seq<CdbType>, values: seq<string>, pos: nat)
    requires RowFits(row, types) && Holds(values, pos, FlatRow(row)) && row != []
    ensures types != [] && HasType(row[0], types[0]) && |Rendered(row[0])| < 0x8000_0000
    ensures RowFits(row[1..], types[1..])
    ensures Holds(values, pos, Flat(row[0])) && Holds(values, pos + |Flat(row[0])|, FlatRow(row[1..]))
    ensures |FlatRow(row)| == |Flat(row[0])| + |FlatRow(row[1..])|
    ensures RenderedRow(row) == [Rendered(row[0])] + RenderedRow(row[1..])
  {
    hide HasType, Rendered, Flat, Holds;
    FlatFirst(row);
    HoldsRest(values, pos, Flat(row[0]), FlatRow(row[1..]));
  }

  lemma HeldTexts(values: seq<string>, pos: nat, part: seq<string>)
    requires Holds(values, pos, part)
    ensures pos + |part| <= |values| && values[pos..pos + |part|] == part
  {}

  /** The parser undoes getRow and ends at the end of the list. */
  lemma ParseUndoesGetRow(row: seq<Cell>, types: seq<CdbType>)
    requires RowFits(row, types)
    ensures ParseFrom(types, FlatRow(row), 0) == Some(Parsed(RenderedRow(row), |FlatRow(row)|))
  {
    hide FlatRow, RowFits;
    ParseRecovers(row, types, FlatRow(row), 0);
  }

  // ---- Null values and the stored form of a column

  /** What a column of a stored row holds. */
  datatype Field = Null | Plain(text: string) | Bytes(blob: string)

  const NULL_WORD := "NULL"

  /** Escaping of a text for use between quotes in a statement. */
  function Escaped(s: string): string {
    if s == "" then "" else EscapedChar(s[0]) + Escaped(s[1..])
  }

  predicate Special(c: char) {
    c in {'\0', '\n', '\r', '\\', '\'', '\"', 26 as char}
  }

  function EscapedChar(c: char): string {
    if c == '\0' then ['\\', '0']
    else if c == '\n' then ['\\', 'n']
    else if c == '\r' then ['\\', 'r']
    else if c == 26 as char then ['\\', 'Z']
    else if Special(c) then ['\\', c]
    else [c]
  }

  /** The texts pushed for one column: a single value equal to the null value of the column
      becomes the word NULL, and so does an empty array. */
  function Pushed(texts: seq<string>, isNull: string -> bool): (data: seq<string>)
    ensures |data| == if texts == [] then 1 else |texts|
  {
    if texts == [] then [NULL_WORD]
    else seq(|texts|, i requires 0 <= i < |texts| => if !isNull(texts[i]) || |texts| > 1 then Escaped(texts[i]) else NULL_WORD)
  }

  /** The column after the statement has run: text between quotes is unescaped by the
      server once, a blob is escaped as a whole and arrives as built. */
  function StoredField(t: CdbType, fl: Floats, texts: seq<string>, isNull: string -> bool): Field
    requires !IsArray(t) ==> |texts| == 1
  {
    var data := Pushed(texts, isNull);
    if data[0] == NULL_WORD then Null
    else if IsArray(t) then Bytes(Encoded(data, t, fl))
    else Plain(texts[0])
  }

  /** The texts a browse loop puts into the table for a column; None if the blob is not one. A
      scalar is read through a pointer to characters and ends at its first NUL. */
  function ReadField(t: CdbType, fl: Floats, f: Field, nullText: string): Option<seq<string>>
  {
    match f
    case Null => Some([nullText])
    case Plain(text) => Some([UpToNul(text)])
    case Bytes(blob) =>
      if !IsArray(t) then None
      else match Decoded(blob, t, fl) case None => None case Some(r) => Some(r.data)
  }

  /** The column is written as NULL. */
  predicate WrittenNull(texts: seq<string>, isNull: string -> bool) {
    texts == [] || texts[0] == NULL_WORD || (|texts| == 1 && isNull(texts[0]))
  }

  predicate NoSpecial(s: string) {
    forall i :: 0 <= i < |s| ==> !Special(s[i])
  }

  /** An array element that keeps its text: an integer in canonical form, a text without
      characters that are escaped, a floating-point text that the conversions give back. */
  predicate KeepsText(s: string, t: CdbType, fl: Floats)
    requires IsArray(t)
  {
    if t == CdbArrayString then NoSpecial(s)
    else if IsIntegerArray(t) then Canonical(s, Bits(t))
    else Reread(Escaped(s), FormOf(t, fl)) == s
  }

  lemma {:induction false} EscapedLength(s: string)
    ensures |s| <= |Escaped(s)| <= 2 * |s|
    ensures Escaped(s) == s <==> NoSpecial(s)
  {
    if s != "" {
      EscapedLength(s[1..]);
      if !Special(s[0]) {
        assert Escaped(s) == [s[0]] + Escaped(s[1..]);
        assert s == [s[0]] + s[1..];
        assert NoSpecial(s) <==> NoSpecial(s[1..]);
      } else {
        assert |Escaped(s)| == 2 + |Escaped(s[1..])|;
      }
    }
  }

  lemma EscapedIsNullWord(s: string)
    ensures Escaped(s) == NULL_WORD <==> s == NULL_WORD
  {
    EscapedLength(s);
    if s == NULL_WORD {
      assert NoSpecial(s);
    } else if |Escaped(s)| == 4 && s != "" && Special(s[0]) {
      assert Escaped(s)[0] == '\\';
    } else if Escaped(s) == NULL_WORD {
      NoBackslash(s);
    }
  }

  lemma {:induction false} NoBackslash(s: string)
    requires forall i :: 0 <= i < |Escaped(s)| ==> Escaped(s)[i] != '\\'
    ensures NoSpecial(s)
  {
    if s != "" {
      var e := Escaped(s);
      assert e == EscapedChar(s[0]) + Escaped(s[1..]);
      assert EscapedChar(s[0])[0] == e[0];
      forall i | 0 <= i < |Escaped(s[1..])|
        ensures Escaped(s[1..])[i] != '\\'
      {
        assert e[|EscapedChar(s[0])| + i] == Escaped(s[1..])[i];
      }
      NoBackslash(s[1..]);
    }
  }

  lemma {:induction false} DigitsNotSpecial(s: string)
    requires forall i :: 0 <= i < |s| ==> IsDigit(s[i]) || s[i] == '-'
    ensures NoSpecial(s)
  {}

  lemma PushedNull(texts: seq<string>, isNull: string -> bool)
    ensures Pushed(texts, isNull)[0] == NULL_WORD <==> WrittenNull(texts, isNull)
  {
    if texts != [] {
      EscapedIsNullWord(texts[0]);
    }
  }

  lemma IntegerKept(s: string, bits: nat)
    requires bits in {16, 32, 64}
    ensures Reread(Escaped(s), IntegerForm(bits)) == s <==> Canonical(s, bits)
  {
    hide Reread, IntegerForm;
    EscapedLength(s);
    RereadInteger(Escaped(s), bits);
    if Canonical(s, bits) {
      hide Escaped;
      assert forall i :: 1 <= i < |s| ==> s[i] == s[1..][i-1];
      DigitsNotSpecial(s);
      RereadExactlyCanonical(s, bits);
    } else {
      RereadIsCanonical(Escaped(s), bits);
    }
  }

  lemma ElementKept(s: string, t: CdbType, fl: Floats)
    requires IsArray(t)
    ensures t == CdbArrayString ==> (Escaped(s) == s <==> KeepsText(s, t, fl))
    ensures t != CdbArrayString ==> (Reread(Escaped(s), FormOf(t, fl)) == s <==> KeepsText(s, t, fl))
  {
    hide Reread, Escaped, Canonical, IntegerForm;
    EscapedLength(s);
    if IsIntegerArray(t) {
      IntegerKept(s, Bits(t));
    }
  }

  lemma RereadIsCanonical(s: string, bits: nat)
    requires bits in {16, 32, 64}
    ensures Canonical(Printed(Signed(Atol(s), bits)), bits)
  {
    SignedFits(Atol(s), bits);
    PrintedIsCanonical(Signed(Atol(s), bits), bits);
  }

  lemma BlobKept(t: CdbType, fl: Floats, texts: seq<string>, data: seq<string>)
    requires IsArray(t) && |texts| < UINT && |data| == |texts|
    requires forall i :: 0 <= i < |texts| ==> |texts[i]| <= LONG_MAX / 2 && data[i] == Escaped(texts[i])
    ensures Decoded(Encoded(data, t, fl), t, fl).Some?
    ensures Decoded(Encoded(data, t, fl), t, fl).value.data == texts <==> forall i :: 0 <= i < |texts| ==> KeepsText(texts[i], t, fl)
  {
    hide Encoded, Decoded, Escaped, KeepsText, Reread, FormOf;
    forall i | 0 <= i < |texts|
      ensures |data[i]| <= LONG_MAX
      ensures t == CdbArrayString ==> (data[i] == texts[i] <==> KeepsText(texts[i], t, fl))
      ensures t != CdbArrayString ==> (Reread(data[i], FormOf(t, fl)) == texts[i] <==> KeepsText(texts[i], t, fl))
    {
      EscapedLength(texts[i]);
      ElementKept(texts[i], t, fl);
    }
    BlobReadsBack(data, t, fl, "");
    assert Encoded(data, t, fl) + "" == Encoded(data, t, fl);
    if t != CdbArrayString {
      var r := RereadAll(data, FormOf(t, fl));
      assert r == texts <==> forall i :: 0 <= i < |texts| ==> r[i] == texts[i];
    } else {
      assert data == texts <==> forall i :: 0 <= i < |texts| ==> data[i] == texts[i];
    }
  }

  /** What a column must be to come back as it was put in. */
  predicate Durable(t: CdbType, fl: Floats, texts: seq<string>, isNull: string -> bool, nullText: string)
  {
    if WrittenNull(texts, isNull) then texts == [nullText]
    else forall i :: 0 <= i < |texts| ==> if IsArray(t) then KeepsText(texts[i], t, fl) else NoNul(texts[i])
  }

  /** A column comes back from the database as it was put in exactly when it is not written
      as NULL (or is the null value anyway) and a scalar has no NUL in it, and every element of
      an array keeps its text. A scalar text with a NUL comes back cut; an empty array, an array
      starting with the word NULL and array texts with characters to escape are lost. */
  lemma {:induction false} ColumnSurvives(t: CdbType, fl: Floats, texts: seq<string>, isNull: string -> bool, nullText: string)
    requires !IsArray(t) ==> |texts| == 1
    requires |texts| < UINT && forall i :: 0 <= i < |texts| ==> |texts[i]| <= LONG_MAX / 2
    ensures ReadField(t, fl, StoredField(t, fl, texts, isNull), nullText) == Some(texts)
            <==> Durable(t, fl, texts, isNull, nullText)
  {
    hide Encoded, Decoded, KeepsText, Escaped;
    PushedNull(texts, isNull);
    if !IsArray(t) {
      assert texts == [texts[0]];
      UpToNulExactly(texts[0]);
    } else if !WrittenNull(texts, isNull) {
      BlobKept(t, fl, texts, Pushed(texts, isNull));
    }
  }

  /** A typed integer array survives exactly when its values fit the stored words, unless
      it is empty or a single null value. */
  lemma {:induction false} IntegerArraySurvives(ns: seq<int>, t: CdbType, fl: Floats, isNull: string -> bool, nullText: string)
    requires IsIntegerArray(t) && 0 < |ns| < UINT && (|ns| == 1 ==> !isNull(Printed(ns[0])))
    requires forall i :: 0 <= i < |ns| ==> LONG_MIN <= ns[i] <= LONG_MAX && |Printed(ns[i])| <= LONG_MAX / 2
    ensures ReadField(t, fl, StoredField(t, fl, Rendered(Numbers(ns)), isNull), nullText) == Some(Rendered(Numbers(ns)))
            <==> forall i :: 0 <= i < |ns| ==> FitsBits(ns[i], Bits(t))
  {
    hide StoredField, ReadField, Canonical, FitsBits, Printed;
    var texts := PrintedAll(ns);
    ColumnSurvives(t, fl, texts, isNull, nullText);
    PrintedIsNotNullWord(ns[0]);
    forall i | 0 <= i < |ns|
      ensures KeepsText(texts[i], t, fl) <==> FitsBits(ns[i], Bits(t))
    {
      PrintedCanonicalFits(ns[i], Bits(t));
    }
  }

  lemma PrintedIsNotNullWord(n: int)
    ensures Printed(n) != NULL_WORD
  {
    assert NULL_WORD[0] == 'N';
    if n >= 0 {
      assert IsDigit(Printed(n)[0]);
    } else {
      assert Printed(n)[0] == '-';
    }
  }

  lemma PrintedCanonicalFits(n: int, bits: nat)
    requires bits in {16, 32, 64} && LONG_MIN <= n <= LONG_MAX
    ensures Canonical(Printed(n), bits) <==> FitsBits(n, bits)
  {
    AtolPrinted(n);
    if FitsBits(n, bits) {
      PrintedIsCanonical(n, bits);
    }
    if Canonical(Printed(n), bits) {
      CanonicalIsPrinted(Printed(n), bits);
    }
  }

  // ---- One row of the store loops

  /** The stored form of a typed row. */
  function RowStored(types: seq<CdbType>, fl: Floats, nulls: seq<string -> bool>, row: seq<Cell>): (fields: seq<Field>)
    requires RowFits(row, types) && |nulls| == |types|
    ensures |fields| == |row|
  {
    seq(|row|, i requires 0 <= i < |row| =>
      ScalarIsOne(row[i], types[i]); StoredField(types[i], fl, Rendered(row[i]), nulls[i]))
  }

  lemma ScalarIsOne(c: Cell, t: CdbType)
    requires HasType(c, t)
    ensures !IsArray(t) ==> |Rendered(c)| == 1
  {}

  /** The texts of one column: null values become the word NULL, others are escaped. */
  method PushTexts(values: seq<string>, pos: nat, n: nat, isNull: string -> bool) returns (data: seq<string>)
    requires pos + n <= |values|
    ensures data == Pushed(values[pos..pos + n], isNull)
  {
    hide Escaped;
    data := [];
    var c := pos;
    while c < pos + n
      invariant pos <= c <= pos + n && |data| == c - pos
      invariant n > 0 ==> data == Pushed(values[pos..pos + n], isNull)[..c - pos]
    {
      if !isNull(values[c]) || n > 1 {
        data := data + [Escaped(values[c])];
      } else {
        data := data + [NULL_WORD];
      }
      c := c + 1;
    }
    if n == 0 {
      data := data + [NULL_WORD];
    }
  }

  /** One column: read the count of an array, push the texts, build the stored value. */
  method EncodeColumn(t: CdbType, fl: Floats, isNull: string -> bool, values: seq<string>, start: nat, ghost texts: seq<string>)
    returns (field: Field, pos: nat)
    requires IsArray(t) ==> start < |values|
    requires CountAt(t, values, start) == |texts| && (!IsArray(t) ==> |texts| == 1)
    requires Holds(values, Start(t, start), texts)
    ensures field == StoredField(t, fl, texts, isNull) && pos == Start(t, start) + |texts|
  {
    hide Encoded, Pushed, Signed, Atol;
    pos := start;
    var n_vals := 1;
    if IsArray(t) {
      n_vals := Signed(Atol(values[pos]), 32);
      pos := pos + 1;
    }
    var data := PushTexts(values, pos, n_vals, isNull);
    if data[0] == NULL_WORD {
      field := Null;
    } else if IsArray(t) {
      var blob := VectorToBlob(data, t, fl);
      field := Bytes(blob);
    } else {
      assert values[pos] == values[pos..pos + n_vals][0];
      field := Plain(values[pos]);
    }
    pos := pos + n_vals;
  }

  /** Flatten a row, then walk through the list column by column. */
  method EncodeRow(types: seq<CdbType>, fl: Floats, nulls: seq<string -> bool>, row: seq<Cell>) returns (fields: seq<Field>)
    requires RowFits(row, types) && |nulls| == |types|
    ensures fields == RowStored(types, fl, nulls, row)
  {
    hide *;
    var values := GetRow(row);
    var pos: nat := 0;
    fields := [];
    var i := 0;
    StartOfList(values, row);
    FitsLength(row, types);
    while i < |types|
      invariant 0 <= i <= |types| && |types| == |row|
      invariant Holds(values, pos, FlatRow(row[i..]))
      invariant fields == RowStored(types, fl, nulls, row)[..i]
    {
      ColumnAt(row, types, values, pos, i);
      RowStoredAt(types, fl, nulls, row, i);
      var field;
      field, pos := EncodeColumn(types[i], fl, nulls[i], values, pos, Rendered(row[i]));
      fields := fields + [field];
      i := i + 1;
    }
  }

  lemma StartOfList(values: seq<string>, row: seq<Cell>)
    requires values == FlatRow(row)
    ensures Holds(values, 0, FlatRow(row[0..]))
  {
    assert row[0..] == row;
  }

  lemma FitsLength(row: seq<Cell>, types: seq<CdbType>)
    requires RowFits(row, types)
    ensures |row| == |types|
  {}

  lemma RowStoredAt(types: seq<CdbType>, fl: Floats, nulls: seq<string -> bool>, row: seq<Cell>, i: nat)
    requires RowFits(row, types) && |nulls| == |types| && i < |row|
    ensures !IsArray(types[i]) ==> |Rendered(row[i])| == 1
    ensures RowStored(types, fl, nulls, row)[i] == StoredField(types[i], fl, Rendered(row[i]), nulls[i])
  {
    hide Rendered, HasType, StoredField;
    ScalarIsOne(row[i], types[i]);
  }

  /** Where a column stands in the list. */
  lemma ColumnAt(row: seq<Cell>, types: seq<CdbType>, values: seq<string>, pos: nat, i: nat)
    requires RowFits(row, types) && i < |row| && Holds(values, pos, FlatRow(row[i..]))
    ensures IsArray(types[i]) ==> pos < |values|
    ensures CountAt(types[i], values, pos) == |Rendered(row[i])|
    ensures var p := Start(types[i], pos); var n := |Rendered(row[i])|;
            && Holds(values, p, Rendered(row[i]))
            && Holds(values, p + n, FlatRow(row[i+1..]))
  {
    hide Rendered, Flat, HasType, CountAt, Start, Holds;
    FlatRest(row, i);
    hide FlatRow;
    HoldsRest(values, pos, Flat(row[i]), FlatRow(row[i+1..]));
    CellHeld(row[i], types[i], values, pos);
  }
}
