/** What the order of result rows means for their values (relational/normalization.py). */
module OrderMeaning {
  import opened Prelude
  import opened Ordering

  /** The one value is smaller: by number, false before true, earlier, or by the first differing character. */
  ghost predicate Smaller(a: Cell, b: Cell) {
    match (a, b)
    case (Text(x), Text(y)) => LessText(x, y)
    case (Int(x), Int(y)) => x < y
    case (Decimal(x), Decimal(y)) => x < y
    case (Bool(x), Bool(y)) => (x, y) == (false, true)
    case (Date(x), Date(y)) => x < y
    case (DateTime(x), DateTime(y)) => x < y
    case (Bytes(x), Bytes(y)) => LessText(x, y)
    case (_, _) => false
  }

  /** The one cell comes before the other under the term. */
  ghost predicate ComesBefore(a: Cell, b: Cell, term: Term) {
    match (a, b)
    case (Null, Null) => false
    case (Null, _) => term.nulls == NullsFirst
    case (_, Null) => term.nulls == NullsLast
    case (_, _) => if term.direction == Ascending then Smaller(a, b) else Smaller(b, a)
  }

  lemma LessMeans(a: Cell, b: Cell)
    requires Comparable(a, b)
    ensures Less(a, b) <==> Smaller(a, b)
  {
    if a.Text? { LessTextIff(a.text, b.text); }
    if a.Bytes? { LessTextIff(a.bytes, b.bytes); }
  }

  lemma UnorderedIsEqual(a: Cell, b: Cell)
    requires Comparable(a, b) && !Less(a, b) && !Less(b, a)
    ensures a == b
  {
    if a.Text? { TextLeTotal(a.text, b.text); }
    if a.Bytes? { TextLeTotal(a.bytes, b.bytes); }
  }

  lemma CellsMean(a: Cell, b: Cell, term: Term)
    requires a.Null? || b.Null? || Comparable(a, b)
    ensures CompareCells(a, b, term) < 0 <==> ComesBefore(a, b, term)
    ensures CompareCells(a, b, term) == 0 <==> a == b
  {
    if !a.Null? && !b.Null? {
      LessMeans(a, b);
      LessMeans(b, a);
      LessAsymmetric(a, b);
      if !Less(a, b) && !Less(b, a) { UnorderedIsEqual(a, b); }
    }
  }

  /** At the first term where the rows differ the one comes before the other, if they differ at all. */
  ghost predicate RowBefore(left: Row, right: Row, indexes: seq<Index>)
    requires forall i :: 0 <= i < |indexes| ==> indexes[i].0 < |left| && indexes[i].0 < |right|
  {
    indexes != [] &&
    var (column, term) := indexes[0];
    if left[column] == right[column] then RowBefore(left, right, indexes[1..]) else ComesBefore(left[column], right[column], term)
  }

  predicate SameTerms(left: Row, right: Row, indexes: seq<Index>)
    requires forall i :: 0 <= i < |indexes| ==> indexes[i].0 < |left| && indexes[i].0 < |right|
  {
    forall i :: 0 <= i < |indexes| ==> left[indexes[i].0] == right[indexes[i].0]
  }

  lemma {:induction false} RowsMean(left: Row, right: Row, indexes: seq<Index>, columns: seq<Column>)
    requires WellTyped(left, columns) && WellTyped(right, columns) && Within(indexes, columns)
    ensures CompareRows(left, right, indexes, columns) < 0 <==> RowBefore(left, right, indexes)
    ensures CompareRows(left, right, indexes, columns) == 0 <==> SameTerms(left, right, indexes)
  {
    if indexes != [] {
      var (column, term) := indexes[0];
      FitsComparable(left, right, columns, column);
      CellsMean(left[column], right[column], term);
      RowsMean(left, right, indexes[1..], columns);
      assert forall i :: 1 <= i < |indexes| ==> indexes[i] == indexes[1..][i - 1];
      assert forall i :: 0 <= i < |indexes| - 1 ==> indexes[1..][i] == indexes[i + 1];
    }
  }

  /** The terms of an accepted result, with the place of the column each of them names. */
  predicate TermsAt(indexes: seq<Index>, terms: seq<Term>, columns: seq<Column>) {
    && |indexes| == |terms|
    && forall i :: 0 <= i < |indexes| ==>
         indexes[i].0 < |columns| && columns[indexes[i].0].name == terms[i].column && indexes[i].1 == terms[i]
  }

  /**
   * Of two rows of an accepted result the earlier has, at the first ordering term where they differ, the smaller value if
   * the term is ascending and the larger if it is descending, and a null where the term places nulls.
   */
  lemma ResultOrderMeans(rows: seq<seq<Raw>>, columns: seq<Column>, terms: seq<Term>, i: nat, j: nat)
    requires NormalizeResult(rows, columns, terms).Ok? && i < j < |NormalizeResult(rows, columns, terms).value|
    ensures OrderIndexes(terms, columns).Ok? && TermsAt(OrderIndexes(terms, columns).value, terms, columns)
    ensures var result, indexes := NormalizeResult(rows, columns, terms).value, OrderIndexes(terms, columns).value;
            && |result[i]| == |result[j]| == |columns|
            && (SameTerms(result[i], result[j], indexes) || RowBefore(result[i], result[j], indexes))
  {
    ResultIsSortedPermutation(rows, columns, terms);
    var result, indexes := NormalizeResult(rows, columns, terms).value, OrderIndexes(terms, columns).value;
    assert WellTyped(result[i], columns) && WellTyped(result[j], columns);
    RowsMean(result[i], result[j], indexes, columns);
  }

  // ----- Values -----

  /** The cell stands for the raw value. */
  predicate StandsFor(raw: Raw, cell: Cell) {
    match (raw, cell)
    case (RawNull, Null) => true
    case (RawText(text, _), Text(t)) => t == text
    case (RawText(_, decimal), Decimal(x)) => decimal == Some(x)
    case (RawInt(n), Int(m)) => m == n
    case (RawInt(n), Decimal(x)) => x == n as real
    case (RawDecimal(decimal), Decimal(x)) => decimal == Some(x)
    case (RawBool(b), Bool(t)) => t == b
    case (RawDate(day), Date(d)) => d == day
    case (RawDateTime(utc, aware), DateTime(u)) => aware && u == utc
    case (RawBytes(bytes), Bytes(b)) => b == bytes
    case (_, _) => false
  }

  lemma OneCellStands(raw: Raw, column: Column, a: Cell, b: Cell)
    requires StandsFor(raw, a) && StandsFor(raw, b) && OfType(a, column) && OfType(b, column)
    ensures a == b
  {}

  /** A value normalizes if and only if a cell of the column's type stands for it, and then to that cell. */
  lemma NormalizesIff(raw: Raw, column: Column)
    ensures NormalizeValue(raw, column).Ok? <==> exists cell :: OfType(cell, column) && StandsFor(raw, cell)
    ensures NormalizeValue(raw, column).Ok? ==>
      OfType(NormalizeValue(raw, column).value, column) && StandsFor(raw, NormalizeValue(raw, column).value)
  {
    if cell :| OfType(cell, column) && StandsFor(raw, cell) { StandingNormalizes(raw, column, cell); }
  }

  lemma StandingNormalizes(raw: Raw, column: Column, cell: Cell)
    requires OfType(cell, column) && StandsFor(raw, cell)
    ensures NormalizeValue(raw, column) == Ok(cell)
  {}

  // ----- Results -----

  predicate RowNormalizes(row: seq<Raw>, columns: seq<Column>) {
    |row| == |columns| && forall i :: 0 <= i < |row| ==> NormalizeValue(row[i], columns[i]).Ok?
  }

  lemma {:induction false} RowOkIff(row: seq<Raw>, columns: seq<Column>)
    requires |row| == |columns|
    ensures NormalizeCells(row, columns).Ok? <==> RowNormalizes(row, columns)
    ensures NormalizeCells(row, columns).Ok? ==>
      && |NormalizeCells(row, columns).value| == |row|
      && forall i :: 0 <= i < |row| ==> NormalizeValue(row[i], columns[i]) == Ok(NormalizeCells(row, columns).value[i])
  {
    if row != [] {
      RowOkIff(row[1..], columns[1..]);
      assert forall i :: 1 <= i < |row| ==> row[i] == row[1..][i - 1] && columns[i] == columns[1..][i - 1];
      assert forall i :: 0 <= i < |row| - 1 ==> row[1..][i] == row[i + 1] && columns[1..][i] == columns[i + 1];
    }
  }

  predicate HasColumn(columns: seq<Column>, name: string) {
    exists i :: 0 <= i < |columns| && columns[i].name == name
  }

  lemma ColumnThere(columns: seq<Column>, name: string)
    requires HasColumn(columns, name)
    ensures exists c :: c in columns && c.name == name
  {
    var i :| 0 <= i < |columns| && columns[i].name == name;
    assert columns[i] in columns;
  }

  lemma {:induction false} TermsOkIff(terms: seq<Term>, columns: seq<Column>)
    ensures OrderIndexes(terms, columns).Ok? <==> forall i :: 0 <= i < |terms| ==> HasColumn(columns, terms[i].column)
    ensures OrderIndexes(terms, columns).Err? ==> OrderIndexes(terms, columns).error.OrderColumnAbsent?
  {
    if terms != [] {
      TermsOkIff(terms[1..], columns);
      var position := Position(terms[0].column, columns);
      if HasColumn(columns, terms[0].column) { ColumnThere(columns, terms[0].column); }
      assert forall i :: 1 <= i < |terms| ==> terms[i] == terms[1..][i - 1];
      assert forall i :: 0 <= i < |terms| - 1 ==> terms[1..][i] == terms[i + 1];
    }
  }

  /**
   * A result normalizes if and only if its column names differ, every row is as wide as the columns and each of its values
   * normalizes, and every ordering term names a column; equal names, and rows of another width, are told apart.
   */
  lemma ResultOkIff(rows: seq<seq<Raw>>, columns: seq<Column>, terms: seq<Term>)
    ensures NormalizeResult(rows, columns, terms).Ok? <==>
      && NamesUnique(columns)
      && (forall i :: 0 <= i < |rows| ==> RowNormalizes(rows[i], columns))
      && (forall i :: 0 <= i < |terms| ==> HasColumn(columns, terms[i].column))
    ensures NormalizeResult(rows, columns, terms) == Err(DuplicateColumn) <==> !NamesUnique(columns)
    ensures NamesUnique(columns) && rows != [] && |rows[0]| != |columns| ==>
      NormalizeResult(rows, columns, terms) == Err(WidthMismatch)
  {
    TermsOkIff(terms, columns);
    forall i | 0 <= i < |rows| ensures NormalizeRow(rows[i], columns).Ok? <==> RowNormalizes(rows[i], columns) {
      if |rows[i]| == |columns| { RowOkIff(rows[i], columns); }
    }
    NeverDuplicate(rows, columns);
  }

  lemma {:induction false} CellsNeverDuplicate(row: seq<Raw>, columns: seq<Column>)
    requires |row| == |columns|
    ensures NormalizeCells(row, columns) != Err(DuplicateColumn)
  {
    if row != [] { CellsNeverDuplicate(row[1..], columns[1..]); }
  }

  lemma {:induction false} NeverDuplicate(rows: seq<seq<Raw>>, columns: seq<Column>)
    ensures NormalizeRows(rows, columns) != Err(DuplicateColumn)
  {
    if rows != [] {
      if |rows[0]| == |columns| { CellsNeverDuplicate(rows[0], columns); }
      NeverDuplicate(rows[1..], columns);
    }
  }
}
