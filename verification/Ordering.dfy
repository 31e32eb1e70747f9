/** Value normalization and the deterministic order of result rows (relational/normalization.py). */
module Ordering {
  import opened Prelude
  import Sorting

  datatype ColumnType = StringType | IntegerType | DecimalType | BooleanType | DateType | DateTimeType | BinaryType

  datatype Column = Column(name: string, valueType: ColumnType, nullable: bool)

  /** A value as an adapter returns it. `decimal` is the finite number the value reads as, if any. */
  datatype Raw =
    | RawNull
    | RawText(text: string, decimal: Option<real>)
    | RawInt(int)
    | RawDecimal(decimal: Option<real>)
    | RawBool(bool)
    | RawDate(day: int)
    | RawDateTime(utc: Instant, aware: bool)
    | RawBytes(bytes: string)

  datatype Cell =
    | Null
    | Text(text: string)
    | Int(n: int)
    | Decimal(number: real)
    | Bool(truth: bool)
    | Date(day: int)
    | DateTime(utc: Instant)
    | Bytes(bytes: string)

  type Row = seq<Cell>

  datatype Direction = Ascending | Descending
  datatype NullPlacement = NullsFirst | NullsLast
  datatype Term = Term(column: string, direction: Direction, nulls: NullPlacement)

  datatype NormalizationError =
    | DuplicateColumn
    | WidthMismatch
    | NotNullable(column: string)
    | TypeMismatch(column: string)
    | OrderColumnAbsent(column: string)

  // ----- Values -----

  predicate OfType(cell: Cell, column: Column) {
    match cell
    case Null => column.nullable
    case Text(_) => column.valueType == StringType
    case Int(_) => column.valueType == IntegerType
    case Decimal(_) => column.valueType == DecimalType
    case Bool(_) => column.valueType == BooleanType
    case Date(_) => column.valueType == DateType
    case DateTime(_) => column.valueType == DateTimeType
    case Bytes(_) => column.valueType == BinaryType
  }

  function NormalizeValue(value: Raw, column: Column): (r: Result<Cell, NormalizationError>)
    ensures r.Ok? ==> OfType(r.value, column)
  {
    var mismatch := Err(TypeMismatch(column.name));
    match value
    case RawNull => if column.nullable then Ok(Null) else Err(NotNullable(column.name))
    case RawText(text, decimal) =>
      if column.valueType == StringType then Ok(Text(text))
      else if column.valueType == DecimalType && decimal.Some? then Ok(Decimal(decimal.value))
      else mismatch
    case RawInt(n) =>
      if column.valueType == IntegerType then Ok(Int(n))
      else if column.valueType == DecimalType then Ok(Decimal(n as real))
      else mismatch
    case RawDecimal(decimal) =>
      if column.valueType == DecimalType && decimal.Some? then Ok(Decimal(decimal.value)) else mismatch
    case RawBool(b) => if column.valueType == BooleanType then Ok(Bool(b)) else mismatch
    case RawDate(day) => if column.valueType == DateType then Ok(Date(day)) else mismatch
    case RawDateTime(utc, aware) =>
      if column.valueType == DateTimeType && aware then Ok(DateTime(utc)) else mismatch
    case RawBytes(bytes) => if column.valueType == BinaryType then Ok(Bytes(bytes)) else mismatch
  }

  /** One well-typed cell for each column. */
  predicate WellTyped(row: Row, columns: seq<Column>) {
    |row| == |columns| && forall i :: 0 <= i < |row| ==> OfType(row[i], columns[i])
  }

  function NormalizeCells(row: seq<Raw>, columns: seq<Column>): (r: Result<Row, NormalizationError>)
    requires |row| == |columns|
    ensures r.Ok? ==> WellTyped(r.value, columns)
  {
    if row == [] then Ok([])
    else
      var first := NormalizeValue(row[0], columns[0]);
      if first.Err? then Err(first.error)
      else
        var rest := NormalizeCells(row[1..], columns[1..]);
        if rest.Err? then rest else Ok([first.value] + rest.value)
  }

  function NormalizeRow(row: seq<Raw>, columns: seq<Column>): (r: Result<Row, NormalizationError>)
    ensures r.Ok? ==> WellTyped(r.value, columns)
  {
    if |row| != |columns| then Err(WidthMismatch) else NormalizeCells(row, columns)
  }

  function NormalizeRows(rows: seq<seq<Raw>>, columns: seq<Column>): (r: Result<seq<Row>, NormalizationError>)
    ensures r.Ok? ==> |r.value| == |rows|
    ensures r.Ok? <==> forall i :: 0 <= i < |rows| ==> NormalizeRow(rows[i], columns).Ok?
    ensures r.Ok? ==> forall i :: 0 <= i < |rows| ==> Ok(r.value[i]) == NormalizeRow(rows[i], columns)
  {
    if rows == [] then Ok([])
    else
      var first := NormalizeRow(rows[0], columns);
      if first.Err? then Err(first.error)
      else
        var rest := NormalizeRows(rows[1..], columns);
        if rest.Err? then rest else Ok([first.value] + rest.value)
  }

  // ----- Comparison -----

  predicate Less(first: Cell, second: Cell)
    requires first.Null? || second.Null? || Comparable(first, second)
  {
    match (first, second)
    case (Text(a), Text(b)) => TextLe(a, b) && a != b
    case (Int(a), Int(b)) => a < b
    case (Decimal(a), Decimal(b)) => a < b
    case (Bool(a), Bool(b)) => !a && b
    case (Date(a), Date(b)) => a < b
    case (DateTime(a), DateTime(b)) => a < b
    case (Bytes(a), Bytes(b)) => TextLe(a, b) && a != b
    case (_, _) => false
  }

  /** Python compares values of one column type only. */
  predicate Comparable(first: Cell, second: Cell) {
    || (first.Text? && second.Text?) || (first.Int? && second.Int?)
    || (first.Decimal? && second.Decimal?) || (first.Bool? && second.Bool?)
    || (first.Date? && second.Date?) || (first.DateTime? && second.DateTime?)
    || (first.Bytes? && second.Bytes?)
  }

  function CompareCells(first: Cell, second: Cell, term: Term): int
    requires first.Null? || second.Null? || Comparable(first, second)
  {
    if first.Null? || second.Null? then
      var comparison := if first.Null? && second.Null? then 0 else if first.Null? then -1 else 1;
      if term.nulls.NullsLast? then -comparison else comparison
    else
      var comparison := (if Less(second, first) then 1 else 0) - (if Less(first, second) then 1 else 0);
      if term.direction.Descending? then -comparison else comparison
  }

  type Index = (nat, Term)

  predicate Within(indexes: seq<Index>, columns: seq<Column>) {
    forall i :: 0 <= i < |indexes| ==> indexes[i].0 < |columns|
  }

  lemma FitsComparable(left: Row, right: Row, columns: seq<Column>, i: nat)
    requires WellTyped(left, columns) && WellTyped(right, columns) && i < |columns|
    ensures left[i].Null? || right[i].Null? || Comparable(left[i], right[i])
  {
    assert OfType(left[i], columns[i]) && OfType(right[i], columns[i]);
  }

  function CompareRows(left: Row, right: Row, indexes: seq<Index>, columns: seq<Column>): int
    requires WellTyped(left, columns) && WellTyped(right, columns) && Within(indexes, columns)
  {
    if indexes == [] then 0
    else
      FitsComparable(left, right, columns, indexes[0].0);
      var comparison := CompareCells(left[indexes[0].0], right[indexes[0].0], indexes[0].1);
      if comparison != 0 then comparison
      else CompareRows(left, right, indexes[1..], columns)
  }

  lemma LessAsymmetric(a: Cell, b: Cell)
    requires Comparable(a, b)
    ensures !(Less(a, b) && Less(b, a))
  {
    if a.Text? && Less(a, b) && Less(b, a) { TextLeAntisymmetric(a.text, b.text); }
    if a.Bytes? && Less(a, b) && Less(b, a) { TextLeAntisymmetric(a.bytes, b.bytes); }
  }

  lemma CellsAntisymmetric(a: Cell, b: Cell, term: Term)
    requires a.Null? || b.Null? || Comparable(a, b)
    ensures CompareCells(a, b, term) == -CompareCells(b, a, term)
  {}

  /** On one column type `Less` is a strict order in which incomparable values are equal. */
  lemma LessTransitive(a: Cell, b: Cell, c: Cell)
    requires Comparable(a, b) && Comparable(b, c)
    ensures !Less(b, a) && !Less(c, b) ==> !Less(c, a)
    ensures Comparable(a, c)
  {
    if a.Text? {
      TextLeTotal(a.text, b.text); TextLeTotal(b.text, c.text);
      if TextLe(a.text, b.text) && TextLe(b.text, c.text) {
        TextLeTransitive(a.text, b.text, c.text);
        if TextLe(c.text, a.text) { TextLeAntisymmetric(a.text, c.text); }
      }
    } else if a.Bytes? {
      TextLeTotal(a.bytes, b.bytes); TextLeTotal(b.bytes, c.bytes);
      if TextLe(a.bytes, b.bytes) && TextLe(b.bytes, c.bytes) {
        TextLeTransitive(a.bytes, b.bytes, c.bytes);
        if TextLe(c.bytes, a.bytes) { TextLeAntisymmetric(a.bytes, c.bytes); }
      }
    }
  }

  lemma CellsTransitive(a: Cell, b: Cell, c: Cell, term: Term)
    requires a.Null? || b.Null? || Comparable(a, b)
    requires b.Null? || c.Null? || Comparable(b, c)
    requires a.Null? || c.Null? || Comparable(a, c)
    requires CompareCells(a, b, term) <= 0 && CompareCells(b, c, term) <= 0
    ensures CompareCells(a, c, term) <= 0
  {
    if !a.Null? && !b.Null? && !c.Null? {
      LessAsymmetric(a, b);
      LessAsymmetric(b, c);
      LessTransitive(a, b, c);
      LessTransitive(c, b, a);
    }
  }

  lemma {:induction false} RowsAntisymmetric(a: Row, b: Row, indexes: seq<Index>, columns: seq<Column>)
    requires WellTyped(a, columns) && WellTyped(b, columns) && Within(indexes, columns)
    ensures CompareRows(a, b, indexes, columns) == -CompareRows(b, a, indexes, columns)
  {
    if indexes != [] {
      var i := indexes[0].0;
      FitsComparable(a, b, columns, i);
      CellsAntisymmetric(a[i], b[i], indexes[0].1);
      RowsAntisymmetric(a, b, indexes[1..], columns);
    }
  }

  lemma {:induction false} RowsTransitive(a: Row, b: Row, c: Row, indexes: seq<Index>, columns: seq<Column>)
    requires WellTyped(a, columns) && WellTyped(b, columns) && WellTyped(c, columns) && Within(indexes, columns)
    requires CompareRows(a, b, indexes, columns) <= 0 && CompareRows(b, c, indexes, columns) <= 0
    ensures CompareRows(a, c, indexes, columns) <= 0
  {
    if indexes != [] {
      var (i, term) := indexes[0];
      FitsComparable(a, b, columns, i); FitsComparable(b, c, columns, i); FitsComparable(a, c, columns, i);
      CellsTransitive(a[i], b[i], c[i], term);
      if CompareCells(a[i], c[i], term) == 0 {
        // A strict step would come back round: c <= a <= b gives c <= b, and b <= c <= a gives b <= a.
        CellsAntisymmetric(a[i], b[i], term); CellsAntisymmetric(b[i], c[i], term); CellsAntisymmetric(a[i], c[i], term);
        CellsTransitive(c[i], a[i], b[i], term);
        CellsTransitive(b[i], c[i], a[i], term);
        RowsTransitive(a, b, c, indexes[1..], columns);
      }
    }
  }

  /** The comparison `sorted` uses. Rows that do not fit the columns never reach the sort. */
  predicate Precedes(left: Row, right: Row, indexes: seq<Index>, columns: seq<Column>)
    requires Within(indexes, columns)
  {
    if !WellTyped(left, columns) then true
    else WellTyped(right, columns) && CompareRows(left, right, indexes, columns) <= 0
  }

  function Order(indexes: seq<Index>, columns: seq<Column>): (Row, Row) -> bool
    requires Within(indexes, columns)
  {
    (left, right) => Precedes(left, right, indexes, columns)
  }

  lemma OrderIsPreorder(indexes: seq<Index>, columns: seq<Column>)
    requires Within(indexes, columns)
    ensures Sorting.Preorder(Order(indexes, columns))
  {
    var le := Order(indexes, columns);
    forall x, y ensures le(x, y) || le(y, x) {
      if WellTyped(x, columns) && WellTyped(y, columns) { RowsAntisymmetric(x, y, indexes, columns); }
    }
    forall x, y, z | le(x, y) && le(y, z) ensures le(x, z) {
      if WellTyped(x, columns) && WellTyped(y, columns) && WellTyped(z, columns) { RowsTransitive(x, y, z, indexes, columns); }
    }
  }

  // ----- Normalized results -----

  /** `_order_indexes`: the position of each ordering column, whose names are unique. */
  function Position(name: string, columns: seq<Column>): (r: Option<nat>)
    ensures r.Some? ==> r.value < |columns| && columns[r.value].name == name
    ensures r.None? ==> forall c :: c in columns ==> c.name != name
  {
    if columns == [] then None
    else if columns[0].name == name then Some(0)
    else
      var rest := Position(name, columns[1..]);
      if rest.None? then None else Some(rest.value + 1)
  }

  function OrderIndexes(terms: seq<Term>, columns: seq<Column>): (r: Result<seq<Index>, NormalizationError>)
    ensures r.Ok? ==> Within(r.value, columns) && |r.value| == |terms|
    ensures r.Ok? ==> forall i :: 0 <= i < |terms| ==>
      r.value[i].1 == terms[i] && columns[r.value[i].0].name == terms[i].column
  {
    if terms == [] then Ok([])
    else
      var position := Position(terms[0].column, columns);
      if position.None? then Err(OrderColumnAbsent(terms[0].column))
      else
        var rest := OrderIndexes(terms[1..], columns);
        if rest.Err? then rest else Ok([(position.value, terms[0])] + rest.value)
  }

  predicate NamesUnique(columns: seq<Column>) {
    forall i, j :: 0 <= i < j < |columns| ==> columns[i].name != columns[j].name
  }

  /** `normalize_result`; an empty list of terms leaves the adapter's order. */
  function NormalizeResult(rows: seq<seq<Raw>>, columns: seq<Column>, terms: seq<Term>)
    : (r: Result<seq<Row>, NormalizationError>)
  {
    if !NamesUnique(columns) then Err(DuplicateColumn)
    else
      var normalized := NormalizeRows(rows, columns);
      if normalized.Err? || terms == [] then normalized
      else
        var indexes := OrderIndexes(terms, columns);
        if indexes.Err? then Err(indexes.error)
        else Ok(Sorting.Sort(Order(indexes.value, columns), normalized.value))
  }

  /** With no terms every two rows tie, so the stable sort is the identity. */
  lemma NoTermsKeepOrder(columns: seq<Column>, rows: seq<Row>)
    requires forall i :: 0 <= i < |rows| ==> WellTyped(rows[i], columns)
    ensures Sorting.Sort(Order([], columns), rows) == rows
  {
    var le := Order([], columns);
    forall i, j | 0 <= i < j < |rows| ensures le(rows[i], rows[j]) {
      assert WellTyped(rows[i], columns) && WellTyped(rows[j], columns);
    }
    Sorting.SortIdentity(le, rows);
  }

  /** What an accepted result is: the normalized rows, sorted by the terms. */
  lemma ResultIsSort(rows: seq<seq<Raw>>, columns: seq<Column>, terms: seq<Term>)
    requires NormalizeResult(rows, columns, terms).Ok?
    ensures NormalizeRows(rows, columns).Ok? && OrderIndexes(terms, columns).Ok?
    ensures NormalizeResult(rows, columns, terms).value
         == Sorting.Sort(Order(OrderIndexes(terms, columns).value, columns), NormalizeRows(rows, columns).value)
  {
    if terms == [] {
      var normalized := NormalizeRows(rows, columns).value;
      forall i | 0 <= i < |normalized| ensures WellTyped(normalized[i], columns) {
        assert Ok(normalized[i]) == NormalizeRow(rows[i], columns);
      }
      NoTermsKeepOrder(columns, normalized);
    }
  }

  /** Rows of an accepted result are a permutation of the normalized rows, in order, ties as delivered. */
  lemma ResultIsSortedPermutation(rows: seq<seq<Raw>>, columns: seq<Column>, terms: seq<Term>)
    requires NormalizeResult(rows, columns, terms).Ok?
    ensures NormalizeRows(rows, columns).Ok? && OrderIndexes(terms, columns).Ok?
    ensures var result := NormalizeResult(rows, columns, terms).value;
            var normalized := NormalizeRows(rows, columns).value;
            var indexes := OrderIndexes(terms, columns).value;
            && multiset(result) == multiset(normalized)
            && (forall i :: 0 <= i < |result| ==> WellTyped(result[i], columns))
            && (forall i, j :: 0 <= i < j < |result| ==> CompareRows(result[i], result[j], indexes, columns) <= 0)
            && (forall row :: Sorting.Ties(Order(indexes, columns), row, result)
                           == Sorting.Ties(Order(indexes, columns), row, normalized))
  {
    ResultIsSort(rows, columns, terms);
    var normalized := NormalizeRows(rows, columns).value;
    var indexes := OrderIndexes(terms, columns).value;
    var le := Order(indexes, columns);
    OrderIsPreorder(indexes, columns);
    Sorting.SortSorted(le, normalized);
    var result := NormalizeResult(rows, columns, terms).value;
    Sorting.SameElements(result, normalized);
    forall i | 0 <= i < |result| ensures WellTyped(result[i], columns) {
      assert result[i] in normalized;
      var j :| 0 <= j < |normalized| && normalized[j] == result[i];
      assert Ok(normalized[j]) == NormalizeRow(rows[j], columns);
    }
    forall i, j | 0 <= i < j < |result| ensures CompareRows(result[i], result[j], indexes, columns) <= 0 {
      assert le(result[i], result[j]);
    }
    forall row ensures Sorting.Ties(le, row, result) == Sorting.Ties(le, row, normalized) {
      Sorting.SortStable(le, normalized, row);
    }
  }

  // ----- Independence from the adapter's order -----

  /** The ordering terms tell distinct rows apart. */
  ghost predicate Distinguishes(rows: seq<Row>, indexes: seq<Index>, columns: seq<Column>)
    requires Within(indexes, columns)
  {
    forall x, y :: x in rows && y in rows && Sorting.Tie(Order(indexes, columns), x, y) ==> x == y
  }

  /** The same raw rows in another order normalize to the same rows in another order. */
  lemma NormalizePermutation(a: seq<seq<Raw>>, b: seq<seq<Raw>>, columns: seq<Column>)
    requires multiset(a) == multiset(b) && NormalizeRows(a, columns).Ok?
    ensures NormalizeRows(b, columns).Ok?
    ensures multiset(NormalizeRows(b, columns).value) == multiset(NormalizeRows(a, columns).value)
  {
    Sorting.SameElements(a, b);
    forall j | 0 <= j < |b| ensures NormalizeRow(b[j], columns).Ok? {
      assert b[j] in a;
    }
    var image := (row: seq<Raw>) => var r := NormalizeRow(row, columns); if r.Ok? then r.value else [];
    MapPermutation(image, a, b);
    assert NormalizeRows(a, columns).value == Map(image, a);
    assert NormalizeRows(b, columns).value == Map(image, b);
  }

  ghost predicate AdapterIndependent(rows: seq<seq<Raw>>, columns: seq<Column>, terms: seq<Term>) {
    forall other :: multiset(other) == multiset(rows) ==>
      NormalizeResult(other, columns, terms) == NormalizeResult(rows, columns, terms)
  }

  lemma DistinguishedIsIndependent(rows: seq<seq<Raw>>, columns: seq<Column>, terms: seq<Term>)
    requires NormalizeResult(rows, columns, terms).Ok?
    requires NormalizeRows(rows, columns).Ok? && OrderIndexes(terms, columns).Ok?
    requires Distinguishes(NormalizeRows(rows, columns).value, OrderIndexes(terms, columns).value, columns)
    ensures AdapterIndependent(rows, columns, terms)
  {
    var indexes := OrderIndexes(terms, columns).value;
    OrderIsPreorder(indexes, columns);
    forall other | multiset(other) == multiset(rows)
      ensures NormalizeResult(other, columns, terms) == NormalizeResult(rows, columns, terms)
    {
      NormalizePermutation(rows, other, columns);
      ResultIsSort(rows, columns, terms);
      ResultIsSort(other, columns, terms);
      Sorting.SortUniquelyDetermined(Order(indexes, columns), NormalizeRows(rows, columns).value,
                                     NormalizeRows(other, columns).value);
    }
  }

  /** The same elements with the one at `i` in front. */
  function InFront<T>(s: seq<T>, i: nat): (r: seq<T>)
    requires i < |s|
    ensures multiset(r) == multiset(s) && r != [] && r[0] == s[i]
  {
    [s[i]] + Without(s, i)
  }

  /** A tie between distinct rows shows the order in which the adapter delivered them. */
  lemma TieExposesAdapter(rows: seq<seq<Raw>>, columns: seq<Column>, terms: seq<Term>, i: nat, j: nat)
    requires NormalizeResult(rows, columns, terms).Ok?
    requires NormalizeRows(rows, columns).Ok? && OrderIndexes(terms, columns).Ok?
    requires i < |rows| && j < |rows|
    requires var normalized := NormalizeRows(rows, columns).value;
             && normalized[i] != normalized[j]
             && Sorting.Tie(Order(OrderIndexes(terms, columns).value, columns), normalized[i], normalized[j])
    ensures !AdapterIndependent(rows, columns, terms)
  {
    var indexes, normalized := OrderIndexes(terms, columns).value, NormalizeRows(rows, columns).value;
    var one, two := InFront(rows, i), InFront(rows, j);
    var x, y := normalized[i], normalized[j];
    TieReflexive(indexes, columns, x, y);
    DeliveredFirst(rows, one, columns, terms, x, x);
    DeliveredFirst(rows, two, columns, terms, x, y);
    assert NormalizeResult(one, columns, terms) != NormalizeResult(two, columns, terms);
  }

  /** Whichever row an adapter delivers first comes first among the rows that tie with it. */
  lemma DeliveredFirst(rows: seq<seq<Raw>>, other: seq<seq<Raw>>, columns: seq<Column>, terms: seq<Term>, x: Row, head: Row)
    requires NormalizeResult(rows, columns, terms).Ok? && OrderIndexes(terms, columns).Ok?
    requires NormalizeRows(rows, columns).Ok? && multiset(other) == multiset(rows) && other != []
    requires NormalizeRow(other[0], columns) == Ok(head)
    requires Sorting.Tie(Order(OrderIndexes(terms, columns).value, columns), head, x)
    ensures NormalizeResult(other, columns, terms).Ok?
    ensures var ties := Sorting.Ties(Order(OrderIndexes(terms, columns).value, columns), x,
                                     NormalizeResult(other, columns, terms).value);
            ties != [] && ties[0] == head
  {
    NormalizePermutation(rows, other, columns);
    var delivered := NormalizeRows(other, columns).value;
    assert Ok(delivered[0]) == NormalizeRow(other[0], columns);
    ResultIsSortedPermutation(other, columns, terms);
    TiesStartWithHead(OrderIndexes(terms, columns).value, columns, x, delivered);
  }

  lemma TieReflexive(indexes: seq<Index>, columns: seq<Column>, x: Row, y: Row)
    requires Within(indexes, columns) && Sorting.Tie(Order(indexes, columns), x, y)
    ensures Sorting.Tie(Order(indexes, columns), x, x) && Sorting.Tie(Order(indexes, columns), y, x)
  {
    OrderIsPreorder(indexes, columns);
    var le := Order(indexes, columns);
    assert le(x, x) || le(x, x);
  }

  lemma TiesStartWithHead(indexes: seq<Index>, columns: seq<Column>, x: Row, rows: seq<Row>)
    requires Within(indexes, columns) && rows != []
    requires Sorting.Tie(Order(indexes, columns), rows[0], x)
    ensures Sorting.Ties(Order(indexes, columns), x, rows) != []
    ensures Sorting.Ties(Order(indexes, columns), x, rows)[0] == rows[0]
  {}

  /** Results do not depend on the adapter's row order exactly when the terms tell distinct rows apart. */
  lemma IndependentIffDistinguished(rows: seq<seq<Raw>>, columns: seq<Column>, terms: seq<Term>)
    requires NormalizeResult(rows, columns, terms).Ok?
    ensures NormalizeRows(rows, columns).Ok? && OrderIndexes(terms, columns).Ok?
    ensures AdapterIndependent(rows, columns, terms) <==>
      Distinguishes(NormalizeRows(rows, columns).value, OrderIndexes(terms, columns).value, columns)
  {
    ResultIsSort(rows, columns, terms);
    var normalized, indexes := NormalizeRows(rows, columns).value, OrderIndexes(terms, columns).value;
    if Distinguishes(normalized, indexes, columns) {
      DistinguishedIsIndependent(rows, columns, terms);
    } else {
      var x, y :| x in normalized && y in normalized && Sorting.Tie(Order(indexes, columns), x, y) && x != y;
      var i :| 0 <= i < |normalized| && normalized[i] == x;
      var j :| 0 <= j < |normalized| && normalized[j] == y;
      TieExposesAdapter(rows, columns, terms, i, j);
    }
  }
}
