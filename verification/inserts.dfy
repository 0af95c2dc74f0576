/**
 * The insert statement (Insert): a bracketed column list qualified by the
 * table, rows of values bound as placeholders (or left as empty placeholders
 * to fill later), and an ON DUPLICATE KEY UPDATE clause.
 */
module Inserts {
  import opened Strings
  import opened Options
  import opened Placeholders
  import opened Additional
  import opened Statements

  /** getColumnsList: the column clause without its brackets, split at `, `. */
  function ColumnList(columns: string): (r: seq<string>)
    ensures |r| >= 1
  {
    Explode(TrimBrackets(columns), ", ")
  }

  /** columns(): each column qualified by the main table; the clause is the bracketed list and replaces any earlier one. */
  method Columns(s: Statement, columns: seq<string>)
    requires s.kind == InsertKind
    modifies s`frags
    ensures s.frags == old(s.frags).(columns := Bracketed(Implode(Qualify(s.mainTable, columns), ", ")))
  {
    var qualified := [];
    var i := 0;
    while i < |columns|
      invariant 0 <= i <= |columns|
      invariant qualified == Qualify(s.mainTable, columns[..i])
    {
      qualified := qualified + [s.mainTable + "." + columns[i]];
      i := i + 1;
    }
    assert columns[..|columns|] == columns;
    s.frags := s.frags.(columns := Bracketed(Implode(qualified, ", ")));
  }

  /** A text without commas and brackets. */
  predicate Plain(x: string) {
    forall i :: 0 <= i < |x| ==> x[i] != ',' && !IsBracket(x[i])
  }

  /** A character in neither the parts nor the separator is not in their implode. */
  lemma {:induction false} ImplodeAvoids(parts: seq<string>, sep: string, c: char)
    requires c !in sep && forall i :: 0 <= i < |parts| ==> c !in parts[i]
    ensures c !in Implode(parts, sep)
  {
    if |parts| > 1 {
      ImplodeAvoids(parts[1..], sep, c);
      assert c !in parts[0];
    }
  }

  /**
   * The column list read back by values() and prepareValues() is the list
   * columns() wrote, when neither the table nor a column holds a comma or a
   * bracket.
   */
  lemma ColumnListRoundTrip(table: string, columns: seq<string>)
    requires columns != [] && Plain(table)
    requires forall i :: 0 <= i < |columns| ==> Plain(columns[i])
    ensures ColumnList(Bracketed(Implode(Qualify(table, columns), ", "))) == Qualify(table, columns)
  {
    var parts := Qualify(table, columns);
    var body := Implode(parts, ", ");
    forall i, c | 0 <= i < |parts| && (c == ',' || c == '(' || c == ')')
      ensures c !in parts[i]
    {
      var p := parts[i];
      assert p == table + "." + columns[i];
      forall j | 0 <= j < |p| ensures p[j] != c {
        if j < |table| {
          assert p[j] == table[j];
        } else if j > |table| {
          assert p[j] == columns[i][j - |table| - 1];
        }
      }
    }
    ImplodeAvoids(parts, ", ", '(');
    ImplodeAvoids(parts, ", ", ')');
    assert body != [] ==> body[0] in body && body[|body| - 1] in body;
    TrimBracketed(body);
    assert Bracketed(body) == "(" + body + ")";
    ExplodeImplode(parts, ", ");
  }

  /**
   * values(): each value, in double quotes, is bound under a token named
   * after the column at the same position; the row is the tokens joined by
   * commas, in brackets, added after a comma when rows exist.
   */
  method Values(s: Statement, values: seq<Scalar>) returns (tokens: seq<string>)
    requires s.kind == InsertKind && s.Valid()
    requires |values| <= |ColumnList(s.frags.columns)|
    modifies s`params, s`frags
    ensures var a := AllocateEach(old(s.params), ColumnList(old(s.frags.columns))[..|values|], QuotedAll(values));
            tokens == a.tokens && s.params == a.entries
            && s.frags == old(s.frags).(values := AddSeparator(old(s.frags.values), ",") + Bracketed(Implode(a.tokens, ",")))
    ensures s.Valid()
  {
    var columns := ColumnList(s.frags.columns);
    tokens := AllocateColumns(s, columns[..|values|], QuotedAll(values));
    s.frags := s.frags.(values := AddSeparator(s.frags.values, ",") + Bracketed(Implode(tokens, ",")));
  }

  /** Each token values() allocates is named after its column, and the map keeps unique keys. */
  lemma ValuesTokensNamed(m: seq<Entry>, columns: seq<string>, values: seq<Scalar>)
    requires |values| <= |columns| && UniqueKeys(m)
    ensures var a := AllocateEach(m, columns[..|values|], QuotedAll(values));
            && (forall i :: 0 <= i < |values| ==> MatchesBase(a.tokens[i], BaseOf(columns[i])))
            && UniqueKeys(a.entries)
  {
    forall i | 0 <= i < |values| ensures MatchesBase(AllocateEach(m, columns[..|values|], QuotedAll(values)).tokens[i], BaseOf(columns[i])) {
      AllocateEachNamed(m, columns[..|values|], QuotedAll(values), i);
    }
    AllocateEachUnique(m, columns[..|values|], QuotedAll(values));
  }

  /** The placeholder rows prepareValues() allocates, each the tokens of one row in column order, and the map afterwards. */
  datatype Prepared = Prepared(rows: seq<seq<string>>, entries: seq<Entry>)

  /** k rows of empty placeholders, one per column each. */
  function PrepareRows(m: seq<Entry>, columns: seq<string>, k: nat): (p: Prepared)
    ensures |p.rows| == k
  {
    if k == 0 then Prepared([], m)
    else
      var p := PrepareRows(m, columns, k - 1);
      var a := AllocateEach(p.entries, columns, Blanks(|columns|));
      Prepared(p.rows + [a.tokens], a.entries)
  }

  /** The text of one row: its tokens joined by `, `, in brackets. */
  function RowText(tokens: seq<string>): string {
    Bracketed(Implode(tokens, ", "))
  }

  function RowTexts(rows: seq<seq<string>>): (r: seq<string>)
    ensures |r| == |rows| && forall i :: 0 <= i < |rows| ==> r[i] == RowText(rows[i])
  {
    seq(|rows|, i requires 0 <= i < |rows| => RowText(rows[i]))
  }

  /**
   * prepareValues(): as many rows as asked for (none for zero or fewer), each
   * a bracketed list of fresh placeholders bound to the empty string, one per
   * column; each row is added after a comma when rows exist.
   */
  method PrepareValues(s: Statement, times: int)
    requires s.kind == InsertKind && s.Valid()
    modifies s`params, s`frags
    ensures var p := PrepareRows(old(s.params), ColumnList(old(s.frags.columns)), if times < 0 then 0 else times);
            s.params == p.entries && s.frags == old(s.frags).(values := AppendSeparated(old(s.frags.values), RowTexts(p.rows), ","))
    ensures s.Valid()
  {
    var columns := ColumnList(s.frags.columns);
    ghost var m0 := s.params;
    var text := s.frags.values;
    var i := 1;
    while i <= times
      invariant 1 <= i <= (if times < 0 then 0 else times) + 1
      invariant s.Valid() && s.frags == old(s.frags)
      invariant s.params == PrepareRows(m0, columns, i - 1).entries
      invariant text == AppendSeparated(old(s.frags.values), RowTexts(PrepareRows(m0, columns, i - 1).rows), ",")
    {
      var row := PrepareRow(s, columns);
      PrepareRowsStep(m0, columns, i, old(s.frags.values));
      text := AddSeparator(text, ",") + row;
      i := i + 1;
    }
    assert i - 1 == if times < 0 then 0 else times;
    s.frags := s.frags.(values := text);
  }

  /** One row of prepareValues(): a fresh empty placeholder per column, joined by `, ` and bracketed. */
  method PrepareRow(s: Statement, columns: seq<string>) returns (row: string)
    requires s.Valid()
    modifies s`params
    ensures var a := AllocateEach(old(s.params), columns, Blanks(|columns|));
            row == RowText(a.tokens) && s.params == a.entries
    ensures s.Valid()
  {
    var tokens := AllocateColumns(s, columns, Blanks(|columns|));
    row := Bracketed(Implode(tokens, ", "));
  }

  /** How the values clause and the map grow by one row of prepareValues(). */
  lemma PrepareRowsStep(m: seq<Entry>, columns: seq<string>, k: nat, text: string)
    requires k >= 1
    ensures var p := PrepareRows(m, columns, k - 1);
            var a := AllocateEach(p.entries, columns, Blanks(|columns|));
            && PrepareRows(m, columns, k).entries == a.entries
            && AppendSeparated(text, RowTexts(PrepareRows(m, columns, k).rows), ",")
               == AddSeparator(AppendSeparated(text, RowTexts(p.rows), ","), ",") + RowText(a.tokens)
  {
    var p := PrepareRows(m, columns, k - 1);
    var a := AllocateEach(p.entries, columns, Blanks(|columns|));
    var q := PrepareRows(m, columns, k);
    assert q == Prepared(p.rows + [a.tokens], a.entries);
    var texts := RowTexts(q.rows);
    assert texts == RowTexts(p.rows) + [RowText(a.tokens)];
    assert texts[..|texts| - 1] == RowTexts(p.rows);
  }

  /**
   * Every placeholder prepareValues() writes is bound to the empty string, so
   * it stays unbound until getAll() is given values for it.
   */
  lemma {:induction false} PrepareRowsUnbound(m: seq<Entry>, columns: seq<string>, k: nat, i: nat, t: string)
    requires i < k && t in PrepareRows(m, columns, k).rows[i]
    ensures t in Keys(PrepareRows(m, columns, k).entries)
    ensures Lookup(PrepareRows(m, columns, k).entries, t) == ""
  {
    var p := PrepareRows(m, columns, k - 1);
    var blanks := Blanks(|columns|);
    var a := AllocateEach(p.entries, columns, blanks);
    assert PrepareRows(m, columns, k) == Prepared(p.rows + [a.tokens], a.entries);
    if i == k - 1 {
      AllocateEachBinds(p.entries, columns, t);
    } else {
      assert p.rows[i] == (p.rows + [a.tokens])[i];
      PrepareRowsUnbound(m, columns, k - 1, i, t);
      AllocateEachKeeps(p.entries, columns, t);
    }
  }

  /** The columns argument of dublicateKey(): one name, or an array of names. */
  datatype DupColumns = ColumnName(name: string) | ColumnNames(names: seq<string>)

  /** The values argument of dublicateKey(): one string, or an array of strings and ints. */
  datatype DupValues = ValueText(text: string) | ValueList(items: seq<Scalar>)

  /** A single column with an array of values, or an array of columns with a single value: ignored. */
  predicate Mismatched(columns: DupColumns, values: DupValues) {
    (columns.ColumnName? && !values.ValueText?) || (columns.ColumnNames? && !values.ValueList?)
  }

  /** The do-while runs at least once: an empty array of columns still yields one row. */
  function Rounds(columns: DupColumns): (n: nat)
    ensures n >= 1
  {
    if columns.ColumnName? || |columns.names| == 0 then 1 else |columns.names|
  }

  /** The column of round i: the array's i-th name, or nothing (null) when the array is empty. */
  function DupColumn(columns: DupColumns, i: nat): string {
    if columns.ColumnName? then columns.name else if i < |columns.names| then columns.names[i] else ""
  }

  /** The value of round i, before quoting. */
  function DupValue(values: DupValues, i: nat): Scalar
    requires values.ValueList? ==> i < |values.items|
  {
    if values.ValueText? then Text(values.text) else values.items[i]
  }

  /** Enough values for every round: array_shift never runs dry. */
  predicate EnoughValues(columns: DupColumns, values: DupValues) {
    values.ValueList? ==> |values.items| >= Rounds(columns)
  }

  /** The row of round i: `table.column = "value"`. */
  function DuplicateRow(table: string, columns: DupColumns, values: DupValues, i: nat): (r: string)
    requires values.ValueList? ==> i < |values.items|
    ensures |r| >= 2
  {
    table + "." + DupColumn(columns, i) + " = " + Quoted(DupValue(values, i))
  }

  /** The rows, one per round. */
  function DuplicateRows(table: string, columns: DupColumns, values: DupValues): (r: seq<string>)
    requires EnoughValues(columns, values)
    ensures |r| == Rounds(columns)
    ensures forall i :: 0 <= i < |r| ==> r[i] == DuplicateRow(table, columns, values, i)
  {
    seq(Rounds(columns), i requires 0 <= i < Rounds(columns) => DuplicateRow(table, columns, values, i))
  }

  const DuplicateText := "ON DUPLICATE KEY UPDATE "

  /**
   * dublicateKey(): mismatched arguments change nothing; otherwise one row
   * per round is added to the clause after a comma, and the clause then gets
   * `ON DUPLICATE KEY UPDATE ` in front.
   */
  method DublicateKey(s: Statement, columns: DupColumns, values: DupValues)
    requires s.kind == InsertKind
    requires !Mismatched(columns, values) ==> EnoughValues(columns, values)
    modifies s`frags
    ensures Mismatched(columns, values) ==> s.frags == old(s.frags)
    ensures !Mismatched(columns, values) ==>
              s.frags == old(s.frags).(duplicate := DuplicateText + AppendSeparated(old(s.frags.duplicate), DuplicateRows(s.mainTable, columns, values), ","))
  {
    if Mismatched(columns, values) {
      return;
    }
    AddDuplicateRows(s, columns, values);
    s.frags := s.frags.(duplicate := DuplicateText + s.frags.duplicate);
  }

  /** The do-while of dublicateKey(): one row per round, each after a comma. */
  method AddDuplicateRows(s: Statement, columns: DupColumns, values: DupValues)
    requires EnoughValues(columns, values)
    modifies s`frags
    ensures s.frags == old(s.frags).(duplicate := AppendSeparated(old(s.frags.duplicate), DuplicateRows(s.mainTable, columns, values), ","))
  {
    var text := AppendEach(s.frags.duplicate, DuplicateRows(s.mainTable, columns, values), ",");
    s.frags := s.frags.(duplicate := text);
  }

  /**
   * On an empty clause the result is the keyword and the rows joined by
   * `, `; on a clause already set, the new rows follow after a comma and the
   * keyword is written in front once more, so it appears twice.
   */
  lemma DuplicateClause(table: string, columns: DupColumns, values: DupValues, old_: string)
    requires EnoughValues(columns, values)
    ensures var rows := DuplicateRows(table, columns, values);
            var r := DuplicateText + AppendSeparated(old_, rows, ",");
            && (old_ == "" ==> r == DuplicateText + Implode(rows, ", "))
            && (!Empty(old_) ==> r == DuplicateText + old_ + ", " + Implode(rows, ", "))
  {
    var rows := DuplicateRows(table, columns, values);
    forall i | 0 <= i < |rows| ensures !Empty(rows[i]) {
      assert |DuplicateRow(table, columns, values, i)| >= 2;
    }
    KeywordBeforeRows(old_, rows);
  }

  /** The clause text after rows that are all non-empty are added to it and the keyword is put in front. */
  lemma KeywordBeforeRows(old_: string, rows: seq<string>)
    requires rows != [] && forall i :: 0 <= i < |rows| ==> !Empty(rows[i])
    ensures var r := DuplicateText + AppendSeparated(old_, rows, ",");
            && (old_ == "" ==> r == DuplicateText + Implode(rows, ", "))
            && (!Empty(old_) ==> r == DuplicateText + old_ + ", " + Implode(rows, ", "))
  {
    AppendSeparatedImplode(old_, rows, ",");
    var joined := Implode(rows, ", ");
    assert SeparatorText(",") == ", ";
    if old_ == "" {
      EmptyPrefix(joined);
    } else if !Empty(old_) {
      Assoc4(DuplicateText, old_, ", ", joined);
    }
  }
}
