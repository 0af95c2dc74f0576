/**
 * The column list of a select (SelectColumns): every column is qualified by
 * the current table and appended after a comma.
 */
module SelectColumns {
  import opened Strings
  import opened Options
  import opened Additional
  import opened Statements

  /**
   * createNameColumns: after checkTableName, each item is appended as
   * `table.item`, after a comma when the list is not empty.
   */
  method CreateNameColumns(s: Statement, items: seq<string>)
    requires s.kind == SelectKind
    modifies s`additionalTable, s`frags
    ensures s.additionalTable == CheckedTable(old(s.additionalTable), s.mainTable)
    ensures s.frags == old(s.frags).(columns := AppendSeparated(old(s.frags.columns), Qualify(s.additionalTable, items), ","))
  {
    s.CheckTableName();
    var text := AppendEach(s.frags.columns, Qualify(s.additionalTable, items), ",");
    s.frags := s.frags.(columns := text);
  }

  /**
   * The column list after createNameColumns: the earlier list, a `, ` when
   * it was not empty, then the qualified items separated by `, `.
   */
  lemma ColumnsImploded(columns: string, table: string, items: seq<string>)
    requires items != []
    ensures AppendSeparated(columns, Qualify(table, items), ",")
         == (if Empty(columns) then columns else columns + ", ") + Implode(Qualify(table, items), ", ")
  {
    QualifiedNotEmpty(table, items);
    AppendSeparatedImplode(columns, Qualify(table, items), ",");
  }

  /** column(). */
  method Column(s: Statement, column: string)
    requires s.kind == SelectKind
    modifies s`additionalTable, s`frags
    ensures s.additionalTable == CheckedTable(old(s.additionalTable), s.mainTable)
    ensures s.frags == old(s.frags).(columns := AppendSeparated(old(s.frags.columns), [s.additionalTable + "." + column], ","))
  {
    CreateNameColumns(s, [column]);
  }

  /** columns(): the columns in the order given. */
  method Columns(s: Statement, columns: seq<string>)
    requires s.kind == SelectKind
    modifies s`additionalTable, s`frags
    ensures s.additionalTable == CheckedTable(old(s.additionalTable), s.mainTable)
    ensures s.frags == old(s.frags).(columns := AppendSeparated(old(s.frags.columns), Qualify(s.additionalTable, columns), ","))
  {
    CreateNameColumns(s, columns);
  }

  /** all(): `table.*`. */
  method All(s: Statement)
    requires s.kind == SelectKind
    modifies s`additionalTable, s`frags
    ensures s.additionalTable == CheckedTable(old(s.additionalTable), s.mainTable)
    ensures s.frags == old(s.frags).(columns := AppendSeparated(old(s.frags.columns), [s.additionalTable + ".*"], ","))
  {
    CreateNameColumns(s, ["*"]);
  }

  /** `column AS alias` for each pair, in order: createAlias. */
  function AliasItems(pairs: seq<(string, string)>): (r: seq<string>)
    ensures |r| == |pairs|
    ensures forall i :: 0 <= i < |pairs| ==> r[i] == pairs[i].0 + " AS " + pairs[i].1
  {
    seq(|pairs|, i requires 0 <= i < |pairs| => pairs[i].0 + " AS " + pairs[i].1)
  }

  /** The alias alias() writes: the one given, or `table_column` when it is empty or absent. */
  function DefaultAlias(table: string, column: string, alias: Option<string>): (r: string)
    ensures alias.Some? && !Empty(alias.value) ==> r == alias.value
    ensures alias.None? || Empty(alias.value) ==> r == table + "_" + column
  {
    if alias.Some? && !Empty(alias.value) then alias.value else table + "_" + column
  }

  /** alias(): one `table.column AS alias` item. */
  method Alias(s: Statement, column: string, alias: Option<string>)
    requires s.kind == SelectKind
    modifies s`additionalTable, s`frags
    ensures s.additionalTable == CheckedTable(old(s.additionalTable), s.mainTable)
    ensures s.frags == old(s.frags).(columns := AppendSeparated(old(s.frags.columns),
              [s.additionalTable + "." + column + " AS " + DefaultAlias(s.additionalTable, column, alias)], ","))
  {
    s.CheckTableName();
    var a := DefaultAlias(s.additionalTable, column, alias);
    ghost var t := s.additionalTable;
    CreateNameColumns(s, AliasItems([(column, a)]));
    assert s.additionalTable == t;
    assert Qualify(t, AliasItems([(column, a)])) == [t + "." + column + " AS " + a] by {
      assert AliasItems([(column, a)]) == [column + " AS " + a];
      assert t + "." + (column + " AS " + a) == t + "." + column + " AS " + a;
    }
  }

  /** aliases(): one `table.column AS alias` item per pair, aliases taken as given. */
  method Aliases(s: Statement, pairs: seq<(string, string)>)
    requires s.kind == SelectKind
    modifies s`additionalTable, s`frags
    ensures s.additionalTable == CheckedTable(old(s.additionalTable), s.mainTable)
    ensures s.frags == old(s.frags).(columns := AppendSeparated(old(s.frags.columns), Qualify(s.additionalTable, AliasItems(pairs)), ","))
  {
    CreateNameColumns(s, AliasItems(pairs));
  }
}
