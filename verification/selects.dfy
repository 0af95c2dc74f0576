/**
 * The operations only a select statement has (Select): aggregate columns,
 * DISTINCT, and switching the table later column helpers qualify with.
 * where(), having() and join() open the chains of the Conditions and Joins
 * modules.
 */
module Selects {
  import opened Strings
  import opened Options
  import opened SqlFunctions
  import opened Additional
  import opened Statements

  /**
   * sqlFunctions(): a known function adds its template to the column list,
   * after a comma when the list is not empty; an unknown one changes nothing
   * but the current table (which falls back to the main table when no table
   * was passed).
   */
  method SqlFunctionColumn(s: Statement, name: string, column: string, table: Option<string>, alias: Option<string>)
    requires s.kind == SelectKind
    modifies s`additionalTable, s`frags
    ensures s.additionalTable == TableAfter(table, old(s.additionalTable), s.mainTable)
    ensures var sql := GetSqlFunction(Some(name), column, TableFor(table, old(s.additionalTable), s.mainTable), OrEmpty(alias));
            s.frags == if sql.Some? then old(s.frags).(columns := AddSeparator(old(s.frags.columns), ",") + sql.value) else old(s.frags)
  {
    var t := if table.Some? then table.value else "";
    if Empty(t) {
      s.CheckTableName();
      t := s.additionalTable;
    }
    var sql := GetSqlFunction(Some(name), column, t, OrEmpty(alias));
    if sql.Some? {
      s.frags := s.frags.(columns := AddSeparator(s.frags.columns, ",") + sql.value);
    }
  }

  /**
   * What sqlFunctions() adds for a known function: its SQL name, the column
   * qualified by the table unless it is `*`, and the alias when one is given.
   */
  lemma SqlFunctionColumnText(f: SqlFunc, column: string, table: string, alias: Option<string>)
    ensures var sql := GetSqlFunction(Some(Tag(f)), column, table, OrEmpty(alias));
            && sql.Some?
            && SqlName(f) + "(" <= sql.value
            && (column != "*" ==> SqlName(f) + "(" + table + "." <= sql.value)
            && (column == "*" ==> SqlName(f) + "(*)" <= sql.value)
            && (alias.Some? && !Empty(alias.value) ==>
                  |sql.value| > |alias.value| + 4 && sql.value[|sql.value| - |alias.value| - 4..] == " AS " + alias.value)
  {
    var sql := GetSqlFunction(Some(Tag(f)), column, table, OrEmpty(alias));
    assert FromTag(Tag(f)) == Some(f);
    var r := FuncQuery(column, table, SqlName(f), OrEmpty(alias));
    assert sql.value == r;
  }

  /** distinct(). */
  method Distinct(s: Statement)
    requires s.kind == SelectKind
    modifies s`frags
    ensures s.frags == old(s.frags).(distinct := "DISTINCT")
  {
    s.frags := s.frags.(distinct := "DISTINCT");
  }

  /** from(): later column helpers qualify with this table; the FROM clause itself is not touched. */
  method From(s: Statement, table: string)
    requires s.kind == SelectKind
    modifies s`additionalTable
    ensures s.additionalTable == table
  {
    s.additionalTable := table;
  }

  /** resetTable(): back to the main table. */
  method ResetTable(s: Statement)
    requires s.kind == SelectKind
    modifies s`additionalTable
    ensures s.additionalTable == s.mainTable
  {
    s.additionalTable := s.mainTable;
  }
}
