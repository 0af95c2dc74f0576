/**
 * ORDER BY on a select (Order): the ordering expression is bound as a
 * placeholder value under an `:order…` token, and the clause refers to the
 * token followed by the direction.
 */
module Orders {
  import opened Strings
  import opened Options
  import opened Placeholders
  import opened Additional
  import opened Statements

  /** The two directions OrderBy names; any other text is accepted too. */
  const Asc := "ASC"
  const Desc := "DESC"

  /**
   * The value bound for the ordering: the column as given when it is null or
   * empty, the aggregate's text when a known function is named, and
   * `table.column` otherwise.
   */
  function OrderValue(column: Option<string>, table: string, sqlFunction: Option<string>): (r: string)
    ensures column.None? ==> r == ""
    ensures column.Some? && Empty(column.value) ==> r == column.value
    ensures column.Some? && !Empty(column.value) && GetSqlFunction(sqlFunction, column.value, table, "").None?
            ==> r == table + "." + column.value
    ensures column.Some? && !Empty(column.value) && GetSqlFunction(sqlFunction, column.value, table, "").Some?
            ==> r == GetSqlFunction(sqlFunction, column.value, table, "").value
  {
    if column.None? || Empty(column.value) then OrEmpty(column)
    else
      match GetSqlFunction(sqlFunction, column.value, table, "")
      case Some(sql) => sql
      case None => table + "." + column.value
  }

  /**
   * order(): binds the ordering under the next `:order` token and adds
   * `token direction` to the clause, after `ORDER BY ` for the first item and
   * after a comma for later ones.
   */
  method Order(s: Statement, column: Option<string>, direction: string, table: Option<string>, sqlFunction: Option<string>)
    returns (token: string)
    requires s.kind == SelectKind && s.Valid()
    modifies s`additionalTable, s`frags, s`params
    ensures s.additionalTable == TableAfter(table, old(s.additionalTable), s.mainTable)
    ensures token == NextToken(old(s.params), "order")
    ensures s.params == Put(old(s.params), token, OrderValue(column, TableFor(table, old(s.additionalTable), s.mainTable), sqlFunction))
    ensures s.frags == old(s.frags).(order := Listed("ORDER BY ", old(s.frags.order), token + " " + direction))
    ensures s.Valid()
  {
    ghost var f0 := s.frags;
    var t := if table.Some? then table.value else "";
    if Empty(t) {
      s.CheckTableName();
      t := s.additionalTable;
    }
    assert t == TableFor(table, old(s.additionalTable), s.mainTable);
    var value := OrderValue(column, t, sqlFunction);
    token := s.PrepareValue("order", value);
    var item := token + " " + direction;
    if Empty(s.frags.order) {
      s.frags := s.frags.(order := "ORDER BY " + item);
    } else {
      s.frags := s.frags.(order := AddSeparator(s.frags.order, ",") + item);
    }
    assert s.frags == f0.(order := Listed("ORDER BY ", f0.order, item));
  }

  /**
   * Substituting the bound value for the token of a first ORDER BY item gives
   * back `ORDER BY <ordering> <direction>`.
   */
  lemma OrderSubstitutes(token: string, value: string, direction: string)
    requires token != [] && token[0] == ':'
    ensures ReplaceFirst(Listed("ORDER BY ", "", token + " " + direction), token, value)
         == "ORDER BY " + value + " " + direction
  {
    var keyword, tail := "ORDER BY ", " " + direction;
    assert Listed(keyword, "", token + " " + direction) == keyword + token + tail by {
      Assoc3(token, " ", direction);
      Assoc3(keyword, token, tail);
    }
    ReplaceFirstPast(keyword, token, tail, value);
    Assoc3(keyword + value, " ", direction);
  }

  /**
   * order() without a column binds an empty value, so its token counts as
   * unbound and getQuery(true) returns the text with the placeholders left in.
   */
  lemma OrderWithoutColumnIsUnbound(m: seq<Entry>, table: string, sqlFunction: Option<string>)
    ensures var token := NextToken(m, "order");
            token in UnboundKeys(Put(m, token, OrderValue(None, table, sqlFunction)))
  {
    var token := NextToken(m, "order");
    var m' := Put(m, token, "");
    PutLookup(m, token, "", token);
    var i := IndexOf(m', token);
    assert m'[i].key == token && Empty(m'[i].value);
    UnboundKeysMembers(m', token);
  }
}
