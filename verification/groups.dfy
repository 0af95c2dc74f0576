/**
 * GROUP BY on a select (Group): each call adds one `table.column` item.
 */
module Groups {
  import opened Strings
  import opened Options
  import opened Additional
  import opened Statements

  /**
   * group(): the item is qualified by the table passed in, or by the current
   * table (after checkTableName) when none is; the first item comes after
   * `GROUP BY `, later ones after a comma.
   */
  method Group(s: Statement, column: string, table: Option<string>)
    requires s.kind == SelectKind
    modifies s`additionalTable, s`frags
    ensures s.additionalTable == TableAfter(table, old(s.additionalTable), s.mainTable)
    ensures s.frags == old(s.frags).(group := Listed("GROUP BY ", old(s.frags.group),
                                                     TableFor(table, old(s.additionalTable), s.mainTable) + "." + column))
    ensures old(Empty(s.frags.group) || "GROUP BY " <= s.frags.group) ==> "GROUP BY " <= s.frags.group
  {
    ghost var g0 := s.frags.group;
    var t := if table.Some? then table.value else "";
    if Empty(t) {
      s.CheckTableName();
      t := s.additionalTable;
    }
    var value := t + "." + column;
    if Empty(s.frags.group) {
      s.frags := s.frags.(group := "GROUP BY " + value);
    } else {
      s.frags := s.frags.(group := AddSeparator(s.frags.group, ",") + value);
    }
    if Empty(g0) || "GROUP BY " <= g0 {
      ListedKeepsKeyword("GROUP BY ", g0, value);
    }
  }
}
