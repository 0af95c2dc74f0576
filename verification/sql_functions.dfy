/**
 * The aggregate-function templates: each of count, sum, avg, min and max
 * qualifies its column with the table (unless the column is `*`), wraps it in
 * the upper-case SQL function name and appends an optional ` AS alias`.
 */
module SqlFunctions {
  import opened Strings
  import opened Options

  /** The closed set of function tags (the constants of SqlFuncList). */
  datatype SqlFunc = Count | Sum | Avg | Min | Max

  /** The tag a caller passes to select a function. */
  function Tag(f: SqlFunc): string {
    match f
    case Count => "count"
    case Sum => "sum"
    case Avg => "avg"
    case Min => "min"
    case Max => "max"
  }

  /** The SQL name the template writes. */
  function SqlName(f: SqlFunc): string {
    match f
    case Count => "COUNT"
    case Sum => "SUM"
    case Avg => "AVG"
    case Min => "MIN"
    case Max => "MAX"
  }

  function UpperChar(c: char): char {
    if 'a' <= c <= 'z' then (c as int - 'a' as int + 'A' as int) as char else c
  }

  function Upper(s: string): (r: string)
    ensures |r| == |s|
    ensures forall i :: 0 <= i < |s| ==> r[i] == UpperChar(s[i])
  {
    seq(|s|, i requires 0 <= i < |s| => UpperChar(s[i]))
  }

  /** Each function is written under the upper-case spelling of its tag. */
  lemma SqlNameIsUpperTag(f: SqlFunc)
    ensures SqlName(f) == Upper(Tag(f))
  {
  }

  /**
   * Whether a SqlFunctions entry point of that name exists: the tag of one of
   * the five functions, or nothing.
   */
  function FromTag(name: string): (r: Option<SqlFunc>)
    ensures r.Some? ==> Tag(r.value) == name
    ensures r.None? ==> forall f :: Tag(f) != name
  {
    if name == "count" then Some(Count)
    else if name == "sum" then Some(Sum)
    else if name == "avg" then Some(Avg)
    else if name == "min" then Some(Min)
    else if name == "max" then Some(Max)
    else None
  }

  /** No tag contains a dot, so a table-qualified column is never a function tag. */
  lemma QualifiedIsNoTag(table: string, column: string)
    ensures FromTag(table + "." + column).None?
  {
    var q := table + "." + column;
    assert q[|table|] == '.';
    assert '.' in q;
    forall f: SqlFunc ensures Tag(f) != q {
      assert '.' !in Tag(f);
    }
  }

  /**
   * The shared template: the column is qualified as `table.column` unless it
   * is `*`, wrapped as `NAME(...)`, and followed by ` AS alias` when the alias
   * is not empty.
   */
  function FuncQuery(column: string, table: string, name: string, alias: string): (r: string)
    ensures |r| > |name| + 1 && r[..|name| + 1] == name + "("
    ensures column == "*" ==> |r| >= |name| + 3 && r[..|name| + 3] == name + "(*)"
    ensures column != "*" ==> |r| >= |name| + |table| + |column| + 2 && r[..|name| + |table| + |column| + 2] == name + "(" + table + "." + column
    ensures Empty(alias) ==> r[|r| - 1] == ')'
    ensures !Empty(alias) ==> |r| > |alias| + 4 && r[|r| - |alias| - 4..] == " AS " + alias
    ensures !Empty(r)
  {
    var qualified := if column != "*" then table + "." + column else column;
    var wrapped := name + "(" + qualified + ")";
    wrapped + (if !Empty(alias) then " AS " + alias else "")
  }

  /** The entry points count, sum, avg, min and max: the template under the function's SQL name. */
  function Call(f: SqlFunc, column: string, table: string, alias: string): (r: string)
    ensures |r| > |SqlName(f)| + 1 && r[..|SqlName(f)| + 1] == SqlName(f) + "("
    ensures !Empty(r)
  {
    FuncQuery(column, table, SqlName(f), alias)
  }

  /** The five entry points differ only in the function name in front of the parenthesis. */
  lemma CallsDifferOnlyInName(f: SqlFunc, g: SqlFunc, column: string, table: string, alias: string)
    ensures Call(f, column, table, alias)[|SqlName(f)|..] == Call(g, column, table, alias)[|SqlName(g)|..]
  {
    var qualified := if column != "*" then table + "." + column else column;
    var tail := "(" + qualified + ")" + (if !Empty(alias) then " AS " + alias else "");
    CallSplits(f, column, table, alias, tail);
    CallSplits(g, column, table, alias, tail);
  }

  lemma CallSplits(f: SqlFunc, column: string, table: string, alias: string, tail: string)
    requires tail == "(" + (if column != "*" then table + "." + column else column) + ")" + (if !Empty(alias) then " AS " + alias else "")
    ensures Call(f, column, table, alias)[|SqlName(f)|..] == tail
  {
    var name := SqlName(f);
    FuncQuerySplits(column, table, name, alias, tail);
    assert (name + tail)[|name|..] == tail;
  }

  /** The template is the name followed by a tail that does not depend on it. */
  lemma FuncQuerySplits(column: string, table: string, name: string, alias: string, tail: string)
    requires tail == "(" + (if column != "*" then table + "." + column else column) + ")" + (if !Empty(alias) then " AS " + alias else "")
    ensures FuncQuery(column, table, name, alias) == name + tail
  {
    var qualified := if column != "*" then table + "." + column else column;
    var suffix := if !Empty(alias) then " AS " + alias else "";
    Assoc4(name, "(", qualified, ")");
    Assoc3(name, "(" + qualified + ")", suffix);
  }
}
