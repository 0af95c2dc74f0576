/**
 * The condition chains opened by where() and having() (WhereCondition, with
 * Where and Having differing only in the clause their end() writes). A chain
 * collects its own condition text and its own placeholder map; end() writes
 * the text into the owning statement and merges the map into the owner's.
 */
module Conditions {
  import opened Strings
  import opened Options
  import opened SqlFunctions
  import opened Placeholders
  import opened Additional
  import opened Statements

  /** What a comparison binds: a string, an integer, a `[table, column]` pair, or null. */
  datatype Operand = Str(s: string) | Int(i: int) | Pair(table: string, column: string) | Null

  /**
   * getValue's text for an operand, the value stored under its placeholder:
   * a quoted string, a decimal integer, `table.column`, or nothing for null.
   * An integer 0 gives "0", which PHP's empty() counts as unbound too.
   */
  function Literal(v: Operand): (r: string)
    ensures v.Str? ==> |r| == |v.s| + 2 && r[0] == '\'' && r[|r| - 1] == '\'' && r[1..|r| - 1] == v.s
    ensures v.Pair? ==> |r| == |v.table| + |v.column| + 1 && v.table + "." <= r && r[|v.table| + 1..] == v.column
    ensures r == "" <==> v.Null?
    ensures Empty(r) <==> v.Null? || v == Int(0)
  {
    match v
    case Str(s) => "'" + s + "'"
    case Int(i) => IntToString(i)
    case Pair(t, c) => assert (t + "." + c)[|t|] == '.'; t + "." + c
    case Null => ""
  }

  /** The literals of a list of operands, in order. */
  function Literals(vs: seq<Operand>): (r: seq<string>)
    ensures |r| == |vs| && forall i :: 0 <= i < |vs| ==> r[i] == Literal(vs[i])
  {
    seq(|vs|, i requires 0 <= i < |vs| => Literal(vs[i]))
  }

  /** The comparison entry points and the operator each writes. */
  datatype Comparison = Equal | NotEqual | Less | LessOrEqual | Greater | GreaterOrEqual | Like | NotLike

  function OperatorText(c: Comparison): string {
    match c
    case Equal => "="
    case NotEqual => "<>"
    case Less => "<"
    case LessOrEqual => "<="
    case Greater => ">"
    case GreaterOrEqual => ">="
    case Like => "LIKE"
    case NotLike => "NOT LIKE"
  }

  /** checkTable: an empty or absent table falls back to the chain's table. */
  function ResolveTable(table: Option<string>, chainTable: string): (t: string)
    ensures table.None? || Empty(table.value) ==> t == chainTable
    ensures table.Some? && !Empty(table.value) ==> t == table.value
  {
    if table.Some? && !Empty(table.value) then table.value else chainTable
  }

  /** What a comparison appends in front of its placeholder, and the column the placeholder is named after. */
  datatype Piece = Piece(lead: string, key: string)

  /**
   * createQuery, up to the placeholder. Without a function the column is
   * qualified by the table and names the placeholder. With a known function
   * its SQL text replaces the column and the tag names the placeholder. With
   * an unknown function the column stays unqualified, names the placeholder,
   * and is dropped from the text when it is itself a function tag or equals
   * the requested function name.
   */
  function ComparePiece(column: string, table: string, op: string, sqlFunction: Option<string>): (p: Piece)
    ensures |p.lead| >= |op| + 2 && p.lead[|p.lead| - |op| - 2..] == " " + op + " "
    ensures sqlFunction.None? ==>
              p.key == table + "." + column && p.key + " " <= p.lead && p.lead == table + "." + column + " " + op + " "
    ensures sqlFunction.Some? && FromTag(sqlFunction.value).Some? ==>
              var f := FromTag(sqlFunction.value).value;
              p.key == Tag(f) && SqlName(f) + "(" <= p.lead &&
              p.lead == Call(f, column, table, "") + " " + op + " "
    ensures sqlFunction.Some? && FromTag(sqlFunction.value).None? ==> p.key == column
    ensures sqlFunction.Some? && FromTag(sqlFunction.value).None? && (FromTag(column).Some? || column == sqlFunction.value) ==>
              p.lead == " " + op + " "
  {
    match sqlFunction
    case None =>
      var qualified := table + "." + column;
      LeadShape(qualified, op);
      Piece(qualified + " " + op + " ", qualified)
    case Some(name) =>
      match GetSqlFunction(sqlFunction, column, table, "")
      case Some(sql) =>
        LeadShape(sql, op);
        assert sql == Call(FromTag(name).value, column, table, "");
        Piece(sql + " " + op + " ", name)
      case None =>
        var shown := if FromTag(column).Some? then "" else column;
        var head := if name == shown then "" else shown;
        LeadShape(head, op);
        Piece(head + " " + op + " ", column)
  }

  /** A lead `head OP ` starts with `head ` and ends with ` OP `. */
  lemma LeadShape(head: string, op: string)
    ensures var lead := head + " " + op + " ";
            |lead| >= |op| + 2 && lead[|lead| - |op| - 2..] == " " + op + " " && head + " " <= lead
  {
    var lead := head + " " + op + " ";
    assert lead == head + (" " + op + " ");
  }

  /** The text an IN list puts between its brackets. */
  datatype InList = Raw(text: string) | Items(values: seq<Operand>) | NoList

  /** What an IN list writes between its brackets, given the placeholders of its items. */
  function InText(values: InList, tokens: seq<string>): (r: string)
    ensures values.Raw? ==> r == values.text
    ensures values.NoList? ==> r == ""
    ensures values.Items? && |tokens| == 1 ==> r == tokens[0]
  {
    match values
    case Raw(text) => text
    case Items(_) => Implode(tokens, ", ")
    case NoList => ""
  }

  /** The keyword end() writes in front of the chain's text. */
  function Keyword(clause: Clause): string {
    if clause == Having then "HAVING " else "WHERE "
  }

  class ConditionChain {
    const owner: Statement
    const clause: Clause
    const table: string
    var query: string
    var params: seq<Entry>

    ghost predicate Valid()
      reads this
    {
      UniqueKeys(params) && (clause == Where || clause == Having)
    }

    /**
     * where() on a select, update or delete statement, or having() on a
     * select: a fresh chain on the owner's main table.
     */
    constructor (owner: Statement, clause: Clause)
      requires (clause == Where && owner.kind != InsertKind) || (clause == Having && owner.kind == SelectKind)
      ensures this.owner == owner && this.clause == clause && table == owner.mainTable
      ensures query == "" && params == [] && Valid()
    {
      this.owner := owner;
      this.clause := clause;
      table := owner.mainTable;
      query := "";
      params := [];
    }

    /** getPrepareValue on the chain's own map. */
    method Allocate(column: string, value: string) returns (token: string)
      requires Valid()
      modifies this`params
      ensures token == NextToken(old(params), column)
      ensures params == Put(old(params), token, value)
      ensures Valid()
    {
      token := NextToken(params, column);
      PutUnique(params, token, value);
      params := Put(params, token, value);
    }

    /** and(): ` AND ` after a non-empty text, nothing otherwise. */
    method And()
      modifies this`query
      ensures query == if Empty(old(query)) then old(query) else old(query) + " AND "
    {
      if !Empty(query) {
        query := query + " AND ";
      }
    }

    /** or(): ` OR ` after a non-empty text, nothing otherwise. */
    method Or()
      modifies this`query
      ensures query == if Empty(old(query)) then old(query) else old(query) + " OR "
    {
      if !Empty(query) {
        query := query + " OR ";
      }
    }

    /**
     * equal … greaterOrEqual, like and notLike: append the comparison with
     * a fresh placeholder, bound to the operand's literal.
     */
    method Compare(op: Comparison, column: string, value: Operand, table: Option<string>, sqlFunction: Option<string>)
      requires Valid()
      requires (op == Like || op == NotLike) ==> sqlFunction.None? && (value.Str? || value.Null?)
      modifies this`query, this`params
      ensures var p := ComparePiece(column, ResolveTable(table, this.table), OperatorText(op), sqlFunction);
              var token := NextToken(old(params), p.key);
              query == old(query) + p.lead + token && params == Put(old(params), token, Literal(value))
      ensures Valid()
    {
      var t := ResolveTable(table, this.table);
      var p := ComparePiece(column, t, OperatorText(op), sqlFunction);
      var token := Allocate(p.key, Literal(value));
      query := query + p.lead + token;
    }

    /** One getValue call per value, in order, all on the same column. */
    method AllocateAll(column: string, values: seq<string>) returns (tokens: seq<string>)
      requires Valid()
      modifies this`params
      ensures tokens == AllocateRun(old(params), column, values).tokens
      ensures params == AllocateRun(old(params), column, values).entries
      ensures Valid()
    {
      ghost var m0 := params;
      tokens := [];
      var i := 0;
      while i < |values|
        invariant 0 <= i <= |values| && Valid()
        invariant AllocateRun(params, column, values[i..]).entries == AllocateRun(m0, column, values).entries
        invariant tokens + AllocateRun(params, column, values[i..]).tokens == AllocateRun(m0, column, values).tokens
      {
        assert values[i..][1..] == values[i + 1..];
        var token := Allocate(column, values[i]);
        tokens := tokens + [token];
        i := i + 1;
      }
      assert tokens + [] == tokens;
    }

    /**
     * in() and notIn(): a string list is written as given, an array gets one
     * placeholder per item, in order, all named after the qualified column;
     * null leaves the brackets empty.
     */
    method In(column: string, values: InList, table: Option<string>, negated: bool)
      requires Valid()
      modifies this`query, this`params
      ensures var col := ResolveTable(table, this.table) + "." + column;
              var run := AllocateRun(old(params), col, if values.Items? then Literals(values.values) else []);
              query == old(query) + col + (if negated then " NOT " else " ") + "IN (" + InText(values, run.tokens) + ")"
              && params == run.entries
      ensures Valid()
    {
      var col := ResolveTable(table, this.table) + "." + column;
      var tokens := AllocateAll(col, if values.Items? then Literals(values.values) else []);
      query := query + col + (if negated then " NOT " else " ") + "IN (" + InText(values, tokens) + ")";
    }

    /** null() and notNull(). */
    method IsNull(column: string, table: Option<string>, negated: bool)
      modifies this`query
      ensures query == old(query) + ResolveTable(table, this.table) + "." + column + " IS" + (if negated then " NOT " else " ") + "NULL"
    {
      query := query + ResolveTable(table, this.table) + "." + column + " IS" + (if negated then " NOT " else " ") + "NULL";
    }

    /** between() and notBetween(): two placeholders on the qualified column, the lower bound first. */
    method Between(column: string, lower: Operand, upper: Operand, table: Option<string>, negated: bool)
      requires Valid()
      requires !lower.Pair? && !upper.Pair?
      modifies this`query, this`params
      ensures var col := ResolveTable(table, this.table) + "." + column;
              var run := AllocateRun(old(params), col, [Literal(lower), Literal(upper)]);
              query == old(query) + col + (if negated then " NOT " else " ") + "BETWEEN " + run.tokens[0] + " AND " + run.tokens[1]
              && params == run.entries
      ensures Valid()
    {
      var col := ResolveTable(table, this.table) + "." + column;
      var tokens := AllocateAll(col, [Literal(lower), Literal(upper)]);
      query := query + col + (if negated then " NOT " else " ") + "BETWEEN " + tokens[0] + " AND " + tokens[1];
    }

    /**
     * end(): the owner's WHERE or HAVING clause becomes the keyword and the
     * chain's text (replacing any earlier one), and the chain's placeholders
     * are merged into the owner's, the chain's values winning.
     */
    method End() returns (s: Statement)
      requires Valid() && owner.Valid()
      modifies owner`frags, owner`params
      ensures s == owner
      ensures owner.frags == old(owner.frags).With(clause, Keyword(clause) + query)
      ensures owner.params == Merge(old(owner.params), params)
      ensures owner.Valid()
    {
      owner.frags := owner.frags.With(clause, Keyword(clause) + query);
      MergeUnique(owner.params, params);
      owner.params := Merge(owner.params, params);
      s := owner;
    }
  }

  /**
   * Substituting a comparison's placeholder with the value it was bound to
   * gives the plain SQL comparison, provided the qualified column and the
   * operator contain no `:`.
   */
  lemma CompareSubstitutes(column: string, table: string, op: string, m: seq<Entry>, value: Operand)
    requires ':' !in table && ':' !in column && ':' !in op
    ensures var p := ComparePiece(column, table, op, None);
            var token := NextToken(m, p.key);
            ReplaceFirst(p.lead + token, token, Literal(value)) == table + "." + column + " " + op + " " + Literal(value)
  {
    var p := ComparePiece(column, table, op, None);
    var token := NextToken(m, p.key);
    var qualified := table + "." + column;
    assert ':' !in qualified;
    assert ':' !in p.lead by {
      assert p.lead == qualified + " " + op + " ";
    }
    SubstituteAfterLead(p.lead, token, Literal(value));
  }

  /**
   * With a known function, substituting the bound literal for the token gives
   * `NAME(table.column) OP literal` (`NAME(*) OP literal` for `*`).
   */
  lemma CompareFunctionSubstitutes(column: string, table: string, op: string, name: string, m: seq<Entry>, value: Operand)
    requires FromTag(name).Some?
    requires ':' !in table && ':' !in column && ':' !in op
    ensures var p := ComparePiece(column, table, op, Some(name));
            var token := NextToken(m, p.key);
            ReplaceFirst(p.lead + token, token, Literal(value)) == Call(FromTag(name).value, column, table, "") + " " + op + " " + Literal(value)
  {
    var f := FromTag(name).value;
    var p := ComparePiece(column, table, op, Some(name));
    var token := NextToken(m, p.key);
    var sql := Call(f, column, table, "");
    CallHasNoColon(f, column, table);
    assert ':' !in p.lead by {
      assert p.lead == sql + " " + op + " ";
    }
    SubstituteAfterLead(p.lead, token, Literal(value));
  }

  /** A template over a column and table without `:` contains no `:`, so it cannot hold a placeholder. */
  lemma CallHasNoColon(f: SqlFunc, column: string, table: string)
    requires ':' !in table && ':' !in column
    ensures ':' !in Call(f, column, table, "")
  {
    var qualified := if column != "*" then table + "." + column else column;
    var tail := "(" + qualified + ")" + "";
    FuncQuerySplits(column, table, SqlName(f), "", tail);
    assert ':' !in SqlName(f);
  }

  /** A placeholder written after a lead without `:` is the first occurrence, so the literal lands right after the lead. */
  lemma SubstituteAfterLead(lead: string, token: string, literal: string)
    requires |token| > 0 && token[0] == ':' && ':' !in lead
    ensures ReplaceFirst(lead + token, token, literal) == lead + literal
  {
    ReplaceFirstAfter(lead, token, token, literal);
    assert token[..|token|] == token && token[|token|..] == [];
    assert ReplaceFirst(token, token, literal) == literal;
  }

  /**
   * The placeholders of an IN list over a column the chain has not used yet
   * are the column's base token and then its base with 2, 3, …: pairwise
   * distinct and none of them already in the chain's map.
   */
  lemma InListTokens(m: seq<Entry>, col: string, values: seq<Operand>)
    requires CountMatching(Keys(m), BaseOf(col)) == 0
    ensures AllocateRun(m, col, Literals(values)).tokens == NumberedRun(BaseOf(col), 1, |values|)
    ensures forall i, j :: 0 <= i < j < |values| ==> AllocateRun(m, col, Literals(values)).tokens[i] != AllocateRun(m, col, Literals(values)).tokens[j]
    ensures forall i :: 0 <= i < |values| ==> AllocateRun(m, col, Literals(values)).tokens[i] !in Keys(m)
  {
    NoMatchIsFamily(m, BaseOf(col));
    RepeatedAllocations(m, col, Literals(values), 0);
    RepeatedAllocationsFresh(m, col, Literals(values), 0);
  }

  /**
   * Two chains allocate against their own maps, so the same column gets the
   * same token in both; after both end(), the owner keeps only the second
   * chain's value for it, although both conditions name the token.
   */
  lemma SeparateChainsShareTokens(col: string, v1: string, v2: string)
    ensures NextToken([], col) == BaseOf(col)
    ensures var t := BaseOf(col);
            Merge(Merge([], [Entry(t, v1)]), [Entry(t, v2)]) == [Entry(t, v2)]
  {
    var t := BaseOf(col);
    var b1, b2 := [Entry(t, v1)], [Entry(t, v2)];
    assert b1[1..] == [] && b2[1..] == [];
    assert Keys([]) == [];
    assert Put([], t, v1) == b1;
    assert Merge([], b1) == Merge(Put([], t, v1), []) == b1;
    assert Keys(b1) == [t];
    assert IndexOf(b1, t) == 0;
    assert Put(b1, t, v2) == b2;
    assert Merge(b1, b2) == Merge(Put(b1, t, v2), []) == b2;
  }
}
