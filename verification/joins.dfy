/**
 * The join chain a select statement opens with join(): it builds the JOIN
 * clause text on its own (join types, ON/AND/OR conditions, values written
 * inline rather than as placeholders) and end() hands it to the statement.
 */
module Joins {
  import opened Strings
  import opened Options
  import opened Additional
  import opened Statements

  /** The join types the source names; any other text is accepted as a type too. */
  const InnerJoin := "INNER JOIN"
  const LeftJoin := "LEFT JOIN"
  const RightJoin := "RIGHT JOIN"

  /** The three connectives of addCondition. */
  datatype Connective = On | And | Or

  function ConnectiveText(c: Connective): string {
    match c
    case On => "ON"
    case And => "AND"
    case Or => "OR"
  }

  /**
   * The right-hand side of a join condition: the joined table's column, or,
   * when no second table is wanted, the value itself if it is numeric and
   * the value between single quotes otherwise.
   */
  function JoinValue(value: Scalar, joinTable: string, needSecondTable: bool): (r: string)
    ensures needSecondTable ==> r == joinTable + "." + ScalarText(value)
    ensures !needSecondTable && IsNumericText(ScalarText(value)) ==> r == ScalarText(value)
    ensures !needSecondTable && !IsNumericText(ScalarText(value)) ==> r == "'" + ScalarText(value) + "'"
  {
    if needSecondTable then joinTable + "." + ScalarText(value)
    else if IsNumericText(ScalarText(value)) then ScalarText(value)
    else "'" + ScalarText(value) + "'"
  }

  /** An integer is always written bare: its decimal text is numeric. */
  lemma IntegerJoinValueIsBare(n: int, joinTable: string)
    ensures JoinValue(Number(n), joinTable, false) == IntToString(n)
  {
    var s := NatToString(if n < 0 then -n else n);
    if n < 0 {
      assert IntToString(n) == "-" + s;
      assert IntToString(n)[1..] == s;
    }
  }

  /** The text one condition appends: ` ON t.c1 = value`. */
  function ConditionText(c: Connective, tableOne: string, columnOne: Scalar, value: string): (r: string)
    ensures (" " + ConnectiveText(c) + " " + tableOne + "." + ScalarText(columnOne) + " = ") <= r
    ensures |r| > |value| && r[|r| - |value|..] == value
  {
    " " + ConnectiveText(c) + " " + tableOne + "." + ScalarText(columnOne) + " = " + value
  }

  class JoinChain {
    const owner: Statement
    const mainTable: string
    var joinTable: string
    var join: string
    /** The first join, `type table`, which every later step keeps in front. */
    ghost const first: string

    ghost predicate Valid()
      reads this
    {
      first <= join && !Empty(first)
    }

    /** join() on a select: a chain on the statement's main table, starting with its first join. */
    constructor (owner: Statement, joinTable: string, joinType: string)
      requires owner.kind == SelectKind
      ensures this.owner == owner && mainTable == owner.mainTable && this.joinTable == joinTable
      ensures join == joinType + " " + joinTable
      ensures Valid()
    {
      this.owner := owner;
      mainTable := owner.mainTable;
      this.joinTable := joinTable;
      join := AddSeparator("", " ") + joinType + " " + joinTable;
      first := joinType + " " + joinTable;
      assert (joinType + " " + joinTable)[|joinType|] == ' ';
    }

    /** join(): another join, after a space; later conditions refer to its table. */
    method Join(joinTable: string, joinType: string)
      requires Valid()
      modifies this`joinTable, this`join
      ensures this.joinTable == joinTable
      ensures join == AddSeparator(old(join), " ") + joinType + " " + joinTable
      ensures old(join) + " " <= join
      ensures Valid()
    {
      this.joinTable := joinTable;
      join := AddSeparator(join, " ") + joinType + " " + joinTable;
    }

    /** on(), and(), or(): a condition against the main table (or the given one) and the latest joined table. */
    method Condition(c: Connective, columnOne: Scalar, columnTwo: Scalar, tableOne: Option<string>, needSecondTable: bool)
      requires Valid()
      modifies this`join
      ensures var t := if tableOne.None? || Empty(tableOne.value) then mainTable else tableOne.value;
              join == old(join) + ConditionText(c, t, columnOne, JoinValue(columnTwo, joinTable, needSecondTable))
      ensures Valid()
    {
      var t := if tableOne.None? || Empty(tableOne.value) then mainTable else tableOne.value;
      join := join + ConditionText(c, t, columnOne, JoinValue(columnTwo, joinTable, needSecondTable));
    }

    /** end(): the statement's JOIN clause becomes this chain's text, replacing any earlier one. */
    method End() returns (s: Statement)
      modifies owner`frags
      ensures s == owner
      ensures owner.frags == old(owner.frags).With(Clause.Join, join)
    {
      owner.frags := owner.frags.With(Clause.Join, join);
      s := owner;
    }
  }
}
