/**
 * The update statement (Update): `column = value` assignments, written as
 * given or as empty placeholders to fill later; where() opens the WHERE
 * chain of the Conditions module.
 */
module Updates {
  import opened Strings
  import opened Placeholders
  import opened Additional
  import opened Statements

  /** setValuesIntoColumn's text: `column = value`. */
  function Assignment(column: string, value: string): (r: string)
    ensures |r| >= 3
  {
    column + " = " + value
  }

  /** The assignment of each column to the value at the same position, in order. */
  function Assignments(columns: seq<string>, values: seq<string>): (r: seq<string>)
    requires |columns| == |values|
    ensures |r| == |columns|
    ensures forall i :: 0 <= i < |r| ==> r[i] == Assignment(columns[i], values[i])
  {
    seq(|columns|, i requires 0 <= i < |columns| => Assignment(columns[i], values[i]))
  }

  /** setValuesIntoColumn once per pair, in order: each assignment after a comma when assignments exist. */
  method AddAssignments(s: Statement, columns: seq<string>, values: seq<string>)
    requires |columns| == |values|
    modifies s`frags
    ensures s.frags == old(s.frags).(values := AppendSeparated(old(s.frags.values), Assignments(columns, values), ","))
  {
    var text := AppendEach(s.frags.values, Assignments(columns, values), ",");
    s.frags := s.frags.(values := text);
  }

  /**
   * set(): with as many values as columns, each column is assigned its value
   * in double quotes, after a comma when assignments exist; otherwise
   * nothing changes.
   */
  method Set(s: Statement, columns: seq<string>, values: seq<Scalar>)
    requires s.kind == UpdateKind
    requires |columns| != |values| || columns != []
    modifies s`frags
    ensures |columns| != |values| ==> s.frags == old(s.frags)
    ensures |columns| == |values| ==>
              s.frags == old(s.frags).(values := AppendSeparated(old(s.frags.values), Assignments(columns, QuotedAll(values)), ","))
  {
    if |columns| != |values| {
      return;
    }
    AddAssignments(s, columns, QuotedAll(values));
  }

  /**
   * setPrepare(): each column is assigned a fresh placeholder named after it
   * and bound to the empty string, after a comma when assignments exist.
   */
  method SetPrepare(s: Statement, columns: seq<string>) returns (tokens: seq<string>)
    requires s.kind == UpdateKind && s.Valid()
    requires columns != []
    modifies s`params, s`frags
    ensures var a := AllocateEach(old(s.params), columns, Blanks(|columns|));
            tokens == a.tokens && s.params == a.entries
            && s.frags == old(s.frags).(values := AppendSeparated(old(s.frags.values), Assignments(columns, a.tokens), ","))
    ensures s.Valid()
  {
    tokens := AllocateColumns(s, columns, Blanks(|columns|));
    AddAssignments(s, columns, tokens);
  }

  /**
   * The assignments set() and setPrepare() write: after the earlier ones and
   * `, ` when there are any, joined by `, `.
   */
  lemma AssignmentsImplode(text: string, columns: seq<string>, values: seq<string>)
    requires |columns| == |values| && columns != []
    ensures AppendSeparated(text, Assignments(columns, values), ",")
         == (if Empty(text) then text else text + ", ") + Implode(Assignments(columns, values), ", ")
  {
    var items := Assignments(columns, values);
    forall i | 0 <= i < |items| ensures !Empty(items[i]) {
      assert |items[i]| >= 3;
    }
    AppendSeparatedImplode(text, items, ",");
  }

  /**
   * Each placeholder setPrepare() writes is named after its column and bound
   * to the empty string, so it counts as unbound until getAll() fills it.
   */
  lemma SetPreparePlaceholders(m: seq<Entry>, columns: seq<string>, i: nat)
    requires i < |columns|
    ensures var a := AllocateEach(m, columns, Blanks(|columns|));
            && MatchesBase(a.tokens[i], BaseOf(columns[i]))
            && a.tokens[i] in Keys(a.entries) && Lookup(a.entries, a.tokens[i]) == ""
  {
    var a := AllocateEach(m, columns, Blanks(|columns|));
    AllocateEachNamed(m, columns, Blanks(|columns|), i);
    AllocateEachBinds(m, columns, a.tokens[i]);
  }
}
