/**
 * LIMIT on a select (Limit): the quantity, and the offset when there is one,
 * are bound as placeholder values; each call replaces the clause.
 */
module Limits {
  import opened Strings
  import opened Options
  import opened Placeholders
  import opened Statements

  /** `(string)` of a `?int`: "" for null, the decimal numeral otherwise. */
  function IntText(x: Option<int>): (r: string)
    ensures x.None? ==> r == ""
    ensures x.Some? ==> r == IntToString(x.value)
  {
    if x.Some? then IntToString(x.value) else ""
  }

  /** The offset is written when it is neither null nor zero, or when it is asked for. */
  predicate UsesOffset(offset: Option<int>, needOffset: bool) {
    (offset.Some? && offset.value != 0) || needOffset
  }

  /**
   * limit(): binds the quantity under the next `:limit` token, then, when the
   * offset is used, the offset under the next `:offset` token; the clause
   * becomes `LIMIT offset, quantity` or `LIMIT quantity`.
   */
  method Limit(s: Statement, quantity: Option<int>, offset: Option<int>, needOffset: bool)
    requires s.kind == SelectKind && s.Valid()
    modifies s`params, s`frags
    ensures var q := NextToken(old(s.params), "limit");
            var m := Put(old(s.params), q, IntText(quantity));
            if UsesOffset(offset, needOffset) then
              var o := NextToken(m, "offset");
              s.params == Put(m, o, IntText(offset)) && s.frags == old(s.frags).(limit := "LIMIT " + o + ", " + q)
            else
              s.params == m && s.frags == old(s.frags).(limit := "LIMIT " + q)
    ensures s.Valid()
  {
    var q := s.PrepareValue("limit", IntText(quantity));
    var o := "";
    if UsesOffset(offset, needOffset) {
      o := s.PrepareValue("offset", IntText(offset));
    }
    if Empty(o) {
      s.frags := s.frags.(limit := "LIMIT " + q);
    } else {
      s.frags := s.frags.(limit := "LIMIT " + o + ", " + q);
    }
  }

  /**
   * A quantity of zero or null binds an empty value, which getQuery counts
   * as unbound: the query is then returned with its placeholders.
   */
  lemma ZeroLimitIsUnbound(m: seq<Entry>, quantity: Option<int>)
    requires quantity.None? || quantity.value == 0
    ensures var q := NextToken(m, "limit");
            q in UnboundKeys(Put(m, q, IntText(quantity)))
  {
    var q := NextToken(m, "limit");
    var m' := Put(m, q, IntText(quantity));
    PutLookup(m, q, IntText(quantity), q);
    var i := IndexOf(m', q);
    assert m'[i].key == q && Empty(m'[i].value);
    UnboundKeysMembers(m', q);
  }

  /**
   * Calling limit() twice on a statement without placeholders: the second
   * quantity goes under `:limit2`, and substituting `:limit` first rewrites
   * the head of `:limit2`, so the clause reads the first quantity followed by
   * a stray `2` and the second quantity is lost.
   */
  lemma LimitTwiceCorrupts(first: nat, second: nat)
    ensures var m1 := Put([], NextToken([], "limit"), IntToString(first));
            var t2 := NextToken(m1, "limit");
            var m2 := Put(m1, t2, IntToString(second));
            t2 == ":limit2"
            && m2 == [Entry(":limit", IntToString(first)), Entry(":limit2", IntToString(second))]
            && Substitute("LIMIT " + t2, m2) == "LIMIT " + NatToString(first) + "2"
  {
    var base := BaseOf("limit");
    var x, y := IntToString(first), IntToString(second);
    LimitTokens();
    FirstTwoTokens("limit", x);
    PutSecond(base, x, y);
    SubstitutePrefixCollision("LIMIT ", base, "2", "", x, y);
    Assoc3("LIMIT ", base, "2");
    EmptySuffix("LIMIT " + base + "2");
    EmptySuffix("LIMIT " + x + "2");
  }

  lemma LimitTokens()
    ensures BaseOf("limit") == ":limit" && BaseOf("limit") + "2" == ":limit2"
  {
    assert ReplaceDots("limit") == "limit";
  }
}
