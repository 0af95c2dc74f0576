/**
 * The helpers every builder mixes in: the separator rule used when a clause
 * grows, and the lookup of an aggregate-function tag.
 */
module Additional {
  import opened Strings
  import opened Options
  import opened SqlFunctions

  /** The text addSeparator appends for a separator name: `, ` for `,`, a space for a space, nothing otherwise. */
  function SeparatorText(sep: string): (r: string)
    ensures sep == "," ==> r == ", "
    ensures sep == " " ==> r == " "
    ensures sep != "," && sep != " " ==> r == ""
  {
    if sep == "," then ", " else if sep == " " then " " else ""
  }

  /**
   * addSeparator: a non-empty target gets the separator text appended; an
   * empty one (PHP's empty(), so also "0") is left as it is.
   */
  function AddSeparator(value: string, sep: string): (r: string)
    ensures Empty(value) ==> r == value
    ensures !Empty(value) ==> r == value + SeparatorText(sep)
    ensures value <= r && |r| <= |value| + 2
    ensures Empty(r) <==> Empty(value)
  {
    if !Empty(value) then value + SeparatorText(sep) else value
  }

  /**
   * The fold a clause builder runs when it appends items one at a time, each
   * after addSeparator($clause, sep).
   */
  function AppendSeparated(text: string, items: seq<string>, sep: string): string
  {
    if items == [] then text
    else AddSeparator(AppendSeparated(text, items[..|items| - 1], sep), sep) + items[|items| - 1]
  }

  /**
   * Appending non-empty items gives the old text, the separator (unless the
   * old text was empty) and the items joined by the separator text.
   */
  lemma {:induction false} AppendSeparatedImplode(text: string, items: seq<string>, sep: string)
    requires forall i :: 0 <= i < |items| ==> !Empty(items[i])
    requires items != []
    ensures AppendSeparated(text, items, sep)
         == (if Empty(text) then text else text + SeparatorText(sep)) + Implode(items, SeparatorText(sep))
  {
    var n := |items|;
    var init := items[..n - 1];
    if n == 1 {
      assert init == [];
    } else {
      var sp := SeparatorText(sep);
      var head := if Empty(text) then text else text + sp;
      var last := items[n - 1];
      AppendSeparatedImplode(text, init, sep);
      ImplodeNotEmpty(init, sp);
      NotEmptyAfter(head, Implode(init, sp));
      AppendSeparatedStep(text, items, sep);
      ImplodeSnoc(init, last, sp);
      assert init + [last] == items;
      JoinAssoc(head, Implode(init, sp), sp, last);
    }
  }

  /** One more item after a non-empty text: the separator text, then the item. */
  lemma AppendSeparatedStep(text: string, items: seq<string>, sep: string)
    requires items != [] && !Empty(AppendSeparated(text, items[..|items| - 1], sep))
    ensures AppendSeparated(text, items, sep)
         == AppendSeparated(text, items[..|items| - 1], sep) + SeparatorText(sep) + items[|items| - 1]
  {
  }

  lemma AppendSeparatedUnfold(text: string, items: seq<string>, sep: string)
    requires items != []
    ensures AppendSeparated(text, items, sep)
         == AddSeparator(AppendSeparated(text, items[..|items| - 1], sep), sep) + items[|items| - 1]
  {
  }

  /** One more item: the separator rule applied to the text so far, then the item. */
  lemma AppendSeparatedSnoc(text: string, items: seq<string>, x: string, sep: string)
    ensures AppendSeparated(text, items + [x], sep) == AddSeparator(AppendSeparated(text, items, sep), sep) + x
  {
    assert (items + [x])[..|items|] == items;
  }

  /** One more item appended to the fold over a prefix gives the fold over the prefix one item longer. */
  lemma AppendSeparatedNext(text: string, items: seq<string>, i: nat, sep: string, acc: string, item: string)
    requires i < |items| && acc == AppendSeparated(text, items[..i], sep) && item == items[i]
    ensures AddSeparator(acc, sep) + item == AppendSeparated(text, items[..i + 1], sep)
  {
    assert items[..i + 1][..i] == items[..i];
  }

  /** The loop that appends each item after a separator, on the text alone. */
  method AppendEach(text: string, items: seq<string>, sep: string) returns (r: string)
    ensures r == AppendSeparated(text, items, sep)
  {
    r := text;
    var i := 0;
    while i < |items|
      invariant 0 <= i <= |items|
      invariant r == AppendSeparated(text, items[..i], sep)
    {
      AppendSeparatedNext(text, items, i, sep, r, items[i]);
      r := AddSeparator(r, sep) + items[i];
      i := i + 1;
    }
    assert items[..i] == items;
  }

  lemma NotEmptyAfter(head: string, tail: string)
    requires !Empty(tail)
    ensures !Empty(head + tail)
  {
    if head == "" {
      assert head + tail == tail;
    } else {
      assert |head + tail| >= 2;
    }
  }

  lemma JoinAssoc(a: string, b: string, c: string, d: string)
    ensures (a + b) + c + d == a + (b + c + d)
  {
  }

  lemma EmptyPrefix(a: string)
    ensures "" + a == a
  {
  }

  lemma {:induction false} ImplodeNotEmpty(items: seq<string>, sep: string)
    requires items != [] && forall i :: 0 <= i < |items| ==> !Empty(items[i])
    ensures !Empty(Implode(items, sep))
  {
    if |items| > 1 {
      assert |Implode(items, sep)| >= |items[0]| + |Implode(items[1..], sep)|;
      ImplodeNotEmpty(items[1..], sep);
    }
  }

  /** The earlier text is always a prefix of the appended one: the fold never removes anything. */
  lemma {:induction false} AppendSeparatedExtends(text: string, items: seq<string>, sep: string)
    ensures text <= AppendSeparated(text, items, sep)
  {
    if items != [] {
      AppendSeparatedExtends(text, items[..|items| - 1], sep);
    }
  }

  /** Appending to a non-empty text is appending to an empty one with that text as the first item. */
  lemma {:induction false} AppendSeparatedHead(head: string, items: seq<string>, sep: string)
    requires !Empty(head)
    ensures AppendSeparated("", [head] + items, sep) == AppendSeparated(head, items, sep)
  {
    var hi := [head] + items;
    AppendSeparatedUnfold("", hi, sep);
    if items == [] {
      assert hi[..0] == [] && hi[0] == head;
    } else {
      var init := items[..|items| - 1];
      assert hi[..|hi| - 1] == [head] + init && hi[|hi| - 1] == items[|items| - 1];
      AppendSeparatedHead(head, init, sep);
      AppendSeparatedUnfold(head, items, sep);
    }
  }

  /**
   * How GROUP BY and ORDER BY grow: the first item comes after the keyword,
   * each later one after a comma.
   */
  function Listed(keyword: string, clause: string, item: string): string {
    if Empty(clause) then keyword + item else AddSeparator(clause, ",") + item
  }

  /** The clause after a sequence of items, added one at a time from an empty clause. */
  function ListedAll(keyword: string, items: seq<string>): string {
    if items == [] then "" else Listed(keyword, ListedAll(keyword, items[..|items| - 1]), items[|items| - 1])
  }

  /** Items added one by one give the keyword and the items separated by `, `. */
  lemma {:induction false} ListedAllImplode(keyword: string, items: seq<string>)
    requires |keyword| >= 2 && items != []
    ensures ListedAll(keyword, items) == keyword + Implode(items, ", ")
  {
    var n := |items|;
    var init := items[..n - 1];
    if n == 1 {
      assert init == [];
    } else {
      ListedAllImplode(keyword, init);
      var prev := ListedAll(keyword, init);
      assert |prev| >= 2;
      ImplodeSnoc(init, items[n - 1], ", ");
      assert init + [items[n - 1]] == items;
    }
  }

  /** A clause that is empty or already starts with the keyword keeps the keyword in front. */
  lemma ListedKeepsKeyword(keyword: string, clause: string, item: string)
    requires Empty(clause) || keyword <= clause
    ensures keyword <= Listed(keyword, clause, item)
  {
    if !Empty(clause) {
      assert AddSeparator(clause, ",") == clause + ", ";
      assert clause <= clause + ", " + item;
    }
  }

  /** A `?string` argument that is only ever tested with empty(): null counts as "". */
  function OrEmpty(x: Option<string>): (r: string)
    ensures x.None? ==> r == ""
    ensures x.Some? ==> r == x.value
  {
    if x.Some? then x.value else ""
  }

  /**
   * getSqlFunciton: no result for a null tag, for a name that is not one of the
   * five functions, or for an empty template result; otherwise the template
   * text of that function.
   */
  function GetSqlFunction(name: Option<string>, column: string, table: string, alias: string): (r: Option<string>)
    ensures r.Some? <==> name.Some? && FromTag(name.value).Some?
    ensures r.Some? ==> r.value == Call(FromTag(name.value).value, column, table, alias)
  {
    if name.None? then None
    else
      var sql := match FromTag(name.value)
        case Some(f) => Call(f, column, table, alias)
        case None => "";
      if !Empty(sql) then Some(sql) else None
  }
}
