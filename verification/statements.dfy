/**
 * The state every statement builder shares (BaseMethods): the clause
 * fragments, the main and current tables, the stored query text and the
 * placeholder map, together with rendering, value binding and substitution.
 *
 * The four builders (Select, Insert, Update, Delete) are one class with a
 * `kind`; the operations proper to one builder live in their own modules and
 * require the matching kind.
 */
module Statements {
  import opened Strings
  import opened Options
  import opened Placeholders
  import opened Additional

  datatype Kind = SelectKind | InsertKind | UpdateKind | DeleteKind

  /** The clause properties a builder reads by name when it renders. */
  datatype Clause =
    | Union | Command | Distinct | Columns | From | Join | Where
    | Group | Having | Order | Limit | Set | Values | Duplicate

  /** One text per clause property; a builder kind uses only those in its command list. */
  datatype Fragments = Fragments(
    union: string, command: string, distinct: string, columns: string,
    from: string, join: string, where: string, group: string,
    having: string, order: string, limit: string, setKeyword: string,
    values: string, duplicate: string)
  {
    /** `$this->$command`: the text of a clause named at run time. */
    function Get(c: Clause): string {
      match c
      case Union => union
      case Command => command
      case Distinct => distinct
      case Columns => columns
      case From => from
      case Join => join
      case Where => where
      case Group => group
      case Having => having
      case Order => order
      case Limit => limit
      case Set => setKeyword
      case Values => values
      case Duplicate => duplicate
    }

    /** `$this->$command = $v`: that clause takes the new text, every other clause keeps its own. */
    function With(c: Clause, v: string): (r: Fragments)
      ensures r.Get(c) == v
      ensures forall d :: d != c ==> r.Get(d) == Get(d)
    {
      match c
      case Union => this.(union := v)
      case Command => this.(command := v)
      case Distinct => this.(distinct := v)
      case Columns => this.(columns := v)
      case From => this.(from := v)
      case Join => this.(join := v)
      case Where => this.(where := v)
      case Group => this.(group := v)
      case Having => this.(having := v)
      case Order => this.(order := v)
      case Limit => this.(limit := v)
      case Set => this.(setKeyword := v)
      case Values => this.(values := v)
      case Duplicate => this.(duplicate := v)
    }
  }

  const NoFragments := Fragments("", "", "", "", "", "", "", "", "", "", "", "", "", "")

  /** getCommandList: the clauses each builder renders, in rendering order; none twice. */
  function CommandList(kind: Kind): (cl: seq<Clause>)
    ensures forall i, j :: 0 <= i < j < |cl| ==> cl[i] != cl[j]
    ensures Command in cl && Where in cl <==> kind != InsertKind
  {
    match kind
    case SelectKind => [Union, Command, Distinct, Columns, From, Join, Where, Group, Having, Order, Limit]
    case InsertKind => [Command, Columns, Set, Values, Duplicate]
    case UpdateKind => [Command, Values, Where]
    case DeleteKind => [Command, Where]
  }

  /** getReadyCommands: the non-empty clause texts, in command-list order. */
  function ReadyCommands(f: Fragments, cl: seq<Clause>): (r: seq<string>)
    ensures |r| <= |cl|
    ensures forall i :: 0 <= i < |r| ==> !Empty(r[i])
  {
    if cl == [] then []
    else
      var c := cl[|cl| - 1];
      ReadyCommands(f, cl[..|cl| - 1]) + (if Empty(f.Get(c)) then [] else [f.Get(c)])
  }

  /** A text is rendered exactly when it is not empty and is the text of a listed clause. */
  lemma {:induction false} ReadyCommandsMembers(f: Fragments, cl: seq<Clause>, x: string)
    ensures x in ReadyCommands(f, cl) <==> !Empty(x) && exists i :: 0 <= i < |cl| && f.Get(cl[i]) == x
  {
    if cl != [] {
      var init := cl[..|cl| - 1];
      ReadyCommandsMembers(f, init, x);
      if x in ReadyCommands(f, init) {
        var i :| 0 <= i < |init| && f.Get(init[i]) == x;
        assert f.Get(cl[i]) == x;
      }
      if !Empty(x) && exists i :: 0 <= i < |cl| && f.Get(cl[i]) == x {
        var i :| 0 <= i < |cl| && f.Get(cl[i]) == x;
        if i < |init| {
          assert f.Get(init[i]) == x;
        }
      }
    }
  }

  /** When every listed clause has text, all of them are rendered, in order. */
  lemma {:induction false} ReadyCommandsAll(f: Fragments, cl: seq<Clause>)
    requires forall i :: 0 <= i < |cl| ==> !Empty(f.Get(cl[i]))
    ensures ReadyCommands(f, cl) == seq(|cl|, i requires 0 <= i < |cl| => f.Get(cl[i]))
  {
    if cl != [] {
      ReadyCommandsAll(f, cl[..|cl| - 1]);
    }
  }

  /** createQuery: the ready commands appended to the stored text, each after a space unless the text is empty. */
  function Render(query: string, f: Fragments, kind: Kind): string {
    AppendSeparated(query, ReadyCommands(f, CommandList(kind)), " ")
  }

  /** From an empty stored text, rendering gives the ready commands joined by single spaces. */
  lemma RenderFromEmpty(f: Fragments, kind: Kind)
    ensures Render("", f, kind) == Implode(ReadyCommands(f, CommandList(kind)), " ")
  {
    var ready := ReadyCommands(f, CommandList(kind));
    if ready != [] {
      AppendSeparatedImplode("", ready, " ");
    }
  }

  /**
   * Rendering is cumulative: the stored text is kept as a prefix, and when it
   * is not empty the ready commands follow it after a space.
   */
  lemma RenderCumulative(query: string, f: Fragments, kind: Kind)
    ensures query <= Render(query, f, kind)
    ensures !Empty(query) && ReadyCommands(f, CommandList(kind)) != [] ==>
              Render(query, f, kind) == query + " " + Implode(ReadyCommands(f, CommandList(kind)), " ")
  {
    var ready := ReadyCommands(f, CommandList(kind));
    AppendSeparatedExtends(query, ready, " ");
    if ready != [] {
      AppendSeparatedImplode(query, ready, " ");
    }
  }

  /** Hence rendering twice is not rendering once: the second render repeats the clauses. */
  lemma RenderNotIdempotent(f: Fragments, kind: Kind)
    requires ReadyCommands(f, CommandList(kind)) != []
    ensures var once := Render("", f, kind);
            Render(once, f, kind) == once + " " + once && Render(once, f, kind) != once
  {
    var ready := ReadyCommands(f, CommandList(kind));
    RenderFromEmpty(f, kind);
    var once := Render("", f, kind);
    ImplodeNotEmpty(ready, " ");
    RenderCumulative(once, f, kind);
  }

  // ---------------------------------------------------------------------
  // Binding and substitution (getAll, getQuery)
  // ---------------------------------------------------------------------

  /** The keys whose value is empty (still unbound), in map order: the array_filter of getAll. */
  function UnboundKeys(m: seq<Entry>): (ks: seq<string>)
    ensures |ks| <= |m|
  {
    if m == [] then []
    else UnboundKeys(m[..|m| - 1]) + (if Empty(m[|m| - 1].value) then [m[|m| - 1].key] else [])
  }

  /** A key is listed exactly when some entry holds it with an empty value. */
  lemma {:induction false} UnboundKeysMembers(m: seq<Entry>, k: string)
    ensures k in UnboundKeys(m) <==> exists i :: 0 <= i < |m| && m[i].key == k && Empty(m[i].value)
  {
    if m != [] {
      var init := m[..|m| - 1];
      UnboundKeysMembers(init, k);
      if k in UnboundKeys(init) {
        var i :| 0 <= i < |init| && init[i].key == k && Empty(init[i].value);
        assert m[i] == init[i];
      }
      if exists i :: 0 <= i < |m| && m[i].key == k && Empty(m[i].value) {
        var i :| 0 <= i < |m| && m[i].key == k && Empty(m[i].value);
        if i < |init| {
          assert init[i] == m[i];
        }
      }
    }
  }

  /** For a map with unique keys, the unbound keys are unique too. */
  lemma {:induction false} UnboundKeysUnique(m: seq<Entry>)
    requires UniqueKeys(m)
    ensures forall i, j :: 0 <= i < j < |UnboundKeys(m)| ==> UnboundKeys(m)[i] != UnboundKeys(m)[j]
  {
    if m != [] {
      var init := m[..|m| - 1];
      UnboundKeysUnique(init);
      var last := m[|m| - 1];
      if Empty(last.value) {
        UnboundKeysMembers(init, last.key);
        assert last.key !in UnboundKeys(init);
      }
    }
  }

  /** Writing the values one by one under the keys, in order: the foreach of getAll. */
  function BindAll(m: seq<Entry>, keys: seq<string>, vs: seq<string>): seq<Entry>
    requires |keys| == |vs|
    decreases |keys|
  {
    if keys == [] then m else BindAll(Put(m, keys[0], vs[0]), keys[1..], vs[1..])
  }

  /**
   * Binding existing keys moves nothing: the keys stay the same, in the same
   * order; each bound key holds its value; every other key keeps its own.
   */
  lemma {:induction false} BindAllSpec(m: seq<Entry>, keys: seq<string>, vs: seq<string>, k: string)
    requires |keys| == |vs|
    requires forall i :: 0 <= i < |keys| ==> keys[i] in Keys(m)
    requires forall i, j :: 0 <= i < j < |keys| ==> keys[i] != keys[j]
    requires k in Keys(m)
    ensures Keys(BindAll(m, keys, vs)) == Keys(m)
    ensures k in Keys(BindAll(m, keys, vs))
    ensures forall i :: 0 <= i < |keys| && keys[i] == k ==> Lookup(BindAll(m, keys, vs), k) == vs[i]
    ensures k !in keys ==> Lookup(BindAll(m, keys, vs), k) == Lookup(m, k)
    decreases |keys|
  {
    if keys != [] {
      var m' := Put(m, keys[0], vs[0]);
      PutKeys(m, keys[0], vs[0]);
      PutLookup(m, keys[0], vs[0], k);
      BindAllSpec(m', keys[1..], vs[1..], k);
      if k == keys[0] {
        assert k !in keys[1..];
      } else {
        forall i | 0 <= i < |keys| && keys[i] == k ensures Lookup(BindAll(m, keys, vs), k) == vs[i] {
          assert keys[1..][i - 1] == k;
        }
      }
    }
  }

  lemma {:induction false} BindAllUnique(m: seq<Entry>, keys: seq<string>, vs: seq<string>)
    requires |keys| == |vs| && UniqueKeys(m)
    ensures UniqueKeys(BindAll(m, keys, vs))
    decreases |keys|
  {
    if keys != [] {
      PutUnique(m, keys[0], vs[0]);
      BindAllUnique(Put(m, keys[0], vs[0]), keys[1..], vs[1..]);
    }
  }

  /** In a map with unique keys, looking up the key at a position gives the value at that position. */
  lemma LookupAt(m: seq<Entry>, i: nat)
    requires UniqueKeys(m) && i < |m|
    ensures m[i].key in Keys(m) && Lookup(m, m[i].key) == m[i].value
  {
    IndexOfAt(m, m[i].key, i);
  }

  /** Every unbound key is a key of the map. */
  lemma UnboundKeysInMap(m: seq<Entry>)
    ensures forall k :: k in UnboundKeys(m) ==> k in Keys(m)
  {
    forall k | k in UnboundKeys(m) ensures k in Keys(m) {
      UnboundKeysMembers(m, k);
      var j :| 0 <= j < |m| && m[j].key == k && Empty(m[j].value);
      assert Keys(m)[j] == k;
    }
  }

  /** getAll binding the unbound keys keeps the keys, their order and their uniqueness. */
  lemma GetAllKeys(m: seq<Entry>, vs: seq<string>)
    requires UniqueKeys(m) && |vs| == |UnboundKeys(m)|
    ensures Keys(BindAll(m, UnboundKeys(m), vs)) == Keys(m)
    ensures UniqueKeys(BindAll(m, UnboundKeys(m), vs))
  {
    var keys := UnboundKeys(m);
    UnboundKeysInMap(m);
    UnboundKeysUnique(m);
    BindAllUnique(m, keys, vs);
    if m != [] {
      BindAllSpec(m, keys, vs, m[0].key);
    }
  }

  /** getAll binds the i-th unbound key, in map order, to the i-th value. */
  lemma GetAllBinds(m: seq<Entry>, vs: seq<string>, i: nat)
    requires UniqueKeys(m) && |vs| == |UnboundKeys(m)| && i < |vs|
    ensures UnboundKeys(m)[i] in Keys(BindAll(m, UnboundKeys(m), vs))
    ensures Lookup(BindAll(m, UnboundKeys(m), vs), UnboundKeys(m)[i]) == vs[i]
  {
    var keys := UnboundKeys(m);
    UnboundKeysInMap(m);
    UnboundKeysUnique(m);
    BindAllSpec(m, keys, vs, keys[i]);
  }

  /** getAll leaves an entry that already had a value exactly where and as it was. */
  lemma GetAllKeepsBound(m: seq<Entry>, vs: seq<string>, i: nat)
    requires UniqueKeys(m) && |vs| == |UnboundKeys(m)|
    requires i < |m| && !Empty(m[i].value)
    ensures i < |BindAll(m, UnboundKeys(m), vs)| && BindAll(m, UnboundKeys(m), vs)[i] == m[i]
  {
    var keys := UnboundKeys(m);
    var r := BindAll(m, keys, vs);
    GetAllKeys(m, vs);
    assert Keys(r)[i] == Keys(m)[i];
    var k := m[i].key;
    UnboundKeysInMap(m);
    UnboundKeysUnique(m);
    BindAllSpec(m, keys, vs, k);
    assert k !in keys by {
      UnboundKeysMembers(m, k);
    }
    LookupAt(m, i);
    LookupAt(r, i);
  }

  /** getAll given only non-empty values leaves no placeholder unbound. */
  lemma GetAllComplete(m: seq<Entry>, vs: seq<string>)
    requires UniqueKeys(m) && |vs| == |UnboundKeys(m)|
    requires forall i :: 0 <= i < |vs| ==> !Empty(vs[i])
    ensures UnboundKeys(BindAll(m, UnboundKeys(m), vs)) == []
  {
    var keys := UnboundKeys(m);
    var r := BindAll(m, keys, vs);
    GetAllKeys(m, vs);
    if UnboundKeys(r) != [] {
      var k := UnboundKeys(r)[0];
      UnboundKeysMembers(r, k);
      var j :| 0 <= j < |r| && r[j].key == k && Empty(r[j].value);
      LookupAt(r, j);
      if k in keys {
        var p :| 0 <= p < |keys| && keys[p] == k;
        GetAllBinds(m, vs, p);
      } else {
        assert Keys(r)[j] == Keys(m)[j];
        assert !Empty(m[j].value) by {
          UnboundKeysMembers(m, k);
        }
        GetAllKeepsBound(m, vs, j);
      }
    }
  }

  /** Each key, in map order, replaces its first occurrence in the text with its value. */
  function Substitute(text: string, m: seq<Entry>): string
    decreases |m|
  {
    if m == [] then text else Substitute(ReplaceFirst(text, m[0].key, m[0].value), m[1..])
  }

  /** Substituting a map of one more entry: the earlier entries first, then the new one. */
  lemma {:induction false} SubstituteSnoc(text: string, m: seq<Entry>, e: Entry)
    ensures Substitute(text, m + [e]) == ReplaceFirst(Substitute(text, m), e.key, e.value)
    decreases |m|
  {
    if m == [] {
      assert [e][1..] == [];
    } else {
      assert (m + [e])[1..] == m[1..] + [e];
      SubstituteSnoc(ReplaceFirst(text, m[0].key, m[0].value), m[1..], e);
    }
  }

  /**
   * A key that occurs in the text, with no earlier occurrence, is replaced
   * where it occurs: for a one-entry map, the text around the first
   * occurrence is kept and the value is spliced in.
   */
  lemma SubstituteOne(text: string, e: Entry, i: nat)
    requires OccursAt(text, e.key, i)
    requires forall j :: 0 <= j < i ==> !OccursAt(text, e.key, j)
    ensures Substitute(text, [e]) == text[..i] + e.value + text[i + |e.key|..]
  {
    ReplaceFirstSpec(text, e.key, e.value, i);
    assert [e][1..] == [];
  }

  /** Substituting a two-entry map: the first entry's replacement, then the second's. */
  lemma SubstituteTwo(text: string, e1: Entry, e2: Entry)
    ensures Substitute(text, [e1, e2]) == ReplaceFirst(ReplaceFirst(text, e1.key, e1.value), e2.key, e2.value)
  {
    var once := ReplaceFirst(text, e1.key, e1.value);
    var twice := ReplaceFirst(once, e2.key, e2.value);
    assert [e2][1..] == [];
    assert Substitute(once, [e2]) == Substitute(twice, []) == twice;
    assert [e1, e2][1..] == [e2];
  }

  /**
   * Substitution works on text, not on tokens: when a key is a prefix of a
   * later key and the longer token comes first in the text, the shorter
   * key's value lands inside the longer token, and the longer key no longer
   * occurs, so its value is never substituted (`:order` before `:orders_id`).
   */
  lemma SubstitutePrefixCollision(pre: string, k: string, rest: string, post: string, v: string, v2: string)
    requires k != [] && rest != []
    requires k[0] !in pre && k[0] !in v + rest + post
    ensures Substitute(pre + k + rest + post, [Entry(k, v), Entry(k + rest, v2)]) == pre + v + rest + post
  {
    var long := k + rest;
    var text := pre + k + rest + post;
    var once := pre + v + rest + post;
    ReplaceFirstPast(pre, k, rest + post, v);
    Assoc3(pre + k, rest, post);
    Assoc3(pre + v, rest, post);
    assert long[0] == k[0];
    ReplaceFirstAbsent(once, long, v2);
    SubstituteTwo(text, Entry(k, v), Entry(long, v2));
  }

  /** The array_reduce of getQuery: how many placeholders are still unbound. */
  method CountUnbound(m: seq<Entry>) returns (n: nat)
    ensures n == |UnboundKeys(m)|
  {
    n := 0;
    var i := 0;
    while i < |m|
      invariant 0 <= i <= |m|
      invariant n == |UnboundKeys(m[..i])|
    {
      if Empty(m[i].value) {
        n := n + 1;
      }
      assert m[..i + 1][..i] == m[..i];
      i := i + 1;
    }
    assert m[..|m|] == m;
  }

  /** The array_filter of getAll: the unbound keys, in map order. */
  method FilterUnbound(m: seq<Entry>) returns (ks: seq<string>)
    ensures ks == UnboundKeys(m)
  {
    ks := [];
    var i := 0;
    while i < |m|
      invariant 0 <= i <= |m|
      invariant ks == UnboundKeys(m[..i])
    {
      if Empty(m[i].value) {
        ks := ks + [m[i].key];
      }
      assert m[..i + 1][..i] == m[..i];
      i := i + 1;
    }
    assert m[..|m|] == m;
  }

  /** The replacement pass of getQuery, one key at a time in map order. */
  method SubstituteAll(text: string, m: seq<Entry>) returns (r: string)
    ensures r == Substitute(text, m)
  {
    r := text;
    var i := 0;
    while i < |m|
      invariant 0 <= i <= |m|
      invariant Substitute(r, m[i..]) == Substitute(text, m)
    {
      assert m[i..][1..] == m[i + 1..];
      r := ReplaceFirst(r, m[i].key, m[i].value);
      i := i + 1;
    }
  }

  /** The foreach of getAll: each key in turn takes the next value. */
  method BindValues(m: seq<Entry>, keys: seq<string>, vs: seq<string>) returns (r: seq<Entry>)
    requires |keys| == |vs|
    ensures r == BindAll(m, keys, vs)
  {
    r := m;
    var i := 0;
    while i < |keys|
      invariant 0 <= i <= |keys|
      invariant BindAll(r, keys[i..], vs[i..]) == BindAll(m, keys, vs)
    {
      assert keys[i..][1..] == keys[i + 1..];
      assert vs[i..][1..] == vs[i + 1..];
      r := Put(r, keys[i], vs[i]);
      i := i + 1;
    }
  }

  // ---------------------------------------------------------------------
  // The statement builder
  // ---------------------------------------------------------------------

  /** addBrackets. */
  function Bracketed(s: string): (r: string)
    ensures |r| == |s| + 2 && r[0] == '(' && r[|r| - 1] == ')' && r[1..|r| - 1] == s
  {
    "(" + s + ")"
  }

  /** addQuotes: a string or an int between double quotes. */
  function Quoted(x: Scalar): (r: string)
    ensures |r| >= 2 && r[0] == '"' && r[|r| - 1] == '"' && r[1..|r| - 1] == ScalarText(x)
  {
    "\"" + ScalarText(x) + "\""
  }

  /** Each item prefixed by `table.`. */
  function Qualify(table: string, items: seq<string>): (r: seq<string>)
    ensures |r| == |items|
    ensures forall i :: 0 <= i < |items| ==> r[i] == table + "." + items[i]
  {
    seq(|items|, i requires 0 <= i < |items| => table + "." + items[i])
  }

  /** A qualified item is never empty in PHP's sense: it holds at least the dot and one more character or the table. */
  lemma QualifiedNotEmpty(table: string, items: seq<string>)
    ensures forall i :: 0 <= i < |items| ==> !Empty(Qualify(table, items)[i])
  {
    forall i | 0 <= i < |items| ensures !Empty(Qualify(table, items)[i]) {
      var q := Qualify(table, items)[i];
      assert q[|table|] == '.';
    }
  }

  /** addQuotes on each value. */
  function QuotedAll(values: seq<Scalar>): (r: seq<string>)
    ensures |r| == |values| && forall i :: 0 <= i < |values| ==> r[i] == Quoted(values[i])
  {
    seq(|values|, i requires 0 <= i < |values| => Quoted(values[i]))
  }

  /** checkTableName: an empty current table falls back to the main table. */
  function CheckedTable(current: string, main: string): (t: string)
    ensures Empty(current) ==> t == main
    ensures !Empty(current) ==> t == current
  {
    if Empty(current) then main else current
  }

  /**
   * The table a select helper qualifies with: the table passed in when it
   * is not empty, otherwise the current table after checkTableName.
   */
  function TableFor(table: Option<string>, current: string, main: string): (t: string)
    ensures table.Some? && !Empty(table.value) ==> t == table.value
    ensures table.None? || Empty(table.value) ==> t == CheckedTable(current, main)
  {
    if table.Some? && !Empty(table.value) then table.value else CheckedTable(current, main)
  }

  /** The current table after a helper that calls checkTableName only when no table was passed. */
  function TableAfter(table: Option<string>, current: string, main: string): string {
    if table.Some? && !Empty(table.value) then current else CheckedTable(current, main)
  }

  /** The loop of getReadyCommands: the non-empty fragments of the listed clauses, in list order. */
  method CollectReady(f: Fragments, list: seq<Clause>) returns (cmds: seq<string>)
    ensures cmds == ReadyCommands(f, list)
  {
    cmds := [];
    var i := 0;
    while i < |list|
      invariant 0 <= i <= |list|
      invariant cmds == ReadyCommands(f, list[..i])
    {
      var text := f.Get(list[i]);
      assert list[..i + 1][..i] == list[..i] && list[..i + 1][i] == list[i];
      if !Empty(text) {
        cmds := cmds + [text];
      }
      i := i + 1;
    }
    assert list[..|list|] == list;
  }

  class Statement {
    const kind: Kind
    var frags: Fragments
    var mainTable: string
    var additionalTable: string
    var query: string
    var params: seq<Entry>

    /** The placeholder map holds every key once, as a PHP array does. */
    ghost predicate Valid()
      reads this
    {
      UniqueKeys(params)
    }

    /** new Select($table): `SELECT` and `FROM table`, the table as main table. */
    constructor Select(table: string)
      ensures kind == SelectKind && mainTable == table && additionalTable == ""
      ensures frags == NoFragments.(command := "SELECT", from := "FROM " + table)
      ensures query == "" && params == [] && Valid()
    {
      kind := SelectKind;
      mainTable := table;
      additionalTable := "";
      frags := NoFragments.(command := "SELECT", from := "FROM " + table);
      query := "";
      params := [];
    }

    /** new Insert($table): `INSERT INTO table` and the `VALUES` keyword. */
    constructor Insert(table: string)
      ensures kind == InsertKind && mainTable == table && additionalTable == ""
      ensures frags == NoFragments.(command := "INSERT INTO " + table, setKeyword := "VALUES")
      ensures query == "" && params == [] && Valid()
    {
      kind := InsertKind;
      mainTable := table;
      additionalTable := "";
      frags := NoFragments.(command := "INSERT INTO " + table, setKeyword := "VALUES");
      query := "";
      params := [];
    }

    /** new Update($table): `UPDATE table SET`. */
    constructor Update(table: string)
      ensures kind == UpdateKind && mainTable == table && additionalTable == ""
      ensures frags == NoFragments.(command := "UPDATE " + table + " SET")
      ensures query == "" && params == [] && Valid()
    {
      kind := UpdateKind;
      mainTable := table;
      additionalTable := "";
      frags := NoFragments.(command := "UPDATE " + table + " SET");
      query := "";
      params := [];
    }

    /** new Delete($table): `DELETE FROM table`. */
    constructor Delete(table: string)
      ensures kind == DeleteKind && mainTable == table && additionalTable == ""
      ensures frags == NoFragments.(command := "DELETE FROM " + table)
      ensures query == "" && params == [] && Valid()
    {
      kind := DeleteKind;
      mainTable := table;
      additionalTable := "";
      frags := NoFragments.(command := "DELETE FROM " + table);
      query := "";
      params := [];
    }

    /** getPrepareValue: allocate the column's next token, bind the value under it, return the token. */
    method PrepareValue(column: string, value: string) returns (token: string)
      requires Valid()
      modifies this`params
      ensures token == NextToken(old(params), column)
      ensures params == Put(old(params), token, value)
      ensures Valid()
    {
      token := NextToken(params, column);
      PutUnique(params, token, value);
      params := Put(params, token, value);
    }

    /** checkTableName: an empty current table falls back to the main table. */
    method CheckTableName()
      modifies this`additionalTable
      ensures additionalTable == CheckedTable(old(additionalTable), mainTable)
    {
      if Empty(additionalTable) {
        additionalTable := mainTable;
      }
    }

    /** getReadyCommands. */
    method GetReadyCommands() returns (cmds: seq<string>)
      ensures cmds == ReadyCommands(frags, CommandList(kind))
    {
      cmds := CollectReady(frags, CommandList(kind));
    }

    /** createQuery: append the ready commands to the stored text. */
    method CreateQuery()
      modifies this`query
      ensures query == Render(old(query), frags, kind)
    {
      var cmds := GetReadyCommands();
      query := AppendEach(query, cmds, " ");
    }

    /**
     * getQuery: render; with values requested and every placeholder bound,
     * substitute each key's value in map order; with some placeholder
     * unbound, return the rendered text as it is.
     */
    method GetQuery(withValues: bool) returns (r: string)
      modifies this`query
      ensures withValues && UnboundKeys(params) == [] ==> query == Substitute(Render(old(query), frags, kind), params)
      ensures !withValues || UnboundKeys(params) != [] ==> query == Render(old(query), frags, kind)
      ensures r == query
    {
      CreateQuery();
      if withValues {
        var empties := CountUnbound(params);
        if empties > 0 {
          return query;
        }
        query := SubstituteAll(query, params);
      }
      r := query;
    }

    /**
     * getAll: render, then, given as many values as unbound placeholders,
     * bind them in map order; an absent or empty list, or a count mismatch,
     * leaves the map as it was.
     */
    method GetAll(values: Option<seq<string>>) returns (q: string, m: seq<Entry>)
      requires Valid()
      modifies this`query, this`params
      ensures query == Render(old(query), frags, kind)
      ensures params == if values.Some? && values.value != [] && |values.value| == |UnboundKeys(old(params))|
                        then BindAll(old(params), UnboundKeys(old(params)), values.value)
                        else old(params)
      ensures Valid()
      ensures q == query && m == params
    {
      CreateQuery();
      if values.Some? && values.value != [] {
        var unbound := FilterUnbound(params);
        if |values.value| != |unbound| {
          return query, params;
        }
        BindAllUnique(params, unbound, values.value);
        params := BindValues(params, unbound, values.value);
      }
      q, m := query, params;
    }
  }

  /**
   * getPrepareValue once per column, in order, each with its own value: the
   * tokens allocated, the map grown by them.
   */
  method AllocateColumns(s: Statement, columns: seq<string>, values: seq<string>) returns (tokens: seq<string>)
    requires |columns| == |values| && s.Valid()
    modifies s`params
    ensures tokens == AllocateEach(old(s.params), columns, values).tokens
    ensures s.params == AllocateEach(old(s.params), columns, values).entries
    ensures s.Valid()
  {
    ghost var m0 := s.params;
    tokens := [];
    var i := 0;
    while i < |values|
      invariant 0 <= i <= |values| && s.Valid()
      invariant AllocateEach(s.params, columns[i..], values[i..]).entries == AllocateEach(m0, columns, values).entries
      invariant tokens + AllocateEach(s.params, columns[i..], values[i..]).tokens == AllocateEach(m0, columns, values).tokens
    {
      AllocateEachFrom(s.params, columns, values, i);
      var token := s.PrepareValue(columns[i], values[i]);
      ConcatAssoc(tokens, [token], AllocateEach(s.params, columns[i + 1..], values[i + 1..]).tokens);
      tokens := tokens + [token];
      i := i + 1;
    }
    assert tokens + [] == tokens;
  }
}
