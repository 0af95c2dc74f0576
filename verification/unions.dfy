/**
 * UNION on a select (Union): the statement built so far is moved into the
 * union clause, the clauses it took are cleared, and the statement starts
 * over on another table.
 */
module Unions {
  import opened Strings
  import opened Additional
  import opened Statements

  /** The words union() and unionAll() append. */
  const UnionWord := "UNION"
  const UnionAllWord := "UNION ALL"

  /**
   * A clause after it was moved into the union: the command goes back to
   * `SELECT`, FROM keeps its text, every other clause is cleared; an empty
   * clause is skipped and stays as it was.
   */
  function Swept(c: Clause, text: string): string {
    if Empty(text) || c == From then text else if c == Command then "SELECT" else ""
  }

  /** One step of createUnion's loop over the command list. */
  function SweepStep(g: Fragments, c: Clause): Fragments {
    if Empty(g.Get(c)) || c == Union then g
    else
      var moved := g.With(Union, AddSeparator(g.union, " ") + g.Get(c));
      if c == From then moved else moved.With(c, Swept(c, g.Get(c)))
  }

  /** The loop over a prefix of the command list. */
  function Sweep(f: Fragments, cl: seq<Clause>): Fragments {
    if cl == [] then f else SweepStep(Sweep(f, cl[..|cl| - 1]), cl[|cl| - 1])
  }

  /** The loop over a prefix one clause longer. */
  lemma SweepPrefix(f: Fragments, cl: seq<Clause>, i: nat)
    requires i < |cl|
    ensures Sweep(f, cl[..i + 1]) == SweepStep(Sweep(f, cl[..i]), cl[i])
  {
    assert cl[..i + 1][..i] == cl[..i];
  }

  /** A clause that does not occur in a list without repetitions does not occur in its prefix either. */
  lemma LastNotInInit(cl: seq<Clause>)
    requires cl != []
    requires forall i, j :: 0 <= i < j < |cl| ==> cl[i] != cl[j]
    ensures cl[|cl| - 1] !in cl[..|cl| - 1]
  {
    var init := cl[..|cl| - 1];
    forall i | 0 <= i < |init| ensures init[i] != cl[|cl| - 1] {
      assert init[i] == cl[i];
    }
  }

  /** Clauses that are not the union and are not listed keep their text. */
  lemma {:induction false} SweepKeeps(f: Fragments, cl: seq<Clause>, d: Clause)
    requires d != Union && d !in cl
    ensures Sweep(f, cl).Get(d) == f.Get(d)
  {
    if cl != [] {
      var init := cl[..|cl| - 1];
      forall i | 0 <= i < |init| ensures init[i] != d {
        assert init[i] == cl[i];
      }
      SweepKeeps(f, init, d);
    }
  }

  /** Each listed clause other than the union is swept. */
  lemma {:induction false} SweepSweeps(f: Fragments, cl: seq<Clause>, d: Clause)
    requires forall i, j :: 0 <= i < j < |cl| ==> cl[i] != cl[j]
    requires d != Union && d in cl
    ensures Sweep(f, cl).Get(d) == Swept(d, f.Get(d))
  {
    var init := cl[..|cl| - 1];
    var c := cl[|cl| - 1];
    if d == c {
      LastNotInInit(cl);
      SweepKeeps(f, init, d);
    } else {
      assert d in init by {
        var i :| 0 <= i < |cl| && cl[i] == d;
        assert i < |init| && init[i] == d;
      }
      SweepSweeps(f, init, d);
    }
  }

  /**
   * Over a list without repetitions, the union clause gains the non-empty
   * texts of the listed clauses other than itself, in order and separated by
   * spaces.
   */
  lemma {:induction false} SweepUnion(f: Fragments, cl: seq<Clause>)
    requires forall i, j :: 0 <= i < j < |cl| ==> cl[i] != cl[j]
    ensures Sweep(f, cl).union == AppendSeparated(f.union, ReadyCommands(f.With(Union, ""), cl), " ")
  {
    if cl != [] {
      var init := cl[..|cl| - 1];
      var c := cl[|cl| - 1];
      var f0 := f.With(Union, "");
      SweepUnion(f, init);
      var g := Sweep(f, init);
      var before := ReadyCommands(f0, init);
      if c != Union {
        LastNotInInit(cl);
        SweepKeeps(f, init, c);
        assert f0.Get(c) == f.Get(c) == g.Get(c);
      }
      assert Sweep(f, cl) == SweepStep(g, c);
      if Empty(g.Get(c)) || c == Union {
        assert Empty(f0.Get(c));
        assert ReadyCommands(f0, cl) == before + [] == before;
        assert Sweep(f, cl) == g;
        assert g.union == AppendSeparated(f.union, before, " ");
      } else {
        assert ReadyCommands(f0, cl) == before + [f.Get(c)];
        assert (before + [f.Get(c)])[..|before|] == before;
      }
    }
  }

  /** A swept clause that had text is left empty, except the command and FROM. */
  lemma SweptClears(c: Clause, text: string)
    requires !Empty(text) && c != Command && c != From
    ensures Swept(c, text) == ""
  {
  }

  /** The texts a select renders come first from its union clause, when that is set, then from the other clauses. */
  lemma {:induction false} ReadyCommandsUnionHead(f: Fragments, cl: seq<Clause>)
    requires cl != [] && cl[0] == Union
    requires forall i :: 1 <= i < |cl| ==> cl[i] != Union
    ensures ReadyCommands(f, cl) == (if Empty(f.union) then [] else [f.union]) + ReadyCommands(f.With(Union, ""), cl)
  {
    var f0 := f.With(Union, "");
    var init := cl[..|cl| - 1];
    if |cl| == 1 {
      assert init == [];
    } else {
      ReadyCommandsUnionHead(f, init);
      var c := cl[|cl| - 1];
      assert f0.Get(c) == f.Get(c);
    }
  }

  /**
   * union() and unionAll(): every non-empty clause of the select is moved
   * into the union clause, the union word follows, and the statement then
   * selects from the new table, which becomes main and current table.
   */
  /** union() only extends the union clause: the earlier union text is a prefix of the new one. */
  lemma UnionExtends(f: Fragments, word: string)
    ensures f.union <= Sweep(f, CommandList(SelectKind)).union + " " + word
  {
    var cl := CommandList(SelectKind);
    SweepUnion(f, cl);
    AppendSeparatedExtends(f.union, ReadyCommands(f.With(Union, ""), cl), " ");
  }

  method CreateUnion(s: Statement, table: string, word: string)
    requires s.kind == SelectKind
    modifies s`frags, s`mainTable, s`additionalTable
    ensures var swept := Sweep(old(s.frags), CommandList(SelectKind));
            s.frags == swept.(union := swept.union + " " + word, from := "FROM " + table)
    ensures s.mainTable == table && s.additionalTable == table
    ensures old(s.frags.union) <= s.frags.union
  {
    UnionExtends(s.frags, word);
    var cl := CommandList(s.kind);
    ghost var f0 := s.frags;
    var i := 0;
    while i < |cl|
      invariant 0 <= i <= |cl|
      invariant s.frags == Sweep(f0, cl[..i])
    {
      var c := cl[i];
      var text := s.frags.Get(c);
      ghost var g := s.frags;
      SweepPrefix(f0, cl, i);
      if !(Empty(text) || c == Union) {
        s.frags := s.frags.With(Union, AddSeparator(s.frags.union, " ") + text);
        if c == Command {
          s.frags := s.frags.With(c, "SELECT");
        } else if c != From {
          s.frags := s.frags.With(c, "");
        }
      }
      assert s.frags == SweepStep(g, c);
      i := i + 1;
    }
    assert cl[..|cl|] == cl;
    s.frags := s.frags.(union := s.frags.union + " " + word);
    Table(s, table);
  }

  /** table(): the statement now selects from the new table, which becomes main and current table. */
  method Table(s: Statement, table: string)
    modifies s`frags, s`mainTable, s`additionalTable
    ensures s.frags == old(s.frags).(from := "FROM " + table)
    ensures s.mainTable == table && s.additionalTable == table
  {
    s.frags := s.frags.(from := "FROM " + table);
    s.mainTable := table;
    s.additionalTable := table;
  }

  /** union(): createUnion with `UNION`. */
  method AddUnion(s: Statement, table: string)
    requires s.kind == SelectKind
    modifies s`frags, s`mainTable, s`additionalTable
    ensures var swept := Sweep(old(s.frags), CommandList(SelectKind));
            s.frags == swept.(union := swept.union + " " + UnionWord, from := "FROM " + table)
    ensures s.mainTable == table && s.additionalTable == table
  {
    CreateUnion(s, table, UnionWord);
  }

  /** unionAll(): createUnion with `UNION ALL`. */
  method AddUnionAll(s: Statement, table: string)
    requires s.kind == SelectKind
    modifies s`frags, s`mainTable, s`additionalTable
    ensures var swept := Sweep(old(s.frags), CommandList(SelectKind));
            s.frags == swept.(union := swept.union + " " + UnionAllWord, from := "FROM " + table)
    ensures s.mainTable == table && s.additionalTable == table
  {
    CreateUnion(s, table, UnionAllWord);
  }

  /**
   * The union clause after union() holds the statement exactly as it would
   * have been rendered from an empty text, followed by the union word; the
   * earlier union clause, if any, stays in front.
   */
  lemma UnionCapturesStatement(f: Fragments)
    requires f.union != "0"
    ensures Sweep(f, CommandList(SelectKind)).union == Render("", f, SelectKind)
  {
    var cl := CommandList(SelectKind);
    var f0 := f.With(Union, "");
    SweepUnion(f, cl);
    ReadyCommandsUnionHead(f, cl);
    var rest := ReadyCommands(f0, cl);
    if f.union == "" {
      assert ReadyCommands(f, cl) == [] + rest;
    } else {
      AppendSeparatedHead(f.union, rest, " ");
    }
  }

  /** After union() the statement's own clauses other than FROM and the command are empty, so they render nothing twice. */
  lemma UnionClearsClauses(f: Fragments, table: string, word: string, c: Clause)
    requires c in CommandList(SelectKind) && c != Union && c != Command && c != From
    ensures var swept := Sweep(f, CommandList(SelectKind));
            Empty(swept.(union := swept.union + " " + word, from := "FROM " + table).Get(c))
  {
    SweepSweeps(f, CommandList(SelectKind), c);
  }
}
