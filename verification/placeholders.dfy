/**
 * The ordered placeholder map (`preparedColumns`) and the placeholder
 * allocator (getPrepareValue).
 *
 * The map is a PHP array with string keys: a value that keeps insertion
 * order, where assigning to an existing key keeps that key's position. A
 * value that is empty in PHP's sense ("" or "0") marks a placeholder that is
 * still unbound.
 */
module Placeholders {
  import opened Strings

  datatype Entry = Entry(key: string, value: string)

  function Keys(m: seq<Entry>): (ks: seq<string>)
    ensures |ks| == |m|
    ensures forall i :: 0 <= i < |m| ==> ks[i] == m[i].key
  {
    seq(|m|, i requires 0 <= i < |m| => m[i].key)
  }

  /** No key occurs twice: what a PHP array guarantees. */
  predicate UniqueKeys(m: seq<Entry>) {
    forall i, j :: 0 <= i < j < |m| ==> m[i].key != m[j].key
  }

  /** The position of a key: its first (for a map with unique keys, its only) occurrence. */
  function IndexOf(m: seq<Entry>, k: string): (i: nat)
    requires k in Keys(m)
    ensures i < |m| && m[i].key == k
    ensures forall j :: 0 <= j < i ==> m[j].key != k
  {
    if m[0].key == k then 0
    else
      assert k in Keys(m[1..]) by {
        var j :| 0 <= j < |m| && Keys(m)[j] == k;
        assert j > 0 && Keys(m[1..])[j - 1] == k;
      }
      1 + IndexOf(m[1..], k)
  }

  /** `$map[$k]` for a key that is present. */
  function Lookup(m: seq<Entry>, k: string): string
    requires k in Keys(m)
  {
    m[IndexOf(m, k)].value
  }

  lemma KeysCons(e: Entry, m: seq<Entry>)
    ensures Keys([e] + m) == [e.key] + Keys(m)
  {
  }

  lemma LookupCons(e: Entry, m: seq<Entry>, k: string)
    requires k in Keys([e] + m)
    ensures e.key != k ==> k in Keys(m) && Lookup([e] + m, k) == Lookup(m, k)
    ensures e.key == k ==> Lookup([e] + m, k) == e.value
  {
    KeysCons(e, m);
    var em := [e] + m;
    assert em[0] == e && em[1..] == m;
    if e.key != k {
      assert k in Keys(m);
      assert IndexOf(em, k) == 1 + IndexOf(m, k);
      assert em[1 + IndexOf(m, k)] == m[IndexOf(m, k)];
    } else {
      assert IndexOf(em, k) == 0;
    }
  }

  /** A key's position is the first index holding it. */
  lemma IndexOfAt(m: seq<Entry>, k: string, i: nat)
    requires i < |m| && m[i].key == k
    requires forall j :: 0 <= j < i ==> m[j].key != k
    ensures k in Keys(m) && IndexOf(m, k) == i
  {
    assert Keys(m)[i] == k;
  }

  /**
   * `$map[$k] = $v`: a key already present keeps its position, a new key is
   * appended after all others.
   */
  function Put(m: seq<Entry>, k: string, v: string): seq<Entry>
    decreases |m|
  {
    if m == [] then [Entry(k, v)]
    else if m[0].key == k then [Entry(k, v)] + m[1..]
    else [m[0]] + Put(m[1..], k, v)
  }

  /** A key already present is overwritten where it stands. */
  lemma {:induction false} PutExisting(m: seq<Entry>, k: string, v: string)
    requires k in Keys(m)
    ensures Put(m, k, v) == m[IndexOf(m, k) := Entry(k, v)]
    decreases |m|
  {
    if m[0].key == k {
      assert IndexOf(m, k) == 0;
      assert [Entry(k, v)] + m[1..] == m[0 := Entry(k, v)];
    } else {
      KeysCons(m[0], m[1..]);
      assert [m[0]] + m[1..] == m;
      assert k in Keys(m[1..]);
      var j := IndexOf(m[1..], k);
      assert IndexOf(m, k) == 1 + j;
      PutExisting(m[1..], k, v);
      ConsUpdate(m[0], m[1..], j, Entry(k, v));
    }
  }

  lemma ConsUpdate<T>(x: T, s: seq<T>, j: nat, y: T)
    requires j < |s|
    ensures [x] + s[j := y] == ([x] + s)[1 + j := y]
  {
  }

  /** A new key is appended after all others. */
  lemma {:induction false} PutNew(m: seq<Entry>, k: string, v: string)
    requires k !in Keys(m)
    ensures Put(m, k, v) == m + [Entry(k, v)]
    decreases |m|
  {
    if m != [] {
      KeysCons(m[0], m[1..]);
      assert [m[0]] + m[1..] == m;
      PutNew(m[1..], k, v);
    }
  }

  /** The keys after an assignment: the same keys, or the new key at the end. */
  lemma PutKeys(m: seq<Entry>, k: string, v: string)
    ensures Keys(Put(m, k, v)) == if k in Keys(m) then Keys(m) else Keys(m) + [k]
    ensures k !in Keys(m) ==> Put(m, k, v)[..|m|] == m
  {
    if k in Keys(m) {
      PutExisting(m, k, v);
      assert Keys(m[IndexOf(m, k) := Entry(k, v)]) == Keys(m);
    } else {
      PutNew(m, k, v);
      assert Keys(m + [Entry(k, v)]) == Keys(m) + [k];
    }
  }

  /** After `$map[$k] = $v` the key holds v and every other key keeps its value. */
  lemma PutLookup(m: seq<Entry>, k: string, v: string, k': string)
    requires k' == k || k' in Keys(m)
    ensures k' in Keys(Put(m, k, v))
    ensures Lookup(Put(m, k, v), k') == if k' == k then v else Lookup(m, k')
  {
    var r := Put(m, k, v);
    if k in Keys(m) {
      PutExisting(m, k, v);
      var i := IndexOf(m, k);
      if k' == k {
        IndexOfAt(r, k, i);
      } else {
        IndexOfAt(r, k', IndexOf(m, k'));
      }
    } else {
      PutNew(m, k, v);
      if k' == k {
        assert forall j :: 0 <= j < |m| ==> r[j].key == Keys(m)[j];
        IndexOfAt(r, k, |m|);
      } else {
        IndexOfAt(r, k', IndexOf(m, k'));
      }
    }
  }

  /** Assignment never makes a key occur twice. */
  lemma PutUnique(m: seq<Entry>, k: string, v: string)
    requires UniqueKeys(m)
    ensures UniqueKeys(Put(m, k, v))
  {
    var r := Put(m, k, v);
    PutKeys(m, k, v);
    assert forall i :: 0 <= i < |r| ==> r[i].key == Keys(r)[i];
  }

  // ---------------------------------------------------------------------
  // Allocation
  // ---------------------------------------------------------------------

  /**
   * The allocator's pattern `^ base (\d+)? $`: the key is the base followed by
   * zero or more decimal digits.
   */
  predicate MatchesBase(key: string, base: string) {
    base <= key && AllDigits(key[|base|..])
  }

  /** The array_reduce over the keys: how many keys match the base. */
  function CountMatching(keys: seq<string>, base: string): (n: nat)
    ensures n <= |keys|
  {
    if keys == [] then 0
    else CountMatching(keys[..|keys| - 1], base) + (if MatchesBase(keys[|keys| - 1], base) then 1 else 0)
  }

  /** str_replace('.', '_', $column). */
  function ReplaceDots(s: string): (r: string)
    ensures |r| == |s|
    ensures forall i :: 0 <= i < |s| ==> r[i] == (if s[i] == '.' then '_' else s[i])
  {
    seq(|s|, i requires 0 <= i < |s| => if s[i] == '.' then '_' else s[i])
  }

  /** The base token of a column: a colon, then the column with its dots turned into underscores. */
  function BaseOf(column: string): (base: string)
    ensures |base| == |column| + 1 && base[0] == ':'
  {
    ":" + ReplaceDots(column)
  }

  /**
   * The token getPrepareValue allocates for a column: the base when no key
   * matches it yet, and otherwise the base followed by one more than the
   * number of matching keys. It is always the base followed by digits.
   */
  function NextToken(m: seq<Entry>, column: string): (t: string)
    ensures MatchesBase(t, BaseOf(column))
    ensures t[..|column| + 1] == BaseOf(column)
    ensures CountMatching(Keys(m), BaseOf(column)) == 0 <==> t == BaseOf(column)
  {
    var base := BaseOf(column);
    var count := CountMatching(Keys(m), base);
    var t := if count > 0 then base + NatToString(count + 1) else base;
    assert t[|base|..] == if count > 0 then NatToString(count + 1) else "";
    t
  }

  /** The n-th member of a base's token sequence: base, base2, base3, … */
  function Numbered(base: string, n: nat): (t: string)
    ensures MatchesBase(t, base)
  {
    if n <= 1 then base
    else
      var t := base + NatToString(n);
      assert t[|base|..] == NatToString(n);
      t
  }

  /** The token is numbered by one more than the count of matching keys. */
  lemma NextTokenIsNumbered(m: seq<Entry>, column: string)
    ensures NextToken(m, column) == Numbered(BaseOf(column), CountMatching(Keys(m), BaseOf(column)) + 1)
  {
  }

  /** Different positions in the token sequence give different tokens. */
  lemma NumberedInjective(base: string, i: nat, j: nat)
    requires 1 <= i && 1 <= j && Numbered(base, i) == Numbered(base, j)
    ensures i == j
  {
    if i > 1 && j > 1 {
      var a, b := Numbered(base, i), Numbered(base, j);
      assert a[|base|..] == NatToString(i);
      assert b[|base|..] == NatToString(j);
      NatToStringInjective(i, j);
    }
  }

  /**
   * The keys of m that match the base are exactly the first n members of the
   * base's sequence, each once.
   */
  ghost predicate Family(m: seq<Entry>, base: string, n: nat) {
    && CountMatching(Keys(m), base) == n
    && forall i :: 0 <= i < |m| && MatchesBase(m[i].key, base) ==>
         exists j :: 1 <= j <= n && m[i].key == Numbered(base, j)
  }

  /** A map with no key matching the base holds the empty family. */
  lemma NoMatchIsFamily(m: seq<Entry>, base: string)
    requires CountMatching(Keys(m), base) == 0
    ensures Family(m, base, 0)
  {
    forall i | 0 <= i < |m| && MatchesBase(m[i].key, base) ensures false {
      CountZero(Keys(m), base, i);
    }
  }

  lemma {:induction false} CountZero(keys: seq<string>, base: string, i: nat)
    requires CountMatching(keys, base) == 0 && i < |keys|
    ensures !MatchesBase(keys[i], base)
  {
    if i < |keys| - 1 {
      CountZero(keys[..|keys| - 1], base, i);
    }
  }

  lemma CountSnoc(keys: seq<string>, k: string, base: string)
    ensures CountMatching(keys + [k], base) == CountMatching(keys, base) + (if MatchesBase(k, base) then 1 else 0)
  {
    assert (keys + [k])[..|keys|] == keys;
  }

  /**
   * When the matching keys form the first n members of the sequence, the next
   * allocation yields member n + 1, which is a fresh key, and afterwards the
   * matching keys form the first n + 1 members.
   */
  lemma NextInFamily(m: seq<Entry>, column: string, v: string, n: nat)
    requires Family(m, BaseOf(column), n)
    ensures NextToken(m, column) == Numbered(BaseOf(column), n + 1)
    ensures NextToken(m, column) !in Keys(m)
    ensures Family(Put(m, NextToken(m, column), v), BaseOf(column), n + 1)
  {
    NextTokenFresh(m, column, n);
    FamilyGrows(m, BaseOf(column), n, NextToken(m, column), v);
  }

  /** The next token of a family is its member n + 1, which is not a key yet. */
  lemma NextTokenFresh(m: seq<Entry>, column: string, n: nat)
    requires Family(m, BaseOf(column), n)
    ensures NextToken(m, column) == Numbered(BaseOf(column), n + 1)
    ensures NextToken(m, column) !in Keys(m)
  {
    var base := BaseOf(column);
    var t := NextToken(m, column);
    NextTokenIsNumbered(m, column);
    if t in Keys(m) {
      var i :| 0 <= i < |m| && Keys(m)[i] == t;
      assert MatchesBase(m[i].key, base);
      var j :| 1 <= j <= n && m[i].key == Numbered(base, j);
      NumberedInjective(base, j, n + 1);
      assert false;
    }
  }

  /** Appending member n + 1 to a family of n members gives a family of n + 1. */
  lemma FamilyGrows(m: seq<Entry>, base: string, n: nat, t: string, v: string)
    requires Family(m, base, n) && t == Numbered(base, n + 1) && t !in Keys(m)
    ensures Family(Put(m, t, v), base, n + 1)
  {
    PutNew(m, t, v);
    FamilySnoc(m, base, n, Entry(t, v));
  }

  lemma FamilySnoc(m: seq<Entry>, base: string, n: nat, e: Entry)
    requires Family(m, base, n) && e.key == Numbered(base, n + 1)
    ensures Family(m + [e], base, n + 1)
  {
    var r := m + [e];
    KeysSnoc(m, e);
    CountSnoc(Keys(m), e.key, base);
    forall i | 0 <= i < |r| && MatchesBase(r[i].key, base)
      ensures exists j :: 1 <= j <= n + 1 && r[i].key == Numbered(base, j)
    {
      if i == |m| {
        assert r[i].key == Numbered(base, n + 1);
      } else {
        assert r[i] == m[i];
      }
    }
  }

  lemma KeysSnoc(m: seq<Entry>, e: Entry)
    ensures Keys(m + [e]) == Keys(m) + [e.key]
  {
  }

  /**
   * The first two allocations for a column on an empty map: the base, bound
   * in a map of one entry, and then the base followed by 2.
   */
  lemma FirstTwoTokens(column: string, v: string)
    ensures NextToken([], column) == BaseOf(column)
    ensures Put([], BaseOf(column), v) == [Entry(BaseOf(column), v)]
    ensures NextToken([Entry(BaseOf(column), v)], column) == BaseOf(column) + "2"
  {
    var base := BaseOf(column);
    var m1 := [Entry(base, v)];
    assert Keys(m1) == [base];
    assert MatchesBase(base, base) by {
      assert base[|base|..] == "";
    }
    CountSnoc([], base, base);
    assert [] + [base] == [base];
    assert NatToString(2) == "2";
  }

  /** A second key different from the first is appended after it. */
  lemma PutSecond(base: string, x: string, y: string)
    ensures Put([Entry(base, x)], base + "2", y) == [Entry(base, x), Entry(base + "2", y)]
  {
    assert base + "2" != base by {
      assert |base + "2"| == |base| + 1;
    }
  }

  /** The result of a run of allocations: the tokens in order, and the map afterwards. */
  datatype Allocation = Allocation(tokens: seq<string>, entries: seq<Entry>)

  /**
   * A run of getPrepareValue calls for one column, one per value, in order:
   * what an IN list and a BETWEEN pair do.
   */
  function AllocateRun(m: seq<Entry>, column: string, values: seq<string>): (a: Allocation)
    ensures |a.tokens| == |values|
    decreases |values|
  {
    if values == [] then Allocation([], m)
    else
      var t := NextToken(m, column);
      var rest := AllocateRun(Put(m, t, values[0]), column, values[1..]);
      Allocation([t] + rest.tokens, rest.entries)
  }

  /** A run of allocations keeps every key unique. */
  lemma {:induction false} AllocateRunUnique(m: seq<Entry>, column: string, values: seq<string>)
    requires UniqueKeys(m)
    ensures UniqueKeys(AllocateRun(m, column, values).entries)
    decreases |values|
  {
    if values != [] {
      var t := NextToken(m, column);
      PutUnique(m, t, values[0]);
      AllocateRunUnique(Put(m, t, values[0]), column, values[1..]);
    }
  }

  /** Members from, from + 1, … of a base's token sequence, k of them. */
  function NumberedRun(base: string, from: nat, k: nat): (r: seq<string>)
    ensures |r| == k
  {
    seq(k, i requires 0 <= i < k => Numbered(base, from + i))
  }

  lemma NumberedRunCons(base: string, from: nat, k: nat)
    requires k > 0
    ensures NumberedRun(base, from, k) == [Numbered(base, from)] + NumberedRun(base, from + 1, k - 1)
  {
  }

  /**
   * Repeated allocations for one column, starting from a map whose keys
   * matching the column's base are the first n members of its sequence,
   * yield members n + 1, n + 2, … in turn …
   */
  lemma {:induction false} RepeatedAllocations(m: seq<Entry>, column: string, values: seq<string>, n: nat)
    requires Family(m, BaseOf(column), n)
    ensures AllocateRun(m, column, values).tokens == NumberedRun(BaseOf(column), n + 1, |values|)
    decreases |values|
  {
    if values != [] {
      var t := NextToken(m, column);
      NextInFamily(m, column, values[0], n);
      assert |values[1..]| == |values| - 1;
      RepeatedAllocations(Put(m, t, values[0]), column, values[1..], n + 1);
      NumberedRunCons(BaseOf(column), n + 1, |values|);
    }
  }

  /** … and leave the first n + (number of allocations) members as the matching keys. */
  lemma {:induction false} RepeatedAllocationsFamily(m: seq<Entry>, column: string, values: seq<string>, n: nat)
    requires Family(m, BaseOf(column), n)
    ensures Family(AllocateRun(m, column, values).entries, BaseOf(column), n + |values|)
    decreases |values|
  {
    if values != [] {
      var t := NextToken(m, column);
      NextInFamily(m, column, values[0], n);
      assert n + 1 + |values[1..]| == n + |values|;
      RepeatedAllocationsFamily(Put(m, t, values[0]), column, values[1..], n + 1);
    }
  }

  /**
   * Hence, in that situation, the tokens of a run are pairwise distinct and
   * none of them was a key before the run.
   */
  lemma RepeatedAllocationsFresh(m: seq<Entry>, column: string, values: seq<string>, n: nat)
    requires Family(m, BaseOf(column), n)
    ensures var a := AllocateRun(m, column, values);
            && (forall i, j :: 0 <= i < j < |values| ==> a.tokens[i] != a.tokens[j])
            && (forall i :: 0 <= i < |values| ==> a.tokens[i] !in Keys(m))
  {
    RepeatedAllocations(m, column, values, n);
    NumberedRunFresh(m, BaseOf(column), n, |values|);
  }

  lemma NumberedRunFresh(m: seq<Entry>, base: string, n: nat, k: nat)
    requires Family(m, base, n)
    ensures var run := NumberedRun(base, n + 1, k);
            && (forall i, j :: 0 <= i < j < k ==> run[i] != run[j])
            && (forall i :: 0 <= i < k ==> run[i] !in Keys(m))
  {
    var run := NumberedRun(base, n + 1, k);
    forall i, j | 0 <= i < j < k ensures run[i] != run[j] {
      if run[i] == run[j] {
        NumberedInjective(base, n + 1 + i, n + 1 + j);
      }
    }
    forall i | 0 <= i < k ensures run[i] !in Keys(m) {
      var t := run[i];
      assert t == Numbered(base, n + 1 + i);
      if t in Keys(m) {
        var p :| 0 <= p < |m| && Keys(m)[p] == t;
        assert MatchesBase(m[p].key, base);
        var j :| 1 <= j <= n && m[p].key == Numbered(base, j);
        NumberedInjective(base, j, n + 1 + i);
      }
    }
  }

  /**
   * Allocation does not guarantee unique placeholders in general: with `:a`
   * and `:a3` present, allocating for column `a` counts two matching keys,
   * yields `:a3` and overwrites the value bound to it.
   */
  lemma AllocationCanOverwrite()
    ensures var m := [Entry(":a", "1"), Entry(":a3", "2")];
            && NextToken(m, "a") == ":a3"
            && Put(m, NextToken(m, "a"), "x") == [Entry(":a", "1"), Entry(":a3", "x")]
  {
    var m := [Entry(":a", "1"), Entry(":a3", "2")];
    assert BaseOf("a") == ":a";
    assert Keys(m) == [":a", ":a3"];
    assert MatchesBase(":a", ":a");
    assert ":a3"[2..] == "3";
    assert MatchesBase(":a3", ":a");
    assert Keys(m)[..1] == [":a"];
    assert CountMatching(Keys(m), ":a") == 2;
    assert NatToString(3) == "3";
    assert IndexOf(m, ":a3") == 1;
  }

  /**
   * A run of getPrepareValue calls with one column per value, in order: what
   * an insert's values(), prepareValues() and an update's setPrepare() do.
   */
  function AllocateEach(m: seq<Entry>, columns: seq<string>, values: seq<string>): (a: Allocation)
    requires |columns| == |values|
    ensures |a.tokens| == |values|
    decreases |values|
  {
    if values == [] then Allocation([], m)
    else
      var t := NextToken(m, columns[0]);
      var rest := AllocateEach(Put(m, t, values[0]), columns[1..], values[1..]);
      Allocation([t] + rest.tokens, rest.entries)
  }

  /** The map a run of allocations has reached before its i-th allocation. */
  function MapBefore(m: seq<Entry>, columns: seq<string>, values: seq<string>, i: nat): seq<Entry>
    requires |columns| == |values| && i < |values|
    decreases i
  {
    if i == 0 then m
    else MapBefore(Put(m, NextToken(m, columns[0]), values[0]), columns[1..], values[1..], i - 1)
  }

  /** The i-th token of a run is the token getPrepareValue gives for the i-th column in the map reached so far. */
  lemma {:induction false} AllocateEachToken(m: seq<Entry>, columns: seq<string>, values: seq<string>, i: nat)
    requires |columns| == |values| && i < |values|
    ensures AllocateEach(m, columns, values).tokens[i] == NextToken(MapBefore(m, columns, values, i), columns[i])
    decreases i
  {
    if i == 0 {
      AllocateEachHead(m, columns, values);
    } else {
      var m' := Put(m, NextToken(m, columns[0]), values[0]);
      AllocateEachTail(m, columns, values, i);
      AllocateEachToken(m', columns[1..], values[1..], i - 1);
    }
  }

  /** The first allocation of a run is the token for the first column. */
  lemma AllocateEachHead(m: seq<Entry>, columns: seq<string>, values: seq<string>)
    requires |columns| == |values| && 0 < |values|
    ensures AllocateEach(m, columns, values).tokens[0] == NextToken(MapBefore(m, columns, values, 0), columns[0])
  {
  }

  /** Past the first allocation, a run continues as the run from the map that allocation leaves. */
  lemma AllocateEachTail(m: seq<Entry>, columns: seq<string>, values: seq<string>, i: nat)
    requires |columns| == |values| && 0 < i < |values|
    ensures var m' := Put(m, NextToken(m, columns[0]), values[0]);
            && AllocateEach(m, columns, values).tokens[i] == AllocateEach(m', columns[1..], values[1..]).tokens[i - 1]
            && MapBefore(m, columns, values, i) == MapBefore(m', columns[1..], values[1..], i - 1)
            && columns[i] == columns[1..][i - 1]
  {
    var t := NextToken(m, columns[0]);
    var m' := Put(m, t, values[0]);
    var rest := AllocateEach(m', columns[1..], values[1..]);
    assert AllocateEach(m, columns, values) == Allocation([t] + rest.tokens, rest.entries);
    assert ([t] + rest.tokens)[i] == rest.tokens[i - 1];
  }

  /** Each token of such a run is named after its own column. */
  lemma AllocateEachNamed(m: seq<Entry>, columns: seq<string>, values: seq<string>, i: nat)
    requires |columns| == |values| && i < |values|
    ensures MatchesBase(AllocateEach(m, columns, values).tokens[i], BaseOf(columns[i]))
  {
    AllocateEachToken(m, columns, values, i);
  }

  /** The run over the columns and values from position i on: the i-th allocation, then the run from the map it leaves. */
  lemma AllocateEachFrom(m: seq<Entry>, columns: seq<string>, values: seq<string>, i: nat)
    requires |columns| == |values| && i < |values|
    ensures var t := NextToken(m, columns[i]);
            var rest := AllocateEach(Put(m, t, values[i]), columns[i + 1..], values[i + 1..]);
            AllocateEach(m, columns[i..], values[i..]) == Allocation([t] + rest.tokens, rest.entries)
  {
    assert values[i..][1..] == values[i + 1..];
    assert columns[i..][1..] == columns[i + 1..];
  }

  /** Such a run keeps every key unique. */
  lemma {:induction false} AllocateEachUnique(m: seq<Entry>, columns: seq<string>, values: seq<string>)
    requires |columns| == |values| && UniqueKeys(m)
    ensures UniqueKeys(AllocateEach(m, columns, values).entries)
    decreases |values|
  {
    if values != [] {
      var t := NextToken(m, columns[0]);
      PutUnique(m, t, values[0]);
      AllocateEachUnique(Put(m, t, values[0]), columns[1..], values[1..]);
    }
  }

  /** n empty values: what prepareValues() and setPrepare() bind. */
  function Blanks(n: nat): (r: seq<string>)
    ensures |r| == n && forall i :: 0 <= i < n ==> r[i] == ""
  {
    seq(n, i => "")
  }

  lemma BlanksTail(n: nat)
    requires n > 0
    ensures Blanks(n)[0] == "" && Blanks(n)[1..] == Blanks(n - 1)
  {
  }

  /** A run binding empty values keeps a key already bound to the empty value. */
  lemma {:induction false} AllocateEachKeeps(m: seq<Entry>, columns: seq<string>, k: string)
    requires k in Keys(m) && Lookup(m, k) == ""
    ensures k in Keys(AllocateEach(m, columns, Blanks(|columns|)).entries)
    ensures Lookup(AllocateEach(m, columns, Blanks(|columns|)).entries, k) == ""
    decreases |columns|
  {
    if columns != [] {
      var t := NextToken(m, columns[0]);
      BlanksTail(|columns|);
      PutLookup(m, t, "", k);
      AllocateEachKeeps(Put(m, t, ""), columns[1..], k);
    }
  }

  /** After a run binding empty values, each token of the run is bound to the empty value. */
  lemma {:induction false} AllocateEachBinds(m: seq<Entry>, columns: seq<string>, t: string)
    requires t in AllocateEach(m, columns, Blanks(|columns|)).tokens
    ensures t in Keys(AllocateEach(m, columns, Blanks(|columns|)).entries)
    ensures Lookup(AllocateEach(m, columns, Blanks(|columns|)).entries, t) == ""
    decreases |columns|
  {
    var first := NextToken(m, columns[0]);
    var m' := Put(m, first, "");
    BlanksTail(|columns|);
    var rest := AllocateEach(m', columns[1..], Blanks(|columns| - 1));
    assert AllocateEach(m, columns, Blanks(|columns|)) == Allocation([first] + rest.tokens, rest.entries);
    if t in rest.tokens {
      AllocateEachBinds(m', columns[1..], t);
    } else {
      assert t == first;
      PutLookup(m, first, "", first);
      AllocateEachKeeps(m', columns[1..], first);
    }
  }

  // ---------------------------------------------------------------------
  // Merging a child builder's map into its owner's (array_merge)
  // ---------------------------------------------------------------------

  /** array_merge($a, $b) for string keys: b's entries in order, each written into a with Put. */
  function Merge(a: seq<Entry>, b: seq<Entry>): seq<Entry>
    decreases |b|
  {
    if b == [] then a else Merge(Put(a, b[0].key, b[0].value), b[1..])
  }

  /** The keys of ks that are not in prior, in ks's order. */
  function NewKeys(prior: seq<string>, ks: seq<string>): seq<string> {
    if ks == [] then []
    else (if ks[0] in prior then [] else [ks[0]]) + NewKeys(prior, ks[1..])
  }

  lemma {:induction false} NewKeysIgnores(prior: seq<string>, x: string, ks: seq<string>)
    requires x !in ks
    ensures NewKeys(prior + [x], ks) == NewKeys(prior, ks)
  {
    if ks != [] {
      NewKeysIgnores(prior, x, ks[1..]);
    }
  }

  /**
   * The merged map keeps the owner's keys in their positions and appends the
   * child's new keys in the child's order.
   */
  lemma {:induction false} MergeKeys(a: seq<Entry>, b: seq<Entry>)
    requires UniqueKeys(b)
    ensures Keys(Merge(a, b)) == Keys(a) + NewKeys(Keys(a), Keys(b))
    decreases |b|
  {
    if b != [] {
      var e, rest := b[0], b[1..];
      var a' := Put(a, e.key, e.value);
      PutKeys(a, e.key, e.value);
      UniqueTail(b);
      MergeKeys(a', rest);
      assert Keys(Merge(a, b)) == Keys(a') + NewKeys(Keys(a'), Keys(rest));
      assert b == [e] + rest;
      KeysCons(e, rest);
      var kb := Keys(b);
      assert kb[0] == e.key && kb[1..] == Keys(rest);
      if e.key in Keys(a) {
        assert Keys(a') == Keys(a);
        assert NewKeys(Keys(a), kb) == NewKeys(Keys(a), Keys(rest));
      } else {
        assert Keys(a') == Keys(a) + [e.key];
        assert NewKeys(Keys(a), kb) == [e.key] + NewKeys(Keys(a), Keys(rest));
        NewKeysIgnores(Keys(a), e.key, Keys(rest));
        ConcatAssoc(Keys(a), [e.key], NewKeys(Keys(a), Keys(rest)));
      }
    }
  }

  lemma ConcatAssoc(x: seq<string>, y: seq<string>, z: seq<string>)
    ensures (x + y) + z == x + (y + z)
  {
  }

  /** The first key of a map with unique keys is not among the others, which are unique too. */
  lemma UniqueTail(b: seq<Entry>)
    requires UniqueKeys(b) && b != []
    ensures UniqueKeys(b[1..]) && b[0].key !in Keys(b[1..])
  {
  }

  /**
   * After the merge every key of either map is present; the child's value
   * wins on a key both maps hold, and the owner's other values are kept.
   */
  lemma {:induction false} MergeLookup(a: seq<Entry>, b: seq<Entry>, k: string)
    requires UniqueKeys(b)
    requires k in Keys(a) || k in Keys(b)
    ensures k in Keys(Merge(a, b))
    ensures Lookup(Merge(a, b), k) == if k in Keys(b) then Lookup(b, k) else Lookup(a, k)
    decreases |b|
  {
    if b != [] {
      var e, rest := b[0], b[1..];
      var a' := Put(a, e.key, e.value);
      UniqueTail(b);
      assert b == [e] + rest;
      KeysCons(e, rest);
      if k == e.key {
        PutLookup(a, e.key, e.value, k);
        MergeLookup(a', rest, k);
        LookupCons(e, rest, k);
      } else if k in Keys(rest) {
        MergeLookup(a', rest, k);
        LookupCons(e, rest, k);
      } else {
        PutLookup(a, e.key, e.value, k);
        MergeLookup(a', rest, k);
      }
    }
  }

  /** The merged map, like every PHP array, holds each key once. */
  lemma {:induction false} MergeUnique(a: seq<Entry>, b: seq<Entry>)
    requires UniqueKeys(a)
    ensures UniqueKeys(Merge(a, b))
    decreases |b|
  {
    if b != [] {
      PutUnique(a, b[0].key, b[0].value);
      MergeUnique(Put(a, b[0].key, b[0].value), b[1..]);
    }
  }
}
