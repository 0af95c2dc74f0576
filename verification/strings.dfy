/**
 * Text helpers the builder relies on: PHP's notion of an empty string, decimal
 * numerals (the `(string)` cast of an int), implode/explode, trim of brackets
 * and the replacement of a first occurrence.
 */
module Strings {

  /** PHP's empty() applied to a string: true for "" and for "0". */
  predicate Empty(s: string) {
    s == "" || s == "0"
  }

  predicate IsDigit(c: char) {
    '0' <= c <= '9'
  }

  predicate AllDigits(s: string) {
    forall i :: 0 <= i < |s| ==> IsDigit(s[i])
  }

  /** A scalar argument the source accepts as `string|int`. */
  datatype Scalar = Text(s: string) | Number(n: int)

  function DigitChar(d: nat): (c: char)
    requires d < 10
    ensures IsDigit(c)
  {
    ('0' as int + d) as char
  }

  function DigitValue(c: char): (d: nat)
    requires IsDigit(c)
    ensures d < 10
  {
    c as int - '0' as int
  }

  /** The decimal numeral of n without leading zeros, as PHP's `(string)` cast writes it. */
  function NatToString(n: nat): (r: string)
    ensures |r| >= 1 && AllDigits(r)
    ensures r[0] == '0' <==> n == 0
    decreases n
  {
    if n < 10 then [DigitChar(n)] else NatToString(n / 10) + [DigitChar(n % 10)]
  }

  /** PHP's `(string)` cast of an int: a minus sign for negative numbers. */
  function IntToString(i: int): (r: string)
    ensures |r| >= 1
    ensures Empty(r) <==> i == 0
    ensures r[0] == '-' <==> i < 0
    ensures i >= 0 ==> AllDigits(r) && ParseDigits(r) == i
    ensures i < 0 ==> AllDigits(r[1..]) && ParseDigits(r[1..]) == -i
  {
    if i < 0 then
      ParseNatToString(-i);
      assert ("-" + NatToString(-i))[1..] == NatToString(-i);
      "-" + NatToString(-i)
    else
      ParseNatToString(i);
      NatToString(i)
  }

  /** The value of a string of decimal digits; the inverse of NatToString. */
  function ParseDigits(s: string): nat
    requires AllDigits(s)
  {
    if s == [] then 0 else 10 * ParseDigits(s[..|s| - 1]) + DigitValue(s[|s| - 1])
  }

  lemma {:induction false} ParseNatToString(n: nat)
    ensures ParseDigits(NatToString(n)) == n
  {
    var r := NatToString(n);
    if n >= 10 {
      ParseNatToString(n / 10);
      assert r[..|r| - 1] == NatToString(n / 10);
      assert DigitValue(r[|r| - 1]) == n % 10;
    }
  }

  /** Distinct numbers have distinct numerals. */
  lemma NatToStringInjective(a: nat, b: nat)
    requires NatToString(a) == NatToString(b)
    ensures a == b
  {
    ParseNatToString(a);
    ParseNatToString(b);
  }

  /** An optional minus sign followed by one or more decimal digits: the integer texts that PHP's is_numeric accepts. */
  predicate IsNumericText(s: string) {
    if |s| > 0 && s[0] == '-' then |s| > 1 && AllDigits(s[1..]) else |s| > 0 && AllDigits(s)
  }

  /** PHP string interpolation of a `string|int` value. */
  function ScalarText(x: Scalar): string {
    match x
    case Text(s) => s
    case Number(n) => IntToString(n)
  }

  /** implode($sep, $parts). */
  function Implode(parts: seq<string>, sep: string): (r: string)
    ensures parts == [] ==> r == ""
    ensures |parts| == 1 ==> r == parts[0]
  {
    if parts == [] then ""
    else if |parts| == 1 then parts[0]
    else parts[0] + sep + Implode(parts[1..], sep)
  }

  /** Appending one more part to a non-empty list appends the separator and the part. */
  lemma {:induction false} ImplodeSnoc(parts: seq<string>, x: string, sep: string)
    requires parts != []
    ensures Implode(parts + [x], sep) == Implode(parts, sep) + sep + x
  {
    if |parts| == 1 {
      assert (parts + [x])[1..] == [x];
    } else {
      ImplodeSnoc(parts[1..], x, sep);
      assert (parts + [x])[1..] == parts[1..] + [x];
    }
  }

  /** explode($sep, $s): the pieces of s between non-overlapping occurrences of sep, scanning left to right. */
  function Explode(s: string, sep: string): (r: seq<string>)
    requires sep != ""
    ensures |r| >= 1
    decreases |s|
  {
    if |s| < |sep| then [s]
    else if s[..|sep|] == sep then [""] + Explode(s[|sep|..], sep)
    else
      var rest := Explode(s[1..], sep);
      [[s[0]] + rest[0]] + rest[1..]
  }

  /** A prefix without the separator's first character is glued to the first piece of what follows it. */
  lemma {:induction false} ExplodePrefix(p: string, t: string, sep: string)
    requires sep != "" && sep[0] !in p
    ensures Explode(p + t, sep) == [p + Explode(t, sep)[0]] + Explode(t, sep)[1..]
    decreases |p|
  {
    if p != [] {
      var s := p + t;
      assert s[0] == p[0];
      if |s| >= |sep| {
        assert s[..|sep|] != sep by { assert s[..|sep|][0] == p[0] != sep[0]; }
        assert s[1..] == p[1..] + t;
        ExplodePrefix(p[1..], t, sep);
        assert [p[0]] + (p[1..] + Explode(t, sep)[0]) == p + Explode(t, sep)[0];
      } else {
        assert |t| < |sep| && Explode(t, sep) == [t];
      }
    } else {
      var r := Explode(t, sep);
      assert p + t == t && p + r[0] == r[0];
      assert [r[0]] + r[1..] == r;
    }
  }

  /** explode undoes implode when no part contains the separator's first character. */
  lemma {:induction false} ExplodeImplode(parts: seq<string>, sep: string)
    requires sep != "" && parts != []
    requires forall i :: 0 <= i < |parts| ==> sep[0] !in parts[i]
    ensures Explode(Implode(parts, sep), sep) == parts
  {
    if |parts| == 1 {
      ExplodePrefix(parts[0], "", sep);
      assert parts[0] + "" == parts[0];
    } else {
      var rest := Implode(parts[1..], sep);
      ExplodeImplode(parts[1..], sep);
      assert (sep + rest)[..|sep|] == sep;
      assert (sep + rest)[|sep|..] == rest;
      assert Explode(sep + rest, sep) == [""] + parts[1..];
      ExplodePrefix(parts[0], sep + rest, sep);
      assert parts[0] + (sep + rest) == parts[0] + sep + rest;
      assert parts[0] + "" == parts[0];
    }
  }

  predicate IsBracket(c: char) {
    c == '(' || c == ')'
  }

  function TrimLeft(s: string): (r: string)
    ensures |r| <= |s| && r == s[|s| - |r|..]
    ensures r != [] ==> !IsBracket(r[0])
  {
    if s != [] && IsBracket(s[0]) then TrimLeft(s[1..]) else s
  }

  function TrimRight(s: string): (r: string)
    ensures |r| <= |s| && r == s[..|r|]
    ensures r != [] ==> !IsBracket(r[|r| - 1])
  {
    if s != [] && IsBracket(s[|s| - 1]) then TrimRight(s[..|s| - 1]) else s
  }

  /** trim($s, '()'): strips parentheses from both ends. */
  function TrimBrackets(s: string): string {
    TrimRight(TrimLeft(s))
  }

  /** Trimming a bracketed text gives back the text, when the text neither starts nor ends with a bracket. */
  lemma TrimBracketed(body: string)
    requires body != [] ==> !IsBracket(body[0]) && !IsBracket(body[|body| - 1])
    ensures TrimBrackets("(" + body + ")") == body
  {
    var open, close := "(", ")";
    Assoc3(open, body, close);
    TrimLeftStep(open, body + close);
    if body == [] {
      EmptySuffix(close);
      TrimLeftStep(close, "");
    } else {
      TrimLeftKeeps(body + close);
      TrimRightStep(body, close);
      TrimRightKeeps(body);
    }
  }

  lemma TrimLeftKeeps(s: string)
    requires s != [] && !IsBracket(s[0])
    ensures TrimLeft(s) == s
  {
  }

  lemma TrimRightKeeps(s: string)
    requires s != [] && !IsBracket(s[|s| - 1])
    ensures TrimRight(s) == s
  {
  }

  lemma TrimLeftStep(b: string, rest: string)
    requires |b| == 1 && IsBracket(b[0])
    ensures TrimLeft(b + rest) == TrimLeft(rest)
  {
    assert (b + rest)[1..] == rest;
  }

  lemma TrimRightStep(rest: string, b: string)
    requires |b| == 1 && IsBracket(b[0])
    ensures TrimRight(rest + b) == TrimRight(rest)
  {
    assert (rest + b)[..|rest|] == rest;
  }

  /** preg_replace with a literal key and limit 1: the first occurrence of key in text becomes value. */
  function ReplaceFirst(text: string, key: string, value: string): string
    decreases |text|
  {
    if |text| < |key| then text
    else if text[..|key|] == key then value + text[|key|..]
    else [text[0]] + ReplaceFirst(text[1..], key, value)
  }

  predicate OccursAt(text: string, key: string, i: nat) {
    i + |key| <= |text| && text[i..i + |key|] == key
  }

  /** ReplaceFirst leaves a text without an occurrence unchanged, and otherwise splices the value over the first occurrence only. */
  lemma {:induction false} ReplaceFirstSpec(text: string, key: string, value: string, i: nat)
    requires forall j :: 0 <= j < i ==> !OccursAt(text, key, j)
    ensures OccursAt(text, key, i) ==> ReplaceFirst(text, key, value) == text[..i] + value + text[i + |key|..]
    ensures i + |key| >= |text| && !OccursAt(text, key, i) ==> ReplaceFirst(text, key, value) == text
    decreases i
  {
    if |text| < |key| {
    } else if i == 0 {
      ReplaceFirstAtStart(text, key, value);
    } else {
      assert !OccursAt(text, key, 0);
      NoEarlierShift(text, key, i);
      ReplaceFirstSpec(text[1..], key, value, i - 1);
      ReplaceFirstShift(text, key, value, i);
    }
  }

  /** At position 0 the key is either there (and replaced) or, in a text no longer than the key, absent. */
  lemma ReplaceFirstAtStart(text: string, key: string, value: string)
    requires |text| >= |key|
    ensures OccursAt(text, key, 0) ==> ReplaceFirst(text, key, value) == text[..0] + value + text[|key|..]
    ensures |key| >= |text| && !OccursAt(text, key, 0) ==> ReplaceFirst(text, key, value) == text
  {
    assert text[..|key|] == text[0..|key|];
    if !OccursAt(text, key, 0) && |key| >= |text| {
      assert |text[1..]| < |key|;
      assert [text[0]] + text[1..] == text;
    }
  }

  /** No occurrence before i means no occurrence before i - 1 once the first character is dropped. */
  lemma NoEarlierShift(text: string, key: string, i: nat)
    requires 0 < i && text != []
    requires forall j :: 0 <= j < i ==> !OccursAt(text, key, j)
    ensures forall j :: 0 <= j < i - 1 ==> !OccursAt(text[1..], key, j)
  {
    forall j | 0 <= j < i - 1 ensures !OccursAt(text[1..], key, j) {
      OccursShift(text, key, j + 1);
    }
  }

  /** The step of ReplaceFirstSpec: what holds of the text without its first character holds of the text. */
  lemma ReplaceFirstShift(text: string, key: string, value: string, i: nat)
    requires 0 < i && |text| >= |key| && !OccursAt(text, key, 0)
    requires OccursAt(text[1..], key, i - 1) ==> ReplaceFirst(text[1..], key, value) == text[1..][..i - 1] + value + text[1..][i - 1 + |key|..]
    requires i - 1 + |key| >= |text[1..]| && !OccursAt(text[1..], key, i - 1) ==> ReplaceFirst(text[1..], key, value) == text[1..]
    ensures OccursAt(text, key, i) ==> ReplaceFirst(text, key, value) == text[..i] + value + text[i + |key|..]
    ensures i + |key| >= |text| && !OccursAt(text, key, i) ==> ReplaceFirst(text, key, value) == text
  {
    ReplaceFirstStep(text, key, value);
    OccursShift(text, key, i);
    if OccursAt(text, key, i) {
      SpliceShift(text, i, |key|, value);
    } else if i + |key| >= |text| {
      assert [text[0]] + text[1..] == text;
    }
  }

  /** A text without an occurrence at its start keeps its first character and goes on with the rest. */
  lemma ReplaceFirstStep(text: string, key: string, value: string)
    requires |text| >= |key| && !OccursAt(text, key, 0)
    ensures ReplaceFirst(text, key, value) == [text[0]] + ReplaceFirst(text[1..], key, value)
  {
    assert text[..|key|] == text[0..|key|];
  }

  /** An occurrence at i > 0 is an occurrence at i - 1 in the text without its first character. */
  lemma OccursShift(text: string, key: string, i: nat)
    requires 0 < i && text != []
    ensures OccursAt(text, key, i) <==> OccursAt(text[1..], key, i - 1)
  {
    if i + |key| <= |text| {
      assert text[1..][i - 1..i - 1 + |key|] == text[i..i + |key|];
    }
  }

  lemma SpliceShift(text: string, i: nat, n: nat, value: string)
    requires 0 < i && i + n <= |text|
    ensures [text[0]] + (text[1..][..i - 1] + value + text[1..][i - 1 + n..]) == text[..i] + value + text[i + n..]
  {
    assert [text[0]] + text[1..][..i - 1] == text[..i];
    assert text[1..][i - 1 + n..] == text[i + n..];
  }

  /** A text that starts with the key has that start replaced. */
  lemma ReplaceFirstHead(key: string, rest: string, value: string)
    ensures ReplaceFirst(key + rest, key, value) == value + rest
  {
    assert (key + rest)[..|key|] == key;
    assert (key + rest)[|key|..] == rest;
  }

  /** A text whose head cannot start an occurrence of the key is kept; the replacement happens in the rest. */
  lemma {:induction false} ReplaceFirstAfter(pre: string, text: string, key: string, value: string)
    requires key != [] && key[0] !in pre
    ensures ReplaceFirst(pre + text, key, value) == pre + ReplaceFirst(text, key, value)
    decreases |pre|
  {
    if pre != [] {
      var s := pre + text;
      assert s[1..] == pre[1..] + text;
      ReplaceFirstAfter(pre[1..], text, key, value);
      if |s| < |key| {
        assert ReplaceFirst(text, key, value) == text;
      } else {
        assert s[..|key|][0] == pre[0];
        assert pre[0] in pre;
        assert [pre[0]] + (pre[1..] + ReplaceFirst(text, key, value)) == pre + ReplaceFirst(text, key, value);
      }
    } else {
      assert pre + text == text;
    }
  }

  /** A text without the key's first character has no occurrence and is kept. */
  lemma ReplaceFirstAbsent(text: string, key: string, value: string)
    requires key != [] && key[0] !in text
    ensures ReplaceFirst(text, key, value) == text
  {
    ReplaceFirstAfter(text, "", key, value);
    assert text + "" == text;
  }

  /** The key right after a prefix without its first character is the occurrence replaced. */
  lemma ReplaceFirstPast(pre: string, key: string, tail: string, value: string)
    requires key != [] && key[0] !in pre
    ensures ReplaceFirst(pre + key + tail, key, value) == pre + value + tail
  {
    ReplaceFirstAfter(pre, key + tail, key, value);
    ReplaceFirstHead(key, tail, value);
    Assoc3(pre, key, tail);
    Assoc3(pre, value, tail);
  }

  lemma EmptySuffix(a: string)
    ensures a + "" == a
  {
  }

  lemma Assoc3(a: string, b: string, c: string)
    ensures a + b + c == a + (b + c)
  {
  }

  lemma Assoc4(a: string, b: string, c: string, d: string)
    ensures a + b + c + d == a + ((b + c) + d)
  {
  }
}
