# A verified model of a fluent SQL-text builder

This project models the core of `scrnr/query-builder-library-php`, a PHP
library that builds SQL text through fluent calls. The library never talks to
a database. Every call appends to a handful of clause strings. Values go into
one ordered placeholder map: `:column` tokens, each with its bound text, where
`''` means unbound. The model covers these parts:

- **Placeholder allocation** (`getPrepareValue`). Module `Placeholders` holds
  the ordered map and its PHP array assignment (`Put`) and `array_merge`
  (`Merge`). The method is `Statements.Statement.PrepareValue` and its
  counterpart on condition chains.
- **The statement and its renderer** (`BaseMethods`). Module `Statements`
  holds:
  - the class `Statement` with its clause texts, main and current table,
    stored query and placeholder map;
  - `getCommandList` for the four kinds of statement;
  - `createQuery` and `getReadyCommands`;
  - `getQuery`, with substitution in map order;
  - `getAll`, binding positional values to the unbound keys.
- **Condition chains** (`WhereCondition`, `Where`, `Having`). Module
  `Conditions` holds the class `ConditionChain`, which has its own query text
  and its own placeholder map. `end()` writes `WHERE …` or `HAVING …` into the
  owner and merges the maps.
- **Joins** (`Join`). Module `Joins` holds the class `JoinChain`.
- **Union** (`Union`). Module `Unions` models the sweep over the select's
  clause list and the move to a new table.
- **The builders**:
  - Select (`Selects`, `SelectColumns`, `Groups`, `Orders`, `Limits`);
  - Insert (`Inserts`);
  - Update (`Updates`);
  - Delete (its constructor in `Statements`, its `where()` through
    `ConditionChain`).
- **The aggregate templates** (`SqlFunctions`) and the shared helpers of
  `AdditionalMethods` (`Additional`).

PHP semantics the model writes out:

- `empty()` on a string is `Strings.Empty`, which is true for `""` and for
  `"0"`. This matters for separators, for the unbound test and for the
  offset test of `limit()`.
- A PHP array used as a map is a sequence of entries. Assigning an existing
  key overwrites it in place, and a new key goes to the end.
- `implode`/`explode` are `Strings.Implode`/`Strings.Explode`.
- `trim($s, '()')` is `Strings.TrimBrackets`.
- A regular-expression replacement limited to one match is
  `Strings.ReplaceFirst`, a literal first-occurrence replacement.
- The key pattern of `getPrepareValue` is `Placeholders.MatchesBase`: the
  base followed by zero or more decimal digits.

The model follows the code in these behaviours, which a caller may not expect:

- Rendering is cumulative. `createQuery` appends to the stored query and
  never clears it, so a second `getQuery()` returns the statement twice
  (`Statements.RenderCumulative`, `Statements.RenderNotIdempotent`).
- Placeholder tokens are not unique in general. A column whose name is
  another column followed by digits can be overwritten
  (`Placeholders.AllocationCanOverwrite`).
- Substitution replaces the first occurrence of each key in map order. A key
  that is a prefix of a later key, such as `:limit` and `:limit2`, consumes
  the later token's prefix. So `limit()` called twice leaves a corrupted
  query (`Statements.SubstitutePrefixCollision`, `Limits.LimitTwiceCorrupts`).
- A second `dublicateKey()` writes `ON DUPLICATE KEY UPDATE ` in front once
  more (`Inserts.DuplicateClause`).
- `order()` without a column binds an empty value, so `getQuery(true)` then
  returns the text with its placeholders (`Orders.OrderWithoutColumnIsUnbound`).
- Two condition chains allocate against their own maps. The same column
  therefore gets the same token in both, and after both `end()` calls only
  the second value survives (`Conditions.SeparateChainsShareTokens`).

## Model

| member | source | states |
|---|---|---|
| SqlFunctions.FuncQuery | src/sql/SqlFunctions.php:36-47 | the text starts with `NAME(`; a column other than `*` appears as `table.column` right after it and `*` as `NAME(*)`; the text ends with `)` when the alias is empty and with ` AS alias` otherwise; it is never empty |
| SqlFunctions.Call | src/sql/SqlFunctions.php:11-34 | each of count, sum, avg, min and max is the template under its own SQL name, so its text starts with `NAME(` and is never empty |
| SqlFunctions.SqlNameIsUpperTag | src/sql/SqlFunctions.php:11-34 | the SQL name of each function is the upper-case spelling of its tag (count→COUNT, sum→SUM, avg→AVG, min→MIN, max→MAX) |
| SqlFunctions.CallsDifferOnlyInName | src/sql/SqlFunctions.php:11-34 | two entry points on the same arguments agree on everything after their SQL names |
| SqlFunctions.FuncQuerySplits | src/sql/SqlFunctions.php:38-46 | the template is the name followed by `(`, the column (qualified unless `*`), `)` and ` AS alias` exactly when the alias is not empty |
| SqlFunctions.FromTag | src/additional/AdditionalMethods.php:48 | a name selects an entry point exactly when it is one of the five tags, and the one selected carries that tag |
| SqlFunctions.QualifiedIsNoTag | src/conditions/WhereCondition.php:240 | a `table.column` text is never a function tag, so a qualified column is never dropped from a condition |
| Additional.SeparatorText | src/additional/AdditionalMethods.php:32-36 | `,` gives `, `, a space gives a space, and any other separator gives nothing |
| Additional.AddSeparator | src/additional/AdditionalMethods.php:29-38 | an empty target (including `"0"`) is left as it is; otherwise the separator text is appended; the target is always a prefix of the result, at most two characters shorter, and the result is empty exactly when the target is |
| Additional.AppendEach | src/commands/BaseMethods.php:86-89 | the loop that appends each item after a separator computes the fold `AppendSeparated` of the items onto the text |
| Additional.AppendSeparatedImplode | src/additional/AdditionalMethods.php:29-38 | appending non-empty items one at a time gives the old text, the separator text when the old text was not empty, then the items joined by the separator text |
| Additional.AppendSeparatedExtends | src/commands/BaseMethods.php:86-89 | appending only extends: the old text is a prefix of the result |
| Additional.AppendSeparatedHead | src/commands/BaseMethods.php:86-89 | from an empty text the first item is taken without a separator, and the others follow it as if it had been the starting text |
| Additional.ListedAllImplode | src/conditions/Group.php:20-25 | items added one by one to an empty clause give the keyword followed by the items joined by `, ` |
| Additional.ListedKeepsKeyword | src/conditions/Group.php:20-25 | once a clause starts with its keyword, adding an item keeps the keyword in front |
| Additional.GetSqlFunction | src/additional/AdditionalMethods.php:40-53 | the result is present exactly when a name is given and it is a known tag, and it is then that entry point's text; a null or unknown name gives false |
| Strings.IntToString | src/additional/AdditionalMethods.php:23 | the `(string)` cast of an integer starts with `-` exactly for a negative number; the rest is decimal digits that read back as the magnitude; the text is empty in PHP's sense exactly for 0 |
| Strings.NatToString | src/additional/AdditionalMethods.php:23 | a numeral is one or more decimal digits and starts with `0` only for zero |
| Strings.ParseNatToString | src/additional/AdditionalMethods.php:23 | reading the decimal digits back gives the number: the cast is a faithful numeral |
| Strings.NatToStringInjective | src/additional/AdditionalMethods.php:23 | different counts give different suffixes |
| Strings.ExplodeImplode | src/commands/Insert.php:113-118 | splitting an imploded list on a separator its items do not contain gives the items back |
| Strings.ExplodePrefix | src/commands/Insert.php:113-118 | a leading part without the separator's first character is glued to the first piece of what follows it |
| Strings.TrimBracketed | src/commands/Insert.php:113-118 | trimming brackets off `(body)` gives back the body when the body neither starts nor ends with a bracket |
| Strings.TrimLeft | src/commands/Insert.php:116 | the left trim is a suffix of its input and does not start with a bracket |
| Strings.TrimRight | src/commands/Insert.php:116 | the right trim is a prefix of its input and does not end with a bracket |
| Strings.ReplaceFirstSpec | src/commands/BaseMethods.php:58 | with no occurrence of the key before position i, an occurrence at i is the one replaced and the rest of the text is kept; a text without an occurrence is returned unchanged |
| Strings.ReplaceFirstAfter | src/commands/BaseMethods.php:58 | a prefix that cannot start the key is kept, and the replacement happens in the rest |
| Placeholders.PutExisting | src/additional/AdditionalMethods.php:24 | assigning to a key already in the map overwrites that entry in place |
| Placeholders.PutNew | src/additional/AdditionalMethods.php:24 | assigning to a new key appends the entry at the end |
| Placeholders.PutKeys | src/additional/AdditionalMethods.php:24 | the key list is unchanged for an existing key and grows by the key at its end for a new one, keeping the earlier entries |
| Placeholders.PutLookup | src/additional/AdditionalMethods.php:24 | after the assignment the key maps to the new value and every other key keeps its value |
| Placeholders.PutUnique | src/additional/AdditionalMethods.php:24 | a map whose keys are distinct keeps them distinct |
| Placeholders.ReplaceDots | src/additional/AdditionalMethods.php:13 | every `.` of the column becomes `_` and every other character is kept |
| Placeholders.BaseOf | src/additional/AdditionalMethods.php:13 | the base token is `:` followed by the column with its dots replaced |
| Placeholders.NextToken | src/additional/AdditionalMethods.php:15-23 | the token is the base followed by digits; it equals the base exactly when no existing key is the base or the base followed by digits |
| Placeholders.NextTokenIsNumbered | src/additional/AdditionalMethods.php:15-23 | the token is the base numbered by one more than the count of matching keys (number 1 is the bare base, a larger n is the base followed by n) |
| Placeholders.NumberedInjective | src/additional/AdditionalMethods.php:23 | different numbers give different tokens |
| Placeholders.NextInFamily | src/additional/AdditionalMethods.php:15-24 | when the matching keys are exactly the base numbered 1 to n, the next token is number n+1, it is not in the map yet, and after the assignment the matching keys are numbered 1 to n+1 |
| Placeholders.FirstTwoTokens | src/additional/AdditionalMethods.php:15-24 | on an empty map the first token for a column is its base and the second is the base followed by 2 |
| Placeholders.AllocateRunUnique | src/additional/AdditionalMethods.php:24 | a run of allocations keeps the keys of the map distinct |
| Placeholders.RepeatedAllocations | src/additional/AdditionalMethods.php:15-23 | repeated allocations for one column whose family holds n keys give the base numbered n+1, n+2, … in order |
| Placeholders.RepeatedAllocationsFamily | src/additional/AdditionalMethods.php:15-24 | after k such allocations the family holds exactly the keys numbered 1 to n+k |
| Placeholders.RepeatedAllocationsFresh | src/additional/AdditionalMethods.php:15-24 | the tokens of such a run are pairwise distinct and none was in the map before |
| Placeholders.AllocationCanOverwrite | src/additional/AdditionalMethods.php:15-24 | with `:a` and `:a3` in the map, allocating for `a` returns `:a3` and overwrites its value |
| Placeholders.AllocateEachToken | src/additional/AdditionalMethods.php:11-27 | in a run over several columns, the i-th token is the next token for the i-th column in the map as it stood before step i |
| Placeholders.AllocateEachNamed | src/additional/AdditionalMethods.php:13-23 | the i-th token of such a run is the i-th column's base followed by digits |
| Placeholders.AllocateEachUnique | src/additional/AdditionalMethods.php:24 | a run over several columns keeps the keys of the map distinct |
| Placeholders.AllocateEachKeeps | src/additional/AdditionalMethods.php:24 | a key that was unbound stays in the map and unbound after a run of empty values |
| Placeholders.AllocateEachBinds | src/additional/AdditionalMethods.php:24 | every token of a run of empty values is in the map and unbound afterwards |
| Placeholders.MergeKeys | src/conditions/WhereCondition.php:32 | the keys after `array_merge` are the owner's keys followed by the chain's new keys in chain order |
| Placeholders.MergeLookup | src/conditions/WhereCondition.php:32 | after the merge a key of the chain has the chain's value and any other key keeps the owner's value |
| Placeholders.MergeUnique | src/conditions/WhereCondition.php:32 | the merge keeps the owner's keys distinct |
| Statements.Fragments.With | src/commands/BaseMethods.php:98-99 | writing one clause sets that clause and leaves every other clause as it was |
| Statements.CommandList | src/commands/Select.php:91-96 | no clause is listed twice, and the command and WHERE are listed for every kind but Insert |
| Statements.ReadyCommands | src/commands/BaseMethods.php:92-104 | at most one text per listed clause, and none of them is empty |
| Statements.ReadyCommandsMembers | src/commands/BaseMethods.php:92-104 | a text is ready exactly when it is not empty and is the text of a listed clause |
| Statements.ReadyCommandsAll | src/commands/BaseMethods.php:92-104 | when no listed clause is empty, the ready texts are all of them in list order |
| Statements.CollectReady | src/commands/BaseMethods.php:92-104 | the loop collects exactly the ready texts, in list order |
| Statements.RenderFromEmpty | src/commands/BaseMethods.php:82-104 | from an empty stored query, rendering gives the ready texts joined by single spaces |
| Statements.RenderCumulative | src/commands/BaseMethods.php:82-90 | rendering keeps the stored query as a prefix and, when both are non-empty, adds a space and the joined ready texts |
| Statements.RenderNotIdempotent | src/commands/BaseMethods.php:82-90 | rendering the same statement twice gives the text twice over, which differs from rendering once |
| Statements.UnboundKeysMembers | src/commands/BaseMethods.php:31 | a key is unbound exactly when an entry with that key holds an empty value |
| Statements.UnboundKeysUnique | src/commands/BaseMethods.php:31 | in a map with distinct keys the unbound keys are distinct |
| Statements.BindAllSpec | src/commands/BaseMethods.php:37-40 | binding distinct keys of the map keeps the key list; each listed key gets its value and every other key keeps its own |
| Statements.BindAllUnique | src/commands/BaseMethods.php:37-40 | binding keeps the keys distinct |
| Statements.GetAllKeys | src/commands/BaseMethods.php:37-40 | binding the unbound keys changes neither the key list nor its distinctness |
| Statements.GetAllBinds | src/commands/BaseMethods.php:37-40 | the i-th unbound key in map order receives the i-th value |
| Statements.GetAllKeepsBound | src/commands/BaseMethods.php:37-40 | an entry that was already bound is unchanged, at its position |
| Statements.GetAllComplete | src/commands/BaseMethods.php:37-40 | with non-empty values no key is left unbound |
| Statements.SubstituteSnoc | src/commands/BaseMethods.php:57-59 | substitution goes in map order: the last key is replaced after all the others |
| Statements.SubstituteOne | src/commands/BaseMethods.php:58 | one key replaces its first occurrence only, and the rest of the text is kept |
| Statements.SubstituteTwo | src/commands/BaseMethods.php:57-59 | two keys are replaced one after the other in map order |
| Statements.SubstitutePrefixCollision | src/commands/BaseMethods.php:57-59 | when a key is a prefix of a later key, the earlier replacement consumes the later token's prefix and the later key is never replaced |
| Statements.CountUnbound | src/commands/BaseMethods.php:51 | the count of empty values is the number of unbound keys |
| Statements.FilterUnbound | src/commands/BaseMethods.php:31 | the filter yields exactly the unbound keys in map order |
| Statements.SubstituteAll | src/commands/BaseMethods.php:57-59 | the loop over the keys computes the substitution in map order |
| Statements.BindValues | src/commands/BaseMethods.php:37-40 | the loop computes the binding of the keys to the values in order |
| Statements.Bracketed | src/commands/BaseMethods.php:72-75 | the text is wrapped in one `(` and one `)` and is otherwise unchanged |
| Statements.Quoted | src/commands/BaseMethods.php:77-80 | the value's text is wrapped in double quotes |
| Statements.Qualify | src/conditions/SelectColumns.php:63-72 | each item becomes `table.item`, in order |
| Statements.CheckedTable | src/commands/BaseMethods.php:65-70 | an empty current table falls back to the main table, and any other is kept |
| Statements.TableFor | src/conditions/Group.php:13-16 | a non-empty table argument wins; otherwise the current table is used, after falling back to the main table |
| Statements.Statement.Select | src/commands/Select.php:32-36 | a new select has main table t, `FROM t` and `SELECT`, no other clause, an empty map and an empty stored query |
| Statements.Statement.Insert | src/commands/Insert.php:17-21 | a new insert has `INSERT INTO t` and the keyword `VALUES`, and nothing else |
| Statements.Statement.Update | src/commands/Update.php:14-18 | a new update has `UPDATE t SET`, and nothing else |
| Statements.Statement.Delete | src/commands/Delete.php:11-15 | a new delete has `DELETE FROM t` and main table t, and nothing else |
| Statements.Statement.PrepareValue | src/additional/AdditionalMethods.php:11-27 | returns the next token for the column and assigns the value to it, and nothing else changes; the keys stay distinct |
| Statements.Statement.CheckTableName | src/commands/BaseMethods.php:65-70 | sets the current table to the main table only when it is empty |
| Statements.Statement.GetReadyCommands | src/commands/BaseMethods.php:92-104 | returns the ready texts of the statement's command list |
| Statements.Statement.CreateQuery | src/commands/BaseMethods.php:82-90 | the stored query becomes its rendering, appended to what was stored |
| Statements.Statement.GetQuery | src/commands/BaseMethods.php:46-63 | renders; with values and no unbound key it substitutes the map, otherwise the rendered text is returned as it is |
| Statements.Statement.GetAll | src/commands/BaseMethods.php:26-44 | renders; binds the values to the unbound keys in order when there are values and their number matches, and otherwise leaves the map unchanged |
| Statements.AllocateColumns | src/commands/Insert.php:40-44 | one allocation per column, in order, each with its value; the tokens and map are those of the run |
| Conditions.Literal | src/conditions/WhereCondition.php:226-237 | a string is single-quoted, a pair is `table.column`, an integer is its numeral and null is empty; the text is empty in PHP's sense exactly for null and 0 |
| Conditions.Literals | src/conditions/WhereCondition.php:182-184 | each element of an IN list gets its own literal, in order |
| Conditions.ResolveTable | src/conditions/WhereCondition.php:210-213 | a null or empty table falls back to the chain's table |
| Conditions.ComparePiece | src/conditions/WhereCondition.php:150-173 | the text ends with ` OP `; without a function it is `table.column OP ` and the qualified column names the placeholder; a known function writes exactly its SQL text (`NAME(table.column)` or `NAME(*)`) followed by ` OP `, and its tag names the placeholder; an unknown one leaves the column unqualified and drops it when it is a tag or equals the function name |
| Conditions.InText | src/conditions/WhereCondition.php:179-189 | a string list is spliced raw, null gives nothing, and a single item gives its token |
| Conditions.ConditionChain.constructor | src/conditions/WhereCondition.php:24-28 | a new chain is bound to its owner and the owner's main table, with an empty text and an empty map |
| Conditions.ConditionChain.Allocate | src/conditions/WhereCondition.php:238 | allocates into the chain's own map, as the owner's getPrepareValue does into its map |
| Conditions.ConditionChain.And | src/conditions/WhereCondition.php:38-43 | appends ` AND ` only when the chain text is not empty |
| Conditions.ConditionChain.Or | src/conditions/WhereCondition.php:45-50 | appends ` OR ` only when the chain text is not empty |
| Conditions.ConditionChain.Compare | src/conditions/WhereCondition.php:52-106 | appends the comparison text and the fresh token, and binds the token to the operand's literal |
| Conditions.ConditionChain.AllocateAll | src/conditions/WhereCondition.php:182-184 | the by-reference loop allocates one token per item, in order |
| Conditions.ConditionChain.In | src/conditions/WhereCondition.php:108-120 | appends `col IN (…)` or `col NOT IN (…)`, allocating one token per array item |
| Conditions.ConditionChain.IsNull | src/conditions/WhereCondition.php:122-134 | appends `col IS NULL` or `col IS NOT NULL` and leaves the map alone |
| Conditions.ConditionChain.Between | src/conditions/WhereCondition.php:136-148 | allocates the lower bound first, then the upper one, and appends `col [NOT ]BETWEEN t1 AND t2` |
| Conditions.ConditionChain.End | src/conditions/WhereCondition.php:30-36 | writes `WHERE ` or `HAVING ` followed by the chain text into the owner's clause, touches no other clause, merges the chain's map into the owner's and returns the owner |
| Conditions.CompareSubstitutes | src/conditions/WhereCondition.php:150-173 | substituting the bound literal for the token gives `table.column OP literal` |
| Conditions.CompareFunctionSubstitutes | src/conditions/WhereCondition.php:150-173 | with a known function, substituting the bound literal for the token gives `NAME(table.column) OP literal` |
| Conditions.InListTokens | src/conditions/WhereCondition.php:175-192 | over a column the chain has not used, the IN tokens are the base, base2, base3, …, pairwise distinct and new to the map |
| Conditions.SeparateChainsShareTokens | src/conditions/WhereCondition.php:30-36 | two chains give the same column the same token, and after both merges only the second value is kept |
| Joins.JoinValue | src/conditions/Join.php:74-82 | with the second table the value is `joinTable.value`; otherwise a numeric value is bare and any other is single-quoted |
| Joins.IntegerJoinValueIsBare | src/conditions/Join.php:74-82 | an integer value is written as its numeral, without quotes |
| Joins.ConditionText | src/conditions/Join.php:69-85 | the condition is ` CONNECTIVE tableOne.columnOne = ` followed by the value |
| Joins.JoinChain.constructor | src/conditions/Join.php:23-28 | a new join holds `TYPE table` and uses that table for later conditions |
| Joins.JoinChain.Join | src/conditions/Join.php:37-46 | appends a space and `TYPE table`, and makes that table the target of later conditions |
| Joins.JoinChain.Condition | src/conditions/Join.php:48-67 | appends the condition, with the first table defaulting to the main table |
| Joins.JoinChain.End | src/conditions/Join.php:30-35 | overwrites the owner's join clause with the join text and returns the owner |
| Selects.SqlFunctionColumn | src/commands/Select.php:53-68 | a known function appends its text to the columns after `, ` when they are not empty; an unknown one leaves the columns alone |
| Selects.SqlFunctionColumnText | src/commands/Select.php:53-68 | the appended text starts with the SQL name and `(`, names `table.column` or `*`, and ends with ` AS alias` when an alias is given |
| Selects.Distinct | src/commands/Select.php:70-75 | sets the distinct clause to `DISTINCT` and nothing else |
| Selects.From | src/commands/Select.php:77-82 | changes only the table used to qualify later columns; the FROM clause is untouched |
| Selects.ResetTable | src/commands/Select.php:84-89 | the current table goes back to the main table |
| SelectColumns.CreateNameColumns | src/conditions/SelectColumns.php:63-72 | after the table check, appends each item as `table.item`, after `, ` when the columns are not empty |
| SelectColumns.ColumnsImploded | src/conditions/SelectColumns.php:63-72 | the columns after the call are the earlier columns, `, ` when they were not empty, then the qualified items joined by `, ` |
| SelectColumns.Column | src/conditions/SelectColumns.php:11-16 | appends one qualified column |
| SelectColumns.Columns | src/conditions/SelectColumns.php:18-23 | appends the qualified columns in the order given |
| SelectColumns.All | src/conditions/SelectColumns.php:25-30 | appends `table.*` |
| SelectColumns.AliasItems | src/conditions/SelectColumns.php:52-61 | each pair becomes `column AS alias`, in order |
| SelectColumns.DefaultAlias | src/conditions/SelectColumns.php:32-43 | a given non-empty alias is kept; otherwise the alias is `table_column` |
| SelectColumns.Alias | src/conditions/SelectColumns.php:32-43 | appends `table.column AS alias`, with the default alias when none is given |
| SelectColumns.Aliases | src/conditions/SelectColumns.php:45-50 | appends `table.column AS alias` for each pair, in order |
| Groups.Group | src/conditions/Group.php:11-28 | the first call writes `GROUP BY table.column`, later calls append `, table.column`, the keyword stays in front, and the map is untouched |
| Orders.OrderValue | src/conditions/Order.php:24-32 | the bound value is the function's text for a known function, `table.column` for another non-empty column, and the column as given (nothing for null) otherwise |
| Orders.Order | src/conditions/Order.php:17-44 | allocates a token under `order` for the ordering, and writes `ORDER BY token DIR` or appends `, token DIR` |
| Orders.OrderSubstitutes | src/conditions/Order.php:36-37 | substituting the bound value gives back `ORDER BY value DIR` |
| Orders.OrderWithoutColumnIsUnbound | src/conditions/Order.php:24-34 | without a column the order token is left unbound |
| Limits.IntText | src/conditions/Limit.php:13 | a null quantity or offset gives an empty value, and a number gives its numeral |
| Limits.Limit | src/conditions/Limit.php:11-20 | always allocates under `limit`; allocates under `offset` only for a non-empty offset or when asked; replaces the clause with `LIMIT q` or `LIMIT o, q` |
| Limits.ZeroLimitIsUnbound | src/conditions/Limit.php:13 | a null or zero quantity leaves the limit token unbound |
| Limits.LimitTwiceCorrupts | src/conditions/Limit.php:11-20 | a second call uses `:limit2`, and substitution then writes the first value followed by `2` |
| Unions.SweepKeeps | src/conditions/Union.php:29-49 | clauses not in the list, other than the union, keep their text |
| Unions.SweepSweeps | src/conditions/Union.php:38-48 | each listed clause other than the union goes back to `SELECT` if it is the command, keeps its text if it is FROM, and is cleared otherwise |
| Unions.SweepUnion | src/conditions/Union.php:29-36 | the union clause gains the non-empty texts of the listed clauses, in order and separated by spaces |
| Unions.SweptClears | src/conditions/Union.php:45-47 | a swept clause other than the command and FROM is left empty |
| Unions.CreateUnion | src/conditions/Union.php:25-54 | the sweep, then the union word after a space, then the move to the new table; the earlier union text stays a prefix |
| Unions.UnionExtends | src/conditions/Union.php:34-36 | union() only extends the union clause: the earlier union text is a prefix of the new one |
| Unions.Table | src/conditions/Union.php:56-62 | FROM becomes `FROM t`, and t becomes main and current table |
| Unions.AddUnion | src/conditions/Union.php:11-16 | createUnion with `UNION` |
| Unions.AddUnionAll | src/conditions/Union.php:18-23 | createUnion with `UNION ALL` |
| Unions.UnionCapturesStatement | src/conditions/Union.php:25-54 | from an empty union clause, the union clause then holds the select exactly as it would have been rendered |
| Unions.UnionClearsClauses | src/conditions/Union.php:45-47 | after union() every clause other than the union, the command and FROM is empty |
| Inserts.ColumnList | src/commands/Insert.php:113-118 | the column list always has at least one entry |
| Inserts.Columns | src/commands/Insert.php:23-34 | replaces the columns with the bracketed list of `table.column` joined by `, ` |
| Inserts.ColumnListRoundTrip | src/commands/Insert.php:113-118 | reading the list back from what columns() wrote gives the qualified columns |
| Inserts.Values | src/commands/Insert.php:36-52 | each value is quoted and bound to a token named after its column, and the row `(t1,t2,…)` is appended after `, ` |
| Inserts.ValuesTokensNamed | src/commands/Insert.php:36-52 | the i-th token of values() is named after the i-th column, and the keys stay distinct |
| Inserts.PrepareRows | src/commands/Insert.php:54-72 | asking for k rows gives k rows |
| Inserts.PrepareValues | src/commands/Insert.php:54-72 | appends as many rows as asked for (none for zero or fewer), each a bracketed list of fresh empty tokens, one per column |
| Inserts.PrepareRow | src/commands/Insert.php:59-66 | one row allocates an empty token per column and brackets them joined by `, ` |
| Inserts.PrepareRowsUnbound | src/commands/Insert.php:54-72 | every token of every row is in the map and unbound |
| Inserts.Rounds | src/commands/Insert.php:84-99 | the do-while runs at least once |
| Inserts.DuplicateRow | src/commands/Insert.php:94-97 | a row `table.column = "value"` is never empty |
| Inserts.DuplicateRows | src/commands/Insert.php:84-99 | one row per round, the i-th from the i-th column and value |
| Inserts.DublicateKey | src/commands/Insert.php:74-104 | mismatched arguments change nothing; otherwise the rows are appended after `, ` and `ON DUPLICATE KEY UPDATE ` is written in front |
| Inserts.AddDuplicateRows | src/commands/Insert.php:84-99 | the do-while appends each row after `, ` |
| Inserts.DuplicateClause | src/commands/Insert.php:74-104 | on an empty clause the result is the keyword and the rows joined by `, `; on a clause already set the keyword appears once more in front |
| Updates.Assignment | src/commands/Update.php:61-65 | `column = value` is never empty |
| Updates.Assignments | src/commands/Update.php:61-65 | one assignment per pair, in order |
| Updates.AddAssignments | src/commands/Update.php:26-32 | appends each assignment after `, ` |
| Updates.Set | src/commands/Update.php:20-35 | mismatched counts change nothing; otherwise each column gets its quoted value, unqualified |
| Updates.SetPrepare | src/commands/Update.php:37-47 | allocates an unbound token per column and appends `column = token` for each |
| Updates.AssignmentsImplode | src/commands/Update.php:20-35 | the values clause is the earlier one, `, ` when it was not empty, then the assignments joined by `, ` |
| Updates.SetPreparePlaceholders | src/commands/Update.php:37-47 | the i-th token of setPrepare() is named after the i-th column and is unbound in the map |

## Left out

- src/QueryBuilder.php is not part of this model. Its four factories only call the constructors, which are modelled.
- The factories `where()`, `having()` and `join()` of Select, Update and Delete are the constructors of `Conditions.ConditionChain` and `Joins.JoinChain`. Those constructors take the owner and bind it and its main table.
- Statements.Substitute: bound values are inserted literally. `preg_replace` reads `$n`, `${n}` and `\n` in its replacement string as backreferences, so a value such as `'cost $5'` loses its `$5` in the source; that expansion is not modelled.
- Regular expressions: keys are treated as literal text when substituted, so keys with regex metacharacters are out of scope. The newline behaviour of `(.+)` is also out of scope. The key count uses "base followed by decimal digits".
- `method_exists` is case-insensitive and also finds the private `getSqlFuncQuery`. The model accepts exactly the five lower-case tags.
- Floats, booleans and other `mixed` values are left out. Operands are strings, integers, column pairs or null, and `is_numeric` is approximated by integer text (`Strings.IsNumericText`).
- TypeErrors of strict mode are preconditions, not modelled failures. They arise for `set`/`setPrepare` with empty lists, `values` with more values than columns, and `dublicateKey` with too few values.
- `null` for an optional string is modelled as `""` wherever the source only tests it with `empty()`.
- Integer keys in `aliases()` and repeated keys of a PHP array literal are left out. The pairs are taken as given.
- Statements.Statement.GetAll: the values bound by `getAll` are taken as strings. Other PHP types stored in the map are not modelled.
- A chain that is ended with no condition writes `WHERE ` or `HAVING ` into the owner. This is modelled as written and not flagged.
- Inserts.PrepareValues: tokens are allocated before the row text is appended, as the source does. The intermediate values of the clause inside the loop are not observable and are not modelled.
- Updates.SetPrepare: the tokens of all columns are allocated before the assignments are appended. The map and the clause are both stated as they are after the call.
