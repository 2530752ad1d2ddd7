# PHP CRUD helpers — a Dafny model

`CRUD.php` is a thin data-access layer: `add`, `select`, `update` and
`deleteRecord` each build one parameterised SQL statement from their
arguments, hand it to a shared PDO connection, and map what the database
does to a return value; `array_flatten` turns an associative array into the
alternating key/value list that `add` expects as its variadic arguments.

This project models the statement construction of `array_flatten`, `add`,
`select` and `update` as Dafny methods whose loops follow the PHP `foreach`
loops (pushing onto local lists, extending strings with `.=`), proved against
specification functions (`Flattened`, `EvenPositions`/`OddPositions`,
`InsertSql`, `SelectSql`, `ConditionValues`, `UpdateSql`, `UpdateBinds`).
`deleteRecord` has no loop; its statement is the function `DeleteStatement`. Lemmas
about those functions state what the helpers promise: placeholders match
bound values, column and value order is kept, the WHERE clause is omitted
without conditions, the operator defaults to `=`, and the exact text of each
statement. The database is replaced by an `Outcome` value (a PDOException, or
execute's boolean, a row count and the fetched rows); the return value of
each helper is a function of it.

Files and modules:

- `php_values.dfy` (`PhpValues`): scalar values, array keys, ordered array
  entries, and PHP's conversion of integers, booleans and null to strings.
- `php_strings.dfy` (`PhpStrings`): `implode`, `str_repeat`, `rtrim` and a
  count of a character's occurrences, with lemmas about them.
- `statements.dfy` (`Statements`): positional and named statements, bindValue
  calls and the parameters in effect after them, the database outcome.
- `crud.dfy` (`Crud`): the five source functions.

Where the code and its prose description differ, the model follows the code:

- `add` returns true whenever no PDOException is thrown, even when `execute`
  returns false (`AddReturn`).
- `select` ignores the boolean `execute` returns. Only a PDOException gives
  `false`; a failed execute that throws nothing with row count 0 gives an empty list.
- With an odd number of arguments, `add` still runs: `count($args) / 2` is a
  fraction that `str_repeat`'s integer parameter truncates, so the statement
  has one column more than it has placeholders and values (`OddArgsMisalign`).
- In `update`, a data entry keyed `id` binds `:id` first, and the final
  `bindValue(":id", $id)` then replaces it. The record identifier always wins
  (`UpdateEffectiveBinds`).

## Model

| member | source | states |
|---|---|---|
| `Crud.ArrayFlatten` | CRUD.php:9-17 | the result is twice as long as the array; entry i's key is at 2i and its value at 2i+1, in iteration order |
| `Crud.FlattenedAt` | CRUD.php:9-17 | the same length and position law, for the specification of array_flatten |
| `Crud.SplitArgs` | CRUD.php:32-41 | even-index arguments become the columns and odd-index arguments the values, each in the original order |
| `Crud.SplitArgsLossless` | CRUD.php:32-41 | for an even argument count there are as many columns as values, and interleaving them column first gives back the arguments |
| `Crud.SplitFlattened` | CRUD.php:32-41 | splitting a flattened array gives back exactly its keys as columns and its values as values, aligned pairwise |
| `Crud.PlaceholdersShape` | CRUD.php:48 | rtrim(str_repeat('?, ', n), ', ') is n question marks joined by ", " with no trailing separator (empty for n = 0), holding exactly n `?` |
| `Crud.BuildInsert` | CRUD.php:45-53 | the text is exactly `INSERT INTO t (c1, ..., cn) VALUES (?, ..., ?)`; the values bound are the odd-index arguments in column order; for an even count, columns, placeholders and values all number half the arguments |
| `Crud.InsertPlaceholderCount` | CRUD.php:45-53 | with an even argument count and no `?` in the table or column names, the number of `?` equals the number of bound values |
| `Crud.OddArgsMisalign` | CRUD.php:48 | with an odd argument count there is one column more than there are placeholders and values |
| `Crud.AddReturn` | CRUD.php:53-59 | add returns true exactly when no PDOException was thrown, even if execute returned false |
| `Crud.InsertExample` | CRUD.php:45-53 | add("users", "name", "Alice", "age", 30) prepares `INSERT INTO users (name, age) VALUES (?, ?)` bound to ["Alice", 30] |
| `Crud.Operator` | CRUD.php:86-90 | the operator is `=` for a plain value and the given operator for an `[operator, value]` pair |
| `Crud.BuildSelect` | CRUD.php:77-103 | the text is `SELECT cols FROM t ` followed by the WHERE clause; the bound values are the conditions' values, one per condition, in condition order |
| `Crud.SelectWhereOmitted` | CRUD.php:77-99 | the text is exactly `SELECT cols FROM t ` (trailing space) if and only if there are no conditions, and then nothing is bound |
| `Crud.OperatorDefault` | CRUD.php:87-92 | a condition without an operator yields the fragment `column = ?` |
| `Crud.SelectPlaceholderCount` | CRUD.php:80-99 | with no `?` in the table, the column list or a condition's column or operator, the number of `?` equals the number of bound values |
| `Crud.SelectReturn` | CRUD.php:105-111 | false exactly on a PDOException; an empty list exactly when execution threw none and the row count is 0 or nothing was fetched; otherwise the fetched rows |
| `Crud.SelectExample` | CRUD.php:80-99 | select("users", [["age" => [">", 18]]]) prepares `SELECT * FROM users WHERE age > ?` bound to [18], the column list defaulting to `*`; select("users") prepares `SELECT * FROM users ` |
| `Crud.BuildUpdate` | CRUD.php:128-147 | the text is `UPDATE t SET k1 = :k1, ..., kn = :kn WHERE id = :id`; the bindValue calls are each `:k` with its value in data order, then `:id`: N + 1 calls for N entries |
| `Crud.UpdatePlaceholderCount` | CRUD.php:128-137 | with no `:` in the table or column names, the UPDATE holds exactly N + 1 named placeholders, one per bindValue call |
| `Crud.UpdateEffectiveBinds` | CRUD.php:143-147 | after the bindValue calls, `:id` holds the record identifier and every other column's placeholder holds that column's value |
| `Crud.UpdateReturn` | CRUD.php:150-158 | update returns true exactly when execute ran without a PDOException and returned true, whatever the affected row count |
| `Crud.UpdateExample` | CRUD.php:128-147 | update("users", ["age" => 31], 5) prepares `UPDATE users SET age = :age WHERE id = :id` with binds :age = 31, :id = 5 |
| `Crud.DeleteStatement` | CRUD.php:175-181 | deleteRecord prepares `DELETE FROM t WHERE id = :id` and makes the one bindValue call `:id` = the identifier |
| `Crud.DeleteBindsOnlyId` | CRUD.php:175-181 | the DELETE binds only `:id`, to the identifier, and its text (for a table name without `:`) holds exactly one named placeholder |
| `Crud.DeleteReturn` | CRUD.php:184-194 | deleteRecord returns execute's result, and false on a PDOException |
| `Statements.Effective` | CRUD.php:143-147 | every bound name is in effect and every name in effect was bound; a later bindValue for a name replaces an earlier one |
| `Statements.EffectiveAt` | CRUD.php:143-147 | a bind that no later call overrides is the value in effect |
| `PhpStrings.Implode` | CRUD.php:45 | implode of no parts is empty, and the joined string starts with the first part, followed by the separator when there are more parts (also used at CRUD.php:95 and 136) |
| `PhpStrings.ImplodeAppend` | CRUD.php:45 | joining one more part appends the separator and that part, so there is no separator after the last part |
| `PhpStrings.StrRepeat` | CRUD.php:48 | str_repeat(s, n) is n times as long as s and starts with s when n > 0 |
| `PhpStrings.StrRepeatAppend` | CRUD.php:48 | one more repetition adds s at the end |
| `PhpValues.ValueText` | CRUD.php:92 | string conversion as interpolation and implode do it: a string is itself, an integer's text reads back as that integer, true is "1" and false is "", null is "" |
| `PhpValues.IntTextRoundTrip` | CRUD.php:133 | reading back the text of an integer (an integer key interpolated as a column name) gives the integer |
| `PhpStrings.RTrim` | CRUD.php:48 | rtrim keeps the longest prefix whose last character is not trimmed, and everything removed is a trimmed character |

## Left out

- The PDO calls (`prepare`, `execute`, `bindValue`, `fetchAll`, `rowCount`) and the global `$con`: foreign database I/O. They are replaced by the `Outcome` parameter of the result-mapping functions.
- The `echo` of error messages in `add`, `select` and `deleteRecord`: output only, no effect on the return value.
- Floating-point values and arrays used as bound values: `Value` covers strings, integers, booleans and null.
- PHP's conversion of numeric string keys to integer keys: keys are taken as given.
- `select` with a condition array holding several keys (PHP's `key()` takes the first), with a malformed `[operator, value]` pair, or with `$columns` given as an array (it would interpolate as "Array"). Each condition is one column with a plain value or an operator/value pair, and the column list is a string.
- Throwables other than PDOException: each helper catches only PDOException, so anything else propagates out of it, for example the `Error` from calling `execute()` on the `false` that `prepare` returns when the connection does not throw on errors. `Outcome` has no case for these.
- The PHP deprecation notice for the fractional `str_repeat` count with an odd argument count: only the truncation is modelled.
- Quoting, escaping and injection safety of table and column names: identifiers are concatenated as they are.
- The placeholder-count lemmas (`InsertPlaceholderCount`, `SelectPlaceholderCount`, `UpdatePlaceholderCount`, `DeleteBindsOnlyId`) assume the interpolated identifiers hold no `?` or `:`. Otherwise the raw text has more such characters than placeholders.
