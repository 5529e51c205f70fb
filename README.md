# SQLite-to-MySQL script generator, modelled in Dafny

`convert_sqlite_to_mysql` reads every table of a SQLite database and writes a MySQL
script. For each table, the script has:

- a `DROP TABLE IF EXISTS` line;
- a `CREATE TABLE` statement, whose column types are translated by four
  case-insensitive regular-expression substitutions;
- one `INSERT INTO` line per row.

This project models the text generator at the centre of that routine. The database
is given as a value: an ordered list of tables, each with its column descriptors (as
`PRAGMA table_info` returns them) and its rows. The output file is the text built
by the routine's `f.write` calls.

The project has four modules:

- `Text` (`text.dfy`) holds Python's `str.join` and the concatenation of the
  written pieces (`Flatten`), with their algebra.
- `TypeMapping` (`type_mapping.dfy`) models `re.sub(r"KW\b", repl, s,
  flags=re.IGNORECASE)` as `ReplaceAll`:
  - a left-to-right scan that replaces non-overlapping matches;
  - a match is the keyword in any case, then the end of the text or a non-word
    character;
  - there is no boundary before the keyword, so `bigint` becomes `bigINT`.

  `MapType` chains the four rules in source order, so each rule sees the output of
  the one before.
- `Values` (`values.dfy`) renders one row value:
  - a text value goes inside double quotes, with every `'` doubled;
  - an integer is written as decimal;
  - a null is written as `None`;
  - a float or a `bytes` value is carried as the text `str()` gives it.
- `Converter` (`converter.dfy`) holds:
  - the column-clause builder;
  - the writes made for each table (`TableWrites`) and for the whole run (`Writes`);
  - the script text (`Script`);
  - the routine itself, `Convert`. It is imperative, with a loop over tables, a loop
    over columns that fills `col_defs`, and a loop over rows, and it is proved to
    produce `Script(db)`.

  Statement counts and statement order are stated over `Writes`. Each write is
  classified by the SQL keyword it starts with (`KindOf`).

What the code writes, and what the model therefore states:

- **Layout of `CREATE TABLE`.** Lines 25, 41, 43 and 44 write:
  - `(` followed by a newline;
  - each column name between backticks;
  - the definitions joined by `,\n`;
  - `\n);` followed by a blank line.

  The three single spaces before the optional clauses are always kept. So
  `id INTEGER PRIMARY KEY` comes out as ``  `id` INTEGER   PRIMARY KEY``.
- **Defaults.** Line 32 tests the truthiness of the default. `PRAGMA table_info`
  reports a default as SQL text or as null. So only an absent default or an empty
  text drops the clause, and the text `0` keeps it. The model's default is an
  `Option<string>`, and `DefaultClause` checks for `None` and for `""`.

Line 51 reuses the f-string's own quote character inside a replacement field.
Python accepts that from version 3.12 on, and the model assumes such a version.

## Model

| member | source | states |
|---|---|---|
| Converter.Convert | converter-sqlite-mysql.py:13-54 | the text written to the output file is exactly `Script(db)`: the header, then each table's writes in enumeration order |
| Converter.WriteTable | converter-sqlite-mysql.py:17-54 | the body of the table loop appends exactly that table's writes (`DROP`, `CREATE TABLE`, joined column definitions, closing `)`, the rows, a blank line) to what was written before |
| Converter.ColumnDefinitions | converter-sqlite-mysql.py:26-41 | the column loop, with the four substitutions applied one after another, builds `col_defs` as one definition per column, in column order |
| Converter.WriteRows | converter-sqlite-mysql.py:50-52 | the row loop appends one `INSERT INTO` statement per row, in row order, and nothing else |
| Converter.ColumnDefLayout | converter-sqlite-mysql.py:41 | a column definition is two spaces, then the space-joined list of the backticked name, the mapped type and the three clauses, so an empty clause keeps its separator |
| Converter.ColumnClauses | converter-sqlite-mysql.py:31-33 | `NOT NULL` appears iff the notnull flag is non-zero; `DEFAULT d` iff a default is present and non-empty; `PRIMARY KEY` iff the pk field is non-zero; otherwise each clause is empty |
| Converter.BareColumnDef | converter-sqlite-mysql.py:31-41 | a column with no flag and no default still ends in three spaces after its type |
| Converter.ColumnDefsInOrder | converter-sqlite-mysql.py:26-43 | the `CREATE TABLE` body has one definition per column; column j's definition sits at its join offset, and `,\n` follows it unless it is the last |
| Converter.ColumnBodySnoc | converter-sqlite-mysql.py:41-43 | one more column adds `,\n` and its definition to the end of the body, or is the whole body if it is the first |
| Converter.KindsOfLines | converter-sqlite-mysql.py:14-54 | the `DROP` line starts with `DROP`, the `CREATE` line with `CREATE`, each row's line with `INSERT`; the header, the column body, the closing `)` and the blank line start with none of them |
| Converter.TableWriteKinds | converter-sqlite-mysql.py:24-54 | a table's writes are, by kind: one `DROP`, one `CREATE TABLE`, two other writes, one `INSERT` per row, one other write |
| Converter.TableWritesOfKind | converter-sqlite-mysql.py:24-52 | a table writes exactly one `DROP` line and one `CREATE TABLE` line, both naming the table, and its `INSERT` lines are exactly the rows' lines, in row order |
| Converter.DropsInOrder | converter-sqlite-mysql.py:16-24 | the `DROP` statements of the script are one per table, in enumeration order |
| Converter.CreatesInOrder | converter-sqlite-mysql.py:16-25 | the `CREATE TABLE` statements of the script are one per table, in enumeration order |
| Converter.InsertsInOrder | converter-sqlite-mysql.py:16-52 | the `INSERT` statements are the first table's rows in row order, then the next table's, and so on; their number is the total number of rows |
| Converter.ScriptStartsWithHeader | converter-sqlite-mysql.py:14 | the script begins with `-- Script gerado para MySQL` and a blank line |
| Converter.ScriptAppendTable | converter-sqlite-mysql.py:16-54 | adding a table at the end of the enumeration appends exactly that table's text to the script |
| Converter.TableTextEndsWithBlankLine | converter-sqlite-mysql.py:44-54 | every table's text ends in a blank line, with or without rows |
| TypeMapping.NoMatchUnchanged | converter-sqlite-mysql.py:36-39 | a substitution whose pattern matches nowhere returns its input unchanged |
| TypeMapping.CaseOnlyReplacement | converter-sqlite-mysql.py:36 | when the replacement spells the keyword, the substitution keeps the length and changes only letter case |
| TypeMapping.IntRuleOnlyChangesCase | converter-sqlite-mysql.py:36 | the `INT` rule keeps the length and the case-folded text of the type: it only upper-cases `int` |
| TypeMapping.EndsWithReplacement | converter-sqlite-mysql.py:36-39 | a text ending in the keyword, in any case, comes out ending in the replacement |
| TypeMapping.SuffixKept | converter-sqlite-mysql.py:36-39 | a suffix that the keyword neither matches inside nor runs into survives a substitution at the end of the text, whatever character it starts with, even when a match ends right before it |
| TypeMapping.SizeSuffixKept | converter-sqlite-mysql.py:36 | a size suffix `(20)` stays at the end of any type under the `INT` rule, as in `xINT(20)` |
| TypeMapping.IntTargetSurvives | converter-sqlite-mysql.py:36-39 | `INT` written by the first rule is left alone by the `TEXT`, `REAL` and `BLOB` rules |
| TypeMapping.TextTargetSurvives | converter-sqlite-mysql.py:37-39 | `VARCHAR(255)` written by the second rule is left alone by the `REAL` and `BLOB` rules |
| TypeMapping.RealTargetSurvives | converter-sqlite-mysql.py:38-39 | `DOUBLE` written by the third rule is left alone by the `BLOB` rule |
| TypeMapping.TextKeywordSurvives | converter-sqlite-mysql.py:36-37 | a trailing `TEXT` is not touched by the `INT` rule that runs before its own |
| TypeMapping.RealKeywordSurvives | converter-sqlite-mysql.py:36-38 | a trailing `REAL` is not touched by the `INT` and `TEXT` rules that run before its own |
| TypeMapping.BlobKeywordSurvives | converter-sqlite-mysql.py:36-39 | a trailing `BLOB` is not touched by the three rules that run before its own |
| TypeMapping.MapTypeEndingInt | converter-sqlite-mysql.py:36-39 | a declared type ending in `int` (any case) maps to a type ending in `INT`, so `bigint` becomes `bigINT` |
| TypeMapping.MapTypeEndingText | converter-sqlite-mysql.py:36-39 | a declared type ending in `text` (any case) maps to a type ending in `VARCHAR(255)` |
| TypeMapping.MapTypeEndingReal | converter-sqlite-mysql.py:36-39 | a declared type ending in `real` (any case) maps to a type ending in `DOUBLE` |
| TypeMapping.MapTypeEndingBlob | converter-sqlite-mysql.py:36-39 | a declared type ending in `blob` (any case) maps to a type ending in `LONGBLOB` |
| TypeMapping.MapTypeKeywordThenBoundary | converter-sqlite-mysql.py:36-39 | a keyword followed by the end or by a non-word character is replaced by its target, and what follows is mapped on its own |
| TypeMapping.MapTypeBeforeBoundary | converter-sqlite-mysql.py:36-39 | the mapping of a type splits in front of a non-word character: `TEXT(20)` maps as `TEXT`, then `(20)` |
| TypeMapping.MapTypeSplit | converter-sqlite-mysql.py:36-39 | the mapping of a type splits after a non-word character: each side is mapped on its own |
| TypeMapping.ReplaceAllSplit | converter-sqlite-mysql.py:36-39 | one substitution splits after a non-word character, since no match can span it |
| TypeMapping.ReplaceAllAppendBoundary | converter-sqlite-mysql.py:36-39 | a non-word character at the end is copied and changes no match before it |
| TypeMapping.MapTypeUnchanged | converter-sqlite-mysql.py:36-39 | a type in which no keyword is followed by a boundary passes through unchanged |
| TypeMapping.IntegerUnchanged | converter-sqlite-mysql.py:36-39 | `INTEGER` maps to itself: `INT` is followed by a word character, so there is no match |
| TypeMapping.NumericUnchanged | converter-sqlite-mysql.py:36-39 | `NUMERIC` maps to itself |
| TypeMapping.WholeKeywordReplaced | converter-sqlite-mysql.py:36-39 | a type that is exactly the keyword, in any case, is replaced as a whole |
| TypeMapping.MapTypeOfKeyword | converter-sqlite-mysql.py:36-39 | `int`, `text`, `real` and `blob`, in any case, map to `INT`, `VARCHAR(255)`, `DOUBLE` and `LONGBLOB` |
| Values.EscapeLength | converter-sqlite-mysql.py:51 | doubling the quotes adds exactly one character per `'` |
| Values.UnescapeEscape | converter-sqlite-mysql.py:51 | turning each `''` back into `'` recovers the original text |
| Values.EscapeUnchangedIff | converter-sqlite-mysql.py:51 | escaping changes a text iff it holds a `'` |
| Values.RenderTextRoundTrip | converter-sqlite-mysql.py:51 | a text value renders to length \|s\| + 2 + (number of `'`), and stripping the double quotes and undoubling recovers it |
| Values.NatToDecimalRoundTrip | converter-sqlite-mysql.py:51 | `str` of a non-negative integer is a non-empty run of digits, with no leading zero unless it is 0, that reads back as the number |
| Values.IntToDecimalRoundTrip | converter-sqlite-mysql.py:51 | an integer value renders as digits, after a `-` only when negative, and reads back as the integer |
| Values.NullRendersAsNone | converter-sqlite-mysql.py:51 | a null value renders as `None`, not as SQL `NULL` |
| Values.RenderValuesAt | converter-sqlite-mysql.py:51 | value k of a row is rendered at its join offset in the `, `-separated list, so the values keep the row's order |
| Text.JoinAt | converter-sqlite-mysql.py:43 | in `sep.join(xs)`, element i sits at its offset and, unless it is the last, is followed by `sep` |
| Text.JoinSnoc | converter-sqlite-mysql.py:43 | joining one more element adds the separator and that element at the end |
| Text.JoinLength | converter-sqlite-mysql.py:43 | a join is as long as its elements plus one separator per gap |
| Text.FlattenAppend | converter-sqlite-mysql.py:14-54 | writing two runs of pieces one after the other gives the two texts one after the other |

## Left out

- SQLite access is replaced by the `Database` value passed in: connect, the
  `sqlite_master` query, `PRAGMA table_info`, `SELECT *` and close (lines 6-11, 20-21,
  47-48, 56). The model takes tables, columns and rows in the order those queries
  return them.
- The file is replaced by the returned text. Opening it, its UTF-8 encoding and
  closing it are not modelled (line 13).
- The success message printed at the end is not modelled (line 57).
- Errors are not modelled. The database and file layers may fail, and the routine
  catches nothing, so a failure leaves a partial file.
- `str()` of floats and of `bytes` values is not modelled. It is Python's own
  formatting, so such a value is carried as its rendered text (`OtherValue`).
- Only three row-value types are modelled: text, integer and null. Values of any
  other Python type reach line 51 only as `OtherValue`.
- TypeMapping.IsWordChar: `\w` is restricted to ASCII letters, digits and `_`. Python
  also counts other Unicode letters and digits, so a keyword followed by, say, `é` is
  replaced here but not by Python.
- TypeMapping.Upper: case-insensitive matching uses ASCII case folding. Python also
  matches a few non-ASCII letters to ASCII ones, for example `ı` (U+0131) to `I`.
- Identifiers are copied into the backticks as they are, as the code does; a name
  that holds a backtick is not escaped.
