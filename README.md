# SQLite DDL recognizer and rewriter

This project models the DDL helper of gorm's SQLite driver. The helper lets the migrator change a table by rebuilding it. It does four things:

- It reads the table's `CREATE TABLE` statement, followed by any `CREATE [UNIQUE] INDEX` statements, which it skips, into a `ddl` value. That value holds the statement header, the ordered top-level clauses (`fields`) and per-column metadata (`columns`).
- `compile` writes the statement back as text.
- `addConstraint` and `removeConstraint` edit the named constraints in `fields` in place.
- `getColumns` lists the backticked names of the stored columns. A data copy `INSERT INTO new SELECT <cols> FROM old` needs that list.

The behaviour is taken from the package's table-driven tests in `ddlmod_test.go`. The implementation file is not part of this model. Where no test fixes a rule, the model makes a choice of its own; "## Left out" lists each such choice.

Modules, one file each:

- `Wrappers` (`wrappers.dfy`): the `Option` and `Result` types.
- `Text` (`text.dfy`): ASCII character classes, ASCII upper-casing for keywords, trimming, and joining with commas.
- `Scanner` (`scanner.dfy`): the splitter. It scans left to right, keeping a parenthesis depth and the open quote, and cuts the table body at the commas that stand outside every parenthesis and quote. It has two forms:
  - the function `SplitFields`, the specification;
  - the loop `SplitClauses`, proved equal to it.
- `Lexer` (`lexer.dfy`): splits a clause into tokens with the same scan. White space outside parentheses and quotes separates tokens, and a parenthesised group is one token. This module also handles quoting and unquoting of identifiers and literals.
- `Clauses` (`clauses.dfy`): classifies a clause by its leading keyword alone. A clause is a column, a table constraint (`PRIMARY KEY (...)`, `FOREIGN KEY ...`, `CHECK (...)`, `UNIQUE (...)`) or a `CONSTRAINT <name> ...` clause.
- `Metadata` (`metadata.dfy`): `ColumnMeta` and the column extractor. It reads the name, data type, column type, length, default, nullability and the primary-key and unique flags. The flags can come from the column clause itself or from table-level constraints.
- `Ddl` (`ddl.dfy`):
  - the header and `parseDDL`;
  - rendering and the round trip;
  - `getColumns`;
  - the specifications of the two constraint edits;
  - the class `DDL`, whose methods `AddConstraint` and `RemoveConstraint` change its `fields` in place.

The tests fix some behaviour that a reader might expect to be otherwise:

- A `CREATE UNIQUE INDEX` never marks a column unique. This holds even for an index on exactly one column of the same table with no `WHERE` (ddlmod_test.go:46-63).
- A header with no body (`create table test`) parses to zero fields and no columns (ddlmod_test.go:39).
- An inline `primary key` marks the column as primary key (ddlmod_test.go:184-193, 213-214).
- `compile` writes `head (f1,f2,...)`: one space before the parenthesis and a bare comma between clauses. That is the form the round-trip cases use (ddlmod_test.go:18-20, 175).

## Model

| member | source | states |
|---|---|---|
| Scanner.SplitClauses | ddlmod_test.go:18-20 | The loop over the body with a depth counter and a quote state returns exactly the clause split `SplitFields` specifies, errors included |
| Scanner.PiecesJoin | ddlmod_test.go:18-20 | The untrimmed pieces of a successful split, joined with commas, give back the body text exactly: splitting loses no character |
| Scanner.SplitJoin | ddlmod_test.go:167-178 | Trimmed, balanced clauses joined with commas split back into exactly those clauses, so the field count comes out as written |
| Scanner.SplitJoinFields | ddlmod_test.go:175-178 | Re-splitting the joined fields of a successful split gives the same fields |
| Scanner.SplitFieldsAreClauses | ddlmod_test.go:176-178 | Every field of a successful split is trimmed and balanced outside quotes and parentheses, and a single field is never empty |
| Scanner.ClauseThenGroup | ddlmod_test.go:157 | A clause followed by a parenthesised group of bare text stays one clause whatever commas the group holds (`FOREIGN KEY (UserID) REFERENCES Users(ID)`) |
| Lexer.ClauseThenQuotedGroup | ddlmod_test.go:18-20 | A clause followed by a group holding one quoted name stays one clause (``REFERENCES `users`(`id`)``) |
| Scanner.PiecesOkIffBalanced | ddlmod_test.go:258-260 | The split succeeds exactly when the scan never closes an unopened parenthesis and ends at depth 0 outside every quote |
| Scanner.MissingCloseRejected | ddlmod_test.go:259 | A body with an opening parenthesis that is never closed is rejected |
| Scanner.ExtraCloseRejected | ddlmod_test.go:260 | A body with one closing parenthesis too many is rejected |
| Scanner.SplitLeadingBlank | ddlmod_test.go:218-222 | Blank lines or spaces at the start of the body do not change the split |
| Lexer.ClauseThenQuoted | ddlmod_test.go:40-43 | A clause followed by a quoted literal stays one clause whatever commas the literal holds (`DEFAULT "测试, "`) |
| Lexer.UnquoteQuoted | ddlmod_test.go:18-24 | Unquoting a quoted text, with its doubled quote characters, gives the text back (`"hello"` becomes `hello`) |
| Lexer.TokensWhitespaceInsensitive | ddlmod_test.go:230-234 | Replacing one run of separating white space by another leaves the tokens of a clause unchanged |
| Lexer.TokensOfLayout | ddlmod_test.go:211-234 | Words laid out with any gaps of white space tokenize to exactly those words, so layout never changes a clause's meaning |
| Clauses.ClassifyTokens | ddlmod_test.go:29-34 | A clause whose first token is not a constraint keyword is a column. It is a named constraint exactly when it starts with CONSTRAINT and a name; that name is the second token unquoted |
| Clauses.KeywordLikeNamesAreColumns | ddlmod_test.go:145-156 | Clauses starting with `Checksum`, `constraints` or `unique_code` are columns, although those names begin with CHECK, CONSTRAINT and UNIQUE |
| Clauses.PrimaryKeyClause | ddlmod_test.go:161-163 | `PRIMARY KEY (cols)` in any letter case and spacing is a primary-key table constraint over the unquoted column names |
| Clauses.UniqueClause | ddlmod_test.go:161-163 | `UNIQUE (cols)` is a unique table constraint over the unquoted column names |
| Clauses.NamedUniqueClause | ddlmod_test.go:95-107 | `CONSTRAINT <quoted name> UNIQUE (cols)` is a named constraint with that name and a unique body |
| Clauses.ForeignKeyClause | ddlmod_test.go:157-160 | `FOREIGN KEY (...) ...` is a foreign-key table constraint, not a column |
| Clauses.CheckClause | ddlmod_test.go:29-34 | `CHECK (...)` is a check table constraint, not a column |
| Clauses.ConstraintName | ddlmod_test.go:329-385 | A clause has a constraint name exactly when its first token is CONSTRAINT in any letter case and a second token follows; the name is that second token, unquoted |
| Clauses.ConstraintNameOfBare | ddlmod_test.go:358-371 | `constraint <ws> name <ws> ...` has that name, for the keyword in any case and any white space including newlines |
| Clauses.ConstraintNameOfQuoted | ddlmod_test.go:329-357 | `CONSTRAINT <ws> \`name\` <ws> ...` has the unquoted name, for the keyword in any case and any white space |
| Metadata.ExtractColumn | ddlmod_test.go:18-27 | Column metadata from a clause's tokens. The name is the first token unquoted and the data type the second. A length exists exactly when a group follows the type, and then columnType is type plus group. It is nullable exactly when there is no NOT NULL. The default is the unquoted token after DEFAULT. primaryKey and unique come from the inline words or from table-level constraints. It is an error exactly when the length group is not a number |
| Metadata.ColumnWords | ddlmod_test.go:23-26 | The complete metadata of `name type[(n)] modifiers...` |
| Metadata.LengthOfNumeral | ddlmod_test.go:23-24 | A decimal length group reads back as its number (`(500)` is 500) |
| Metadata.NotNullColumn | ddlmod_test.go:29-33 | `name type NOT NULL` is not nullable and has no default |
| Metadata.DefaultColumn | ddlmod_test.go:18-26 | `name type DEFAULT v` is nullable with default `v` unquoted, for every `v` but the word UNIQUE (`DEFAULT NULL` included) |
| Metadata.DefaultOfFirst | ddlmod_test.go:18-20 | The default is the unquoted token after the first DEFAULT |
| Metadata.InlineKeyUniqueColumn | ddlmod_test.go:184-193 | `id integer primary key unique` is primary key and unique, and it is still nullable |
| Metadata.ColumnOfLayout | ddlmod_test.go:211-235 | A column clause with any white space between its words is a column clause with the metadata of the words alone |
| Metadata.KeyNames | ddlmod_test.go:161-163 | A name is a key name exactly when some PRIMARY KEY clause lists it |
| Metadata.UniqueNames | ddlmod_test.go:95-107 | A name is a unique name exactly when some UNIQUE or CONSTRAINT ... UNIQUE clause lists it alone |
| Metadata.ColumnsOf | ddlmod_test.go:167-179 | There is one column per column clause, in order, and the first bad length fails the whole list |
| Metadata.ColumnFlags | ddlmod_test.go:161-163 | A column is primary key exactly when it says PRIMARY KEY inline or a PRIMARY KEY constraint names it. It is unique exactly when it says UNIQUE inline or a single-column UNIQUE constraint names it |
| Ddl.HeaderLength | ddlmod_test.go:18-47 | A recognized header starts with `CREATE TABLE ` in any letter case, and the rest of it is a bare name, or a name between two equal quote characters |
| Ddl.BareHeader | ddlmod_test.go:36-39 | `CREATE TABLE ` in any letter case followed by any bare name is a header (`create table test`) |
| Ddl.QuotedHeader | ddlmod_test.go:19-49 | `CREATE TABLE ` in any letter case followed by any name between two equal quote characters is a header (`` `notes` ``, `` `test-a` ``) |
| Ddl.ParseTable | ddlmod_test.go:167-179 | A parsed table's head is a header and its columns are the columns of its fields |
| Ddl.ParseDDL | ddlmod_test.go:18-22 | It succeeds exactly when the first statement parses as a table and every later statement is an index statement, and the result is that table |
| Ddl.RenderParses | ddlmod_test.go:167-175 | Parsing `head (f1,...)` gives back that head and those fields, and compiling the result reproduces the text byte for byte |
| Ddl.ReparseStable | ddlmod_test.go:175 | Compiling a parsed table and parsing again gives the same table, columns included |
| Ddl.HeaderOnly | ddlmod_test.go:39 | A header with no body parses to no fields and no columns |
| Ddl.LowercaseHeaderOnly | ddlmod_test.go:39 | `create table test` parses to a table with that head and no fields |
| Ddl.MissingTableName | ddlmod_test.go:258 | `CREATE TABLE` with no name is rejected |
| Ddl.MissingCloseParen | ddlmod_test.go:259 | `CREATE TABLE t (... name varchar(255)` is rejected |
| Ddl.ExtraCloseParen | ddlmod_test.go:260 | `CREATE TABLE t (... varchar(255)))` is rejected |
| Ddl.LayoutAroundBody | ddlmod_test.go:211-228 | Newlines or spaces between the header and `(`, or after `(`, parse exactly like none at all |
| Ddl.IndexStatementOfLayout | ddlmod_test.go:128-131 | An index statement is recognized however its words are spaced, newlines before ON included |
| Ddl.IndexStatementsIgnored | ddlmod_test.go:46-63 | Adding index statements, unique, partial or plain, changes nothing in the parse: no index marks a column unique |
| Ddl.OtherStatementRejected | ddlmod_test.go:18-22 | The tests only put index statements after the table. The model chooses to reject any other statement there: such a statement makes the parse fail |
| Ddl.ColumnNames | ddlmod_test.go:399-452 | The listed names are backticked and number no more than the fields |
| Ddl.ColumnNamesSkip | ddlmod_test.go:420-424 | A constraint clause or a GENERATED ALWAYS AS column contributes no name, wherever it stands |
| Ddl.ColumnNamesAppend | ddlmod_test.go:405-414 | The names of two runs of fields are the names of the first followed by those of the second, so declaration order is kept |
| Ddl.ColumnNamesMatchColumns | ddlmod_test.go:405-437 | Without generated columns, the listed names are exactly the parsed column names, backticked, in the same order |
| Ddl.FirstMatch | ddlmod_test.go:321-385 | The position of the first clause with the given constraint name, or none when no clause has it |
| Ddl.WithConstraintShape | ddlmod_test.go:281-308 | Adding replaces the first clause of that exact name in place, or appends when there is none; every other clause is unchanged |
| Ddl.AddTwice | ddlmod_test.go:288-308 | Adding twice under one name equals adding once with the latest text |
| Ddl.WithoutConstraintShape | ddlmod_test.go:329-378 | Removing takes out the first clause with that name in any letter case and leaves the others in order |
| Ddl.RemoveAfterAdd | ddlmod_test.go:281-287 | Removing a constraint just added under a new name restores the clauses |
| Ddl.AddKeepsColumnNames | ddlmod_test.go:281-287 | Adding a named constraint leaves the column names unchanged |
| Ddl.RemoveKeepsColumnNames | ddlmod_test.go:329-335 | Removing a named constraint leaves the column names unchanged |
| Ddl.DDL.constructor | ddlmod_test.go:313 | A ddl holds a parsed table's head, fields and columns |
| Ddl.DDL.Compile | ddlmod_test.go:175 | The text starts with the head and is the head alone exactly when there are no fields |
| Ddl.DDL.GetColumns | ddlmod_test.go:447-449 | The names are backticked and no more numerous than the fields |
| Ddl.DDL.AddConstraint | ddlmod_test.go:311-318 | `fields` becomes the replace-or-append edit of the old fields; head and columns are unchanged |
| Ddl.DDL.RemoveConstraint | ddlmod_test.go:387-396 | It returns true exactly when some clause had the name in any case, and then exactly one clause is gone. `fields` becomes the removal edit of the old fields; head and columns are unchanged |

## Left out

- The Go test scaffolding (`t.Run`, assertions, `panic`) is not modelled. The test cases are stated as lemmas over the shapes of their inputs.
- `migrator.ColumnType` and the `sql.NullString`, `NullBool` and `NullInt64` wrappers are not modelled. `ColumnMeta` uses `Option` for length and default, and plain booleans for the flags.
- The regular expressions the implementation may use are not modelled. Recognition is a direct character scan.
- Keywords are compared with ASCII upper-casing only. There is no Unicode case folding or normalisation, and non-ASCII text is carried through unchanged.
- `CREATE TABLE IF NOT EXISTS` is not recognized as a header. No case shows it.
- The table statement must come first and every later statement must be an index statement. The model does not look for the table among the statements.
- Ddl.RenderParses: the byte-for-byte round trip holds for statements in the form `compile` writes, meaning one space before `(` and bare commas between clauses. Other layouts parse to the same table but compile to that form.
- Metadata.ExtractColumn: a length group that is not a plain number, such as `decimal(10,2)`, is a BadLength error and not a precision. A clause with a name and no type is not a column. A parenthesised DEFAULT expression is kept as written, parentheses included.
- Metadata.LengthOf: a length is an unbounded natural number. The column type holds it as a 64-bit integer (`sql.NullInt64`), so a length group above 2^63-1 is read here but would not fit there.
- Metadata.UniqueNames: a UNIQUE constraint over several columns marks none of them unique, because uniqueness of a column set is not uniqueness of a column.
- Metadata.LengthOf: its own contract states only the error kind. The value of a valid length is stated by Metadata.LengthOfNumeral.
- Ddl.DDL.Compile: its own contract states only the prefix and the empty case. The round trip is stated by Ddl.RenderParses and Ddl.ReparseStable.
- Ddl.DDL.GetColumns: its own contract states only the form of the names. Their content and order are stated by Ddl.ColumnNamesMatchColumns and Ddl.ColumnNamesSkip.
- Ddl.DDL.RemoveConstraint: the name is matched in any letter case, while Ddl.DDL.AddConstraint matches it exactly. This is a choice of the model: every removal case passes the name in the letter case the clause uses (`fk_users_notes` at ddlmod_test.go:329-370, `name_checker` at 371-377), or `nothing` (378-384), which no clause names in any letter case, so no test decides case folding.
- Ddl.ParseTable: text after the body's closing `)`, such as `WITHOUT ROWID`, `STRICT` or a trailing `;`, is rejected as UnbalancedBrackets. No test shows such text, so this is a choice of the model.
- Scanner.PiecesOkIffBalanced: a quote left open at the end of the body is the UnterminatedQuote error. No test has an unclosed quote, so this error kind is a choice of the model.
- Errors are values of `ParseError` (InvalidStatement, UnbalancedBrackets, UnterminatedQuote, BadLength), not Go error messages.
