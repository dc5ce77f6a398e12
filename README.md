# pugsql.js, modelled in Dafny

pugsql.js lets a program declare its SQL queries in a plain-text file of annotated SQL. Each
query opens with a header line, `-- :name <name> :<kind> [<arg>]`. Loading the file gives an
object with one function per query name, and the kind decides what shape that function
returns. puglify.js is the companion generator: it reads a SQLite schema and prints the
standard annotated queries for every table.

This project models the core of both programs and proves properties of the model:

- **`Header`**: the header pattern `^--\s+:name\s+(\w+)\s+:(\w+)(?:\s+(.*?))?\s*$`.
  - It is a deterministic matcher that is proved sound and complete against the line layouts
    the pattern admits.
  - A round trip runs through a renderer.
  - `\w` is `[A-Za-z0-9_]`. `\s` is the exact set of ECMAScript whitespace and
    line-terminator code points.
- **`Parser`**: `#specs`.
  - The file is given as its sequence of lines.
  - The model is a loop method, `ParseSpecs`, proved equal to a functional specification,
    `Specs`. The specification's properties are proved as lemmas.
- **`Kinds`**: the kind table.
  - A prepared statement is abstracted to what running it reports (`changes`,
    `lastInsertRowid`) and the rows it yields.
  - For each kind, the model states what the kind's function answers.
- **`Registry`**: `#loadModule`, meaning the kind check and `Object.fromEntries`.
  - `module` is modelled as a `DB` class whose `modules` map field is the per-filename cache.
- **`Identifiers`**: the text helpers of puglify.js, from `capitalize` to `where`.
- **`Generator`**: the per-table emission rules and the generator's main loop.
  - Schema metadata is input data.
  - `pluralize.singular` is an arbitrary function parameter.
  - Each `console.log` is a line appended to an output sequence.
  - A helper that throws ends the program after the lines already printed.
- **`Integration`**: the generator's output read back by the loader. The generator prints
  `:insert` headers, but `insert` is not a kind. So when a table's singular name is made of
  `\w` characters, the table's complete output fails to load: either an earlier line breaks
  the parse, or the kind check refuses `insert`.

`Wrappers` (`Option`, `Result`) and `Chars` (the character classes) are shared helpers.

The model takes pugsql.js as it is written, in particular:

- The kind table of pugsql.js:9-52 has seven kinds. None of them is `insert`, `exists` or
  `transaction`.
- `#loadModule` reports no duplicate-name or reserved-name error. `Object.fromEntries` keeps
  the last specification of a name (pugsql.js:86-93).
- `module` caches by filename (pugsql.js:78-83).

## Model

| member | source | states |
|---|---|---|
| Header.HeaderOfIff | pugsql.js:103 | a line matches with captures (name, kind, arg) exactly when it is `--`, whitespace, `:name`, whitespace, a `\w` name, whitespace, `:`, a `\w` kind, then either nothing or whitespace and an argument with no edge whitespace and no line terminator, then optional trailing whitespace |
| Header.HeaderOf | pugsql.js:103-107 | a match's name and kind are `\w` strings, and its argument has no line terminator and no whitespace at either end |
| Header.Scan | pugsql.js:103 | whatever the matcher accepts is a well-formed header line that reassembles exactly from its captures and whitespace runs |
| Header.ScanComplete | pugsql.js:103 | every well-formed header line is accepted, with its own captures and whitespace runs |
| Header.ScanArgSound | pugsql.js:103-107 | the argument is absent only when nothing follows the kind; when present it is the text after the kind minus its leading and trailing whitespace |
| Header.ScanArgComplete | pugsql.js:103-107 | every tail the optional group can match is read back with the same argument and surrounding whitespace |
| Header.RenderRoundTrip | pugsql.js:103-108 | writing a header with single spaces and matching it gives back the same name, kind and argument |
| Header.ParenthesisedArgIsNoHeader | pugsql.js:103 | `:kind(col)` in parentheses is not a header line at all |
| Parser.ParseSpecs | pugsql.js:96-116 | the line loop, with its `current` record and pushed array, computes exactly `Specs(lines)` |
| Parser.Specs | pugsql.js:96-116 | parsing fails exactly when a body line comes before every header; otherwise it gives one specification per header line, in order, each with that header's captures |
| Parser.SpecsFollowHeaders | pugsql.js:102-114 | one specification per header line, in header order, with that header's name, kind and argument |
| Parser.SpecsFailIff | pugsql.js:100-110 | parsing fails exactly when a body line comes before every header |
| Parser.FailureSticks | pugsql.js:110 | once the parse has failed, later lines do not change the outcome |
| Parser.Classify | pugsql.js:103-109 | a line is a header exactly when it matches the pattern, and then carries its captures; it is blank exactly when it is whitespace only; any other line is body text, kept verbatim |
| Parser.BlankLineIgnored | pugsql.js:109 | inserting a blank line anywhere leaves the result unchanged: it adds no text and closes nothing |
| Parser.SpecsOfBlock | pugsql.js:105-111 | a header followed by non-header lines gives one specification whose `sql` is each body line verbatim plus a newline, and `''` when there are none |
| Parser.SpecsConcat | pugsql.js:102-114 | splitting the lines just before a header splits the specifications the same way |
| Parser.StartsWithHeader | pugsql.js:105-108 | lines that start with a header parse to at least one specification |
| Parser.SpecsOfBlocks | pugsql.js:99-115 | blank lines followed by header-led blocks parse to one specification per block, in order, each with its block's body text |
| Parser.AllBlankIsEmpty | pugsql.js:99-115 | input of blank lines only, the empty file included, declares nothing |
| Kinds.KindNamedIff | pugsql.js:9-52 | a kind word names a kind exactly when it is that kind's property name, case-sensitively |
| Kinds.KindNamedNone | pugsql.js:88 | the words naming no kind are exactly those outside the seven names |
| Kinds.Invoke | pugsql.js:9-52 | per kind: `run` gives the run info; `changes` and `lastRowID` give `changes`; `get` gives the first row, its column, or undefined; `all` gives every row, or that column of each row in row order; `one` and `list` give the first column of the first row and of every row |
| Kinds.Lookup | pugsql.js:25 | `row[column]` is undefined exactly when no cell has that name, and otherwise is the value of the last cell with that name |
| Kinds.ColumnOf | pugsql.js:39 | one value per row, in row order, each that row's `row[column]` |
| Kinds.FirstColumn | pugsql.js:51 | one value per row, in row order, each that row's first column |
| Kinds.GetIsHeadOfAll | pugsql.js:21-45 | with the same argument, `get` answers the first element of what `all` answers |
| Kinds.OneIsHeadOfList | pugsql.js:48-51 | `one` answers the first element of what `list` answers |
| Kinds.PluckIsLookup | pugsql.js:48 | plucking the first column agrees with naming it, unless a later column repeats the name |
| Kinds.ArgumentIgnored | pugsql.js:11-17 | every kind except `get` and `all` ignores the header argument |
| Kinds.FalsyArgumentMeansWholeRows | pugsql.js:22-43 | an absent or empty argument makes `get` and `all` answer with whole rows |
| Kinds.LastRowIDReturnsChanges | pugsql.js:16-17 | as written, `lastRowID` answers the change count, which differs from the inserted id on an execution where the two differ |
| Kinds.InvokeIntendedDiffers | pugsql.js:17 | the written and intended tables differ exactly on `lastRowID` executions whose two counts differ |
| Registry.Compile | pugsql.js:86-92 | succeeds exactly when every kind is the table's own, with one entry per specification in order; otherwise fails with the error of the first bad specification |
| Registry.FromEntries | pugsql.js:86-93 | the map's keys are exactly the entries' names |
| Registry.FromEntriesLastWins | pugsql.js:86-93 | a name maps to the callable of the last entry with that name |
| Registry.DistinctNamesAllKept | pugsql.js:86-93 | with distinct names, every entry is in the map |
| Registry.LoadModule | pugsql.js:85-94 | a parse failure is reported as the load's failure; a parsed file loads exactly when every kind is one of the table's own, and the module's names are then exactly the specification names |
| Registry.LoadSpecsIff | pugsql.js:85-94 | loading succeeds exactly when every kind is the table's own, and the module's keys are then exactly the specification names |
| Registry.LoadSpecsLastWins | pugsql.js:85-94 | on a duplicate name, the last specification bearing it supplies the callable |
| Registry.InheritedKindIsNotAFunction | pugsql.js:88-91 | as written, the kind `toString` passes the `in` test and then fails as a call, not with the unknown-kind error |
| Registry.EntryForIntended | pugsql.js:88-89 | the check on own entries only: an entry exists exactly for one of the seven kinds, and every other kind raises the unknown-kind error |
| Registry.EntryForDiffers | pugsql.js:88 | the written and intended checks differ exactly on the `Object.prototype` names |
| Registry.CachedAnswerRepeats | pugsql.js:79-82 | asking again for the same file answers what was stored, whatever the file now holds, and leaves the cache as it was |
| Registry.CacheFrame | pugsql.js:79-80 | a call changes no other filename's entry and adds at most its own |
| Registry.InheritedFilenameNeverLoads | pugsql.js:79 | as written, the filename `constructor` is never loaded: on an empty cache it answers the inherited member, and nothing is stored |
| Registry.CacheStepIntended | pugsql.js:79-82 | the cache on own entries only: every success answers a module stored under the filename |
| Registry.CacheStepAgrees | pugsql.js:79 | the written and intended caches agree on every filename that is not an inherited name |
| Registry.DB.constructor | pugsql.js:64 | a new object starts with an empty module cache |
| Registry.DB.Module | pugsql.js:78-83 | the answer and the new `modules` field are those that `CacheStep` gives for the old cache |
| Identifiers.CasingKeepsUnderscore | puglify.js:25-27 | case conversion maps `_` to itself and nothing else to `_`, and each case conversion undoes the other on the first letter |
| Identifiers.Capitalize | puglify.js:25 | throws exactly on the empty string; otherwise same length, upper-cased first character, unchanged remainder |
| Identifiers.Decapitalize | puglify.js:27 | throws exactly on the empty string; otherwise same length, lower-cased first character, unchanged remainder |
| Identifiers.CapitalizeIdempotent | puglify.js:25 | capitalising twice is capitalising once |
| Identifiers.DecapitalizeCapitalize | puglify.js:25-27 | decapitalising a capitalised string is decapitalising the original |
| Identifiers.Split | puglify.js:29 | `split('_')` gives one more segment than there are `_`, and no segment contains `_` |
| Identifiers.JoinSplit | puglify.js:29 | joining the segments with `_` gives back the string |
| Identifiers.SplitJoin | puglify.js:29 | splitting a `_`-join of `_`-free segments gives back the segments |
| Identifiers.MapAll | puglify.js:29 | `map` with a helper that may throw throws exactly when the helper throws on some element; otherwise it gives one image per element, in order |
| Identifiers.FirstSegmentEmpty | puglify.js:29 | the first segment is empty exactly when the string is empty or starts with `_` |
| Identifiers.LaterSegmentEmpty | puglify.js:29 | a later segment is empty exactly when the string ends with `_` or has two `_` in a row |
| Identifiers.CamelCase | puglify.js:29 | throws exactly when some segment is empty, which is exactly when the string is empty, starts or ends with `_`, or has two `_` in a row |
| Identifiers.CamelCaseShape | puglify.js:29 | the result's length is the input's, minus its `_`; it has no `_`; and it starts with the input's first letter upper-cased |
| Identifiers.LowerCamelCase | puglify.js:31 | throws exactly where `camelCase` does |
| Identifiers.LowerCamelCaseShape | puglify.js:31 | defined exactly where `camelCase` is; same as `camelCase` except for the first letter, which is the input's first letter lower-cased; no `_` |
| Identifiers.Param | puglify.js:33 | throws exactly where `camelCase` does |
| Identifiers.ParamShape | puglify.js:33 | defined exactly where `camelCase` is: `$`, then the input's first letter lower-cased, then the rest without its `_` |
| Identifiers.Params | puglify.js:35 | throws exactly when some name is not well separated; otherwise has the names' length and order, with element i being `param(names[i])` |
| Identifiers.Where | puglify.js:37 | throws exactly when some key is not well separated |
| Identifiers.WhereShape | puglify.js:37 | defined exactly when every key is; `''` for no keys; the one clause for one key; each further key adds ` and ` and its clause at the end |
| Identifiers.NonKeys | puglify.js:45-46 | the filtered list is no longer than the columns |
| Identifiers.NonKeysMembers | puglify.js:45-46 | the filtered columns are exactly the columns that are not keys |
| Identifiers.NonKeysConcat | puglify.js:46 | filtering keeps column order: it distributes over concatenation |
| Generator.Others | puglify.js:56 | the joined names of the referenced tables are built exactly when every referenced singular name is well separated |
| Generator.OthersAvoidUnderscore | puglify.js:56 | the joined names of the referenced tables contain no `_` |
| Generator.QueryFor | puglify.js:49-86 | the query has the requested role; its header name is built exactly when every name it camel-cases is well separated, and then has no `_`; its SQL is built exactly when every column it turns into a parameter is well separated |
| Generator.NameFor | puglify.js:50-83 | per role, the header name is built exactly when the table's singular (or, for the plural queries, its name) and the referenced singulars are well separated, and then has no `_` |
| Generator.SqlFor | puglify.js:51-84 | per role, the SQL is built exactly when its `where` keys and its parameter columns are well separated: the keys for by-key, the foreign-key columns for the two foreign-key queries, all columns for insert, the non-key columns (and the keys) for update and make |
| Generator.Planned | puglify.js:49-86 | one query per planned role, in the planned order |
| Generator.RolesForRules | puglify.js:49-86 | a role is printed exactly when its condition holds |
| Generator.RolesForInOrder | puglify.js:49-86 | each role appears at most once, in the fixed order of the blocks |
| Generator.EmissionRules | puglify.js:49-86 | a table gets a query of a role exactly when that role's rule holds, at most one of each, in block order: by key iff it has primary keys; the two foreign-key queries iff it has foreign keys; all rows and insert always; update iff it has keys and non-key columns; make iff it has a rowid |
| Generator.AlwaysEmitted | puglify.js:67-73 | every table gets its all-rows query and its insert query |
| Generator.PrintedConcat | puglify.js:39-89 | printing two runs of queries is printing the first, then the second only if nothing threw |
| Generator.PrintedStops | puglify.js:39-89 | after a throw, nothing more is printed |
| Generator.PrintedComplete | puglify.js:49-86 | the output is complete exactly when no query throws, and then it has three lines per query, in query order: the header, the SQL, an empty line |
| Generator.Print | puglify.js:50-52 | what the three `console.log` calls of one query append, and whether the program is still running |
| Generator.Emit | puglify.js:49-86 | one guarded block advances the output from the first k blocks to the first k+1 |
| Generator.EmitTable | puglify.js:41-86 | one table's output is exactly the printing of its planned queries |
| Generator.AllQueriesStop | puglify.js:39-89 | once a table's queries have thrown, later tables print nothing |
| Generator.Puglify | puglify.js:39-89 | the program's output is exactly the printing of every table's planned queries, in listing order, skipping entries that are not tables |
| Integration.CamelCaseIsWord | puglify.js:29 | `camelCase` of a `\w` string is a `\w` string |
| Integration.InsertHeaderLine | puglify.js:71 | the insert header line matches the header pattern, with kind `insert` and no argument |
| Integration.UnknownKindUnloadable | pugsql.js:85-94 | a file with any header line whose kind is outside the table never loads |
| Integration.InsertHeaderUnloadable | puglify.js:71 | a file with an `insert` header line never loads |
| Integration.GeneratedTableUnloadable | puglify.js:71 | when the table's singular name is made of `\w` characters, its complete generated output, loaded as a query file, fails to load, by a parse error or by the unknown kind `insert` |

## Left out

- better-sqlite3 is not modelled. This covers opening the database, the pragmas, `exec`,
  `prepare`, and the engine behind `run`, `get`, `all` and `pluck`:
  - a statement is represented only by the run information and rows passed to `Invoke`;
  - an SQL body that `prepare` rejects, such as an empty one, is not an error in the model;
  - so is `run` on a statement that returns rows, which better-sqlite3 refuses.
- `fs.readFileSync` and the `\r?\n` split are not modelled: a file is given as its lines, and
  `DB.Module` takes them as a parameter.
- The `verbose` option and `dbFunction` are not modelled, because they are foreign calls.
- In puglify.js, `console.log`, `argv`, path handling, and the metadata queries that list
  objects, columns, keys, foreign keys and the rowid flag are not modelled:
  - the schema is given as a sequence of `SchemaObject` values;
  - output is a sequence of lines.
- The `addQueries` call at puglify.js:21 is not modelled: the `DB` class of pugsql.js has no
  such method, and the metadata comes in as data. test.js:7-9 likewise calls `addFunction`
  and `addQueries`, which pugsql.js does not define. test.js:67-73 passes single rows, arrays
  and generators to an `insertTest` query, which would need an `insert` kind that pugsql.js
  does not have. The model follows pugsql.js.
- `pluralize.singular` is an arbitrary function parameter.
- Casing is ASCII-only. JavaScript's full Unicode case mapping, including characters such as
  `ß` whose upper case is longer than one character, is not modelled.
- `Kinds.Lookup`: a row object's own columns are modelled, but a column reached through the
  row's prototype (say `r['toString']`) is not. The lookup is undefined for any name no
  column has.
- `Kinds.Value`: `Real` stands for every JavaScript number that is not an integer; SQLite
  integers are unbounded `int`s.
- `Generator.EmitTable` is a loop over a fixed order of the seven roles. Each step prints
  that role's query when its rule holds. This stands for the seven guarded blocks of
  puglify.js:49-86, which the source writes out in sequence. The rule names the same
  conditions, and the order of the printed lines is the same.
- `Registry.DB` models only the `modules` field: the database handle and the cached
  modules' statements are outside the model.
- A row with two columns of the same name keeps the last one in `Kinds.Lookup`. That is what
  a JavaScript object built column by column does; better-sqlite3's own choice is not
  modelled.

## Findings

| source | as written | input that shows it | evidently intended | confidence | as-written member | corrected member |
|---|---|---|---|---|---|---|
| pugsql.js:17 | `lastRowID` returns `stmt.run(...).changes` | an insert reporting `changes = 1`, `lastInsertRowid = 3` answers 1 | answers `lastInsertRowid` (3), as the comment on line 16 says | high, not executed | Kinds.LastRowIDReturnsChanges | Kinds.InvokeIntended |
| pugsql.js:88 | `spec.kind in kinds` is also true of inherited `Object.prototype` names | the header `-- :name q :toString` passes the check; `kinds.toString(arg)` returns a string, and calling it throws a TypeError instead of "Unknown kind of query" | reject every kind that is not an own entry of the table | high, not executed | Registry.InheritedKindIsNotAFunction | Registry.EntryForIntended |
| pugsql.js:79 | `filename in this.modules` is also true of inherited names | `db.module('constructor')` on a new object returns the `Object` function and never reads the file | load any filename not loaded before | medium, not executed | Registry.InheritedFilenameNeverLoads | Registry.CacheStepIntended |

For each row, the model keeps the behaviour as written: `Invoke`, `EntryFor` and `CacheStep`
are what `Compile`, `LoadModule` and `DB.Module` build on. Each corrected definition is proved
to agree with the as-written one everywhere except on the inputs that show the finding
(`Kinds.InvokeIntendedDiffers`, `Registry.EntryForDiffers`, `Registry.CacheStepAgrees`). So
what is proved of the as-written loader holds of the corrected one on every other input.

Beyond these rows, the generator and the loader are proved not to fit together
(`Integration.GeneratedTableUnloadable`). Every table gets an `insert… :insert` query
(puglify.js:71), and the make query of a rowid table uses `:insert` too (puglify.js:83), but
the kind table of pugsql.js:9-52 has no `insert`. Take a table whose singular name is made of
`\w` characters, so that its insert header matches the header pattern. Its complete generated
file then fails to load. The failure is "Unknown kind of query" unless the parse fails first,
which happens when an earlier header, such as one built from a table name containing `-`, does
not match the pattern. The lemma says nothing of a table whose singular name has other
characters: its insert header does not match, and is read as body text. The model keeps the
code's kind table.
